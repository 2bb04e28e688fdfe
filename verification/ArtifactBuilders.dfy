/** What each way of storing an artifact pushes, in order, and the descriptor it
    tags (local.go, local_multiplatform.go, manifest_builder.go,
    index_builder.go, artifact_annotations.go). */
module ArtifactBuilders {
  import opened Base
  import Text
  import opened LocalTag
  import opened OciContent
  import opened CatalogStore

  const AnnotationVersion := "org.opencontainers.image.version"
  const AnnotationCreated := "org.opencontainers.image.created"
  const AnnotationArtifactType := "dev.scafctl.artifact.type"
  const AnnotationArtifactName := "dev.scafctl.artifact.name"
  const AnnotationPlatform := "dev.scafctl.plugin.platform"
  const AnnotationOrigin := "dev.scafctl.artifact.origin"
  const AnnotationSourceCanonical := "dev.scafctl.source.canonical"

  const MediaTypeSolutionContent := "application/vnd.scafctl.solution.v1+yaml"
  const MediaTypeSolutionBundle := "application/vnd.scafctl.solution.bundle.v1+tar"
  const MediaTypeSolutionBundleManifest := "application/vnd.scafctl.solution.bundle-manifest.v2+json"
  const MediaTypeSolutionBundleBlob := "application/vnd.scafctl.solution.bundle-blob.v2+octet-stream"
  const MediaTypeSolutionBundleSmallTar := "application/vnd.scafctl.solution.bundle-small.v2+tar"

  function MediaTypeForKind(kind: string): string {
    if kind == KindSolution then MediaTypeSolutionContent
    else if kind == KindProvider then "application/vnd.scafctl.provider.v1+binary"
    else if kind == KindAuthHandler then "application/vnd.scafctl.auth-handler.v1+binary"
    else "application/octet-stream"
  }

  function ConfigMediaTypeForKind(kind: string): string {
    if kind == KindSolution then "application/vnd.scafctl.solution.config.v1+json"
    else if kind == KindProvider then "application/vnd.scafctl.provider.config.v1+json"
    else if kind == KindAuthHandler then "application/vnd.scafctl.auth-handler.config.v1+json"
    else "application/vnd.oci.image.config.v1+json"
  }

  // ---------------------------------------------------------------------
  // Annotations; an absent key reads as ""

  function Value(annotations: Annotations, key: string): string {
    if key in annotations then annotations[key] else ""
  }

  function ContentIdentity(ref: Reference, createdAt: string, annotations: Annotations): Annotations {
    var named := annotations[AnnotationArtifactType := ref.kind][AnnotationArtifactName := ref.name];
    var versioned := if ref.version.Some? then named[AnnotationVersion := ref.version.value]
                     else named - {AnnotationVersion};
    versioned[AnnotationCreated := createdAt]
  }

  // Store's own stamping keeps a version the caller set when the reference has
  // none.
  function Stamp(ref: Reference, createdAt: string, annotations: Annotations): Annotations {
    var named := annotations[AnnotationArtifactType := ref.kind][AnnotationArtifactName := ref.name];
    (if ref.version.Some? then named[AnnotationVersion := ref.version.value] else named)[AnnotationCreated := createdAt]
  }

  function DefaultOrigin(annotations: Annotations): Annotations {
    if Value(annotations, AnnotationOrigin) == "" then annotations[AnnotationOrigin := "built"] else annotations
  }

  function StripDescriptorOnly(annotations: Annotations): Annotations {
    annotations - {AnnotationSourceCanonical, AnnotationOrigin}
  }

  function LocalProvenance(ref: Reference, annotations: Annotations): Annotations {
    var named := annotations[AnnotationArtifactType := ref.kind][AnnotationArtifactName := ref.name];
    var versioned := if ref.version.Some? then named[AnnotationVersion := ref.version.value] else named;
    if ref.remote != "" then versioned[AnnotationSourceCanonical := ref.remote]
    else versioned - {AnnotationSourceCanonical}
  }

  function NonEmptyValues(annotations: Annotations): Annotations {
    map k | k in annotations && annotations[k] != "" :: annotations[k]
  }

  // ---------------------------------------------------------------------
  // Errors

  datatype Error =
    | AlreadyExists(tag: string)
    | NotFound
    | Ambiguous
    | InvalidQuery
    | InvalidReference
    | NoPlatforms
    | InvalidPlatform(platform: string)
    | NilManifest(platform: string)
    | NoLayers
    | InvalidArchive
    | MissingBlob
    | InvalidVersion
    | NilVersion

  // ---------------------------------------------------------------------
  // Store and StoreDedup

  function ConfigLayer(ref: Reference, platform: string, createdAt: string, annotations: Annotations): Layer
    requires ref.version.Some?
  {
    Layer(ConfigMediaTypeForKind(ref.kind),
          Config(ref.kind, ref.name, ref.version.value, platform, createdAt, annotations))
  }

  function NonEmpty(layers: seq<Layer>): seq<Layer> {
    if layers == [] then []
    else if layers[0].data == Raw([]) then NonEmpty(layers[1..])
    else [layers[0]] + NonEmpty(layers[1..])
  }

  function Optional(mediaType: string, data: seq<int>): seq<Layer> {
    if data == [] then [] else [Layer(mediaType, Raw(data))]
  }

  function RawLayers(mediaType: string, datas: seq<seq<int>>): (ls: seq<Layer>)
    ensures |ls| == |datas| && forall i | 0 <= i < |ls| :: ls[i] == Layer(mediaType, Raw(datas[i]))
  {
    if datas == [] then [] else [Layer(mediaType, Raw(datas[0]))] + RawLayers(mediaType, datas[1..])
  }

  // An artifact to be: its layers, and the two annotation maps.
  datatype Artifact = Artifact(config: Layer, layers: seq<Layer>, annotations: Annotations,
                               rootAnnotations: Annotations)

  function ManifestLayer(a: Artifact): Layer {
    Layer(MediaTypeManifest, Manifest(DescriptorOf(a.config), Descriptors(a.layers), a.annotations))
  }

  function Root(a: Artifact): Descriptor {
    DescriptorOf(ManifestLayer(a)).(annotations := a.rootAnnotations)
  }

  // The content layer goes first, then the config, then the other layers.
  function StorePushes(a: Artifact): seq<Layer>
    requires a.layers != []
  {
    [a.layers[0], a.config] + a.layers[1..] + [ManifestLayer(a)]
  }

  function StoreArtifact(ref: Reference, content: seq<int>, bundle: seq<int>, annotations: Annotations,
                         extra: seq<Layer>, createdAt: string): (a: Artifact)
    requires ref.version.Some?
    ensures a.layers != []
  {
    var anns := DefaultOrigin(Stamp(ref, createdAt, annotations));
    Artifact(ConfigLayer(ref, "", createdAt, anns),
             [Layer(MediaTypeForKind(ref.kind), Raw(content))] + Optional(MediaTypeSolutionBundle, bundle)
             + NonEmpty(extra),
             StripDescriptorOnly(anns), anns)
  }

  function DedupArtifact(ref: Reference, solution: seq<int>, manifest: seq<int>, smallTar: seq<int>,
                         blobs: seq<seq<int>>, annotations: Annotations, extra: seq<Layer>,
                         createdAt: string): (a: Artifact)
    requires ref.version.Some?
    ensures a.layers != []
  {
    var anns := Stamp(ref, createdAt, annotations);
    Artifact(ConfigLayer(ref, "", createdAt, anns),
             [Layer(MediaTypeSolutionContent, Raw(solution))]
             + ([Layer(MediaTypeSolutionBundleManifest, Raw(manifest))]
                + Optional(MediaTypeSolutionBundleSmallTar, smallTar)
                + RawLayers(MediaTypeSolutionBundleBlob, blobs) + NonEmpty(extra)),
             StripDescriptorOnly(anns), anns)
  }

  lemma StorePublishable(a: Artifact)
    requires a.layers != []
    ensures Publishable(StorePushes(a), Root(a))
  {
    var pushes := [a.layers[0], a.config] + a.layers[1..];
    assert pushes[0] == a.layers[0] && pushes[1] == a.config;
    forall d | d in DataDigests(a.layers) ensures d in DataDigests(pushes) {
      var i :| 0 <= i < |a.layers| && Digest(a.layers[i].data) == d;
      if i > 0 { assert pushes[i + 1] == a.layers[i]; }
    }
    hide DataDigests;
    ConfigPushed(pushes, a.config);
    ManifestPublishable(pushes, a.config, a.layers, a.annotations, a.rootAnnotations);
  }

  lemma ConfigPushed(pushes: seq<Layer>, config: Layer)
    requires config in pushes
    ensures Digest(config.data) in DataDigests(pushes)
  {
    var i :| 0 <= i < |pushes| && pushes[i] == config;
    assert Digest(pushes[i].data) in DataDigests(pushes);
  }

  // ---------------------------------------------------------------------
  // StoreMultiPlatform

  datatype PlatformBinary = PlatformBinary(platform: string, data: seq<int>)

  predicate ValidPlatform(platform: string) {
    var i := Text.Index(platform, '/');
    i > 0 && i + 1 < |platform|
  }

  function PlatformArtifact(ref: Reference, anns: Annotations, createdAt: string, pb: PlatformBinary): (a: Artifact)
    requires ref.version.Some?
    ensures a.layers != []
  {
    var platformAnns := anns[AnnotationPlatform := pb.platform];
    Artifact(ConfigLayer(ref, pb.platform, createdAt, map[]),
             [Layer(MediaTypeForKind(ref.kind), Raw(pb.data))], platformAnns, platformAnns)
  }

  // Everything pushed for the given binaries, and the index entries.
  function PlatformPushes(ref: Reference, anns: Annotations, createdAt: string, pbs: seq<PlatformBinary>): seq<Layer>
    requires ref.version.Some?
  {
    if pbs == [] then []
    else
      PlatformPushes(ref, anns, createdAt, pbs[..|pbs| - 1])
      + StorePushes(PlatformArtifact(ref, anns, createdAt, pbs[|pbs| - 1]))
  }

  function PlatformEntries(ref: Reference, anns: Annotations, createdAt: string,
                           pbs: seq<PlatformBinary>): seq<Descriptor>
    requires ref.version.Some?
  {
    if pbs == [] then []
    else
      PlatformEntries(ref, anns, createdAt, pbs[..|pbs| - 1])
      + [Root(PlatformArtifact(ref, anns, createdAt, pbs[|pbs| - 1])).(platform := pbs[|pbs| - 1].platform)]
  }

  function IndexLayer(entries: seq<Descriptor>, annotations: Annotations): Layer {
    Layer(MediaTypeIndex, Index(entries, annotations))
  }

  function MultiPushes(ref: Reference, anns: Annotations, createdAt: string, pbs: seq<PlatformBinary>): seq<Layer>
    requires ref.version.Some?
  {
    PlatformPushes(ref, anns, createdAt, pbs) + [IndexLayer(PlatformEntries(ref, anns, createdAt, pbs), anns)]
  }

  function MultiRoot(ref: Reference, anns: Annotations, createdAt: string, pbs: seq<PlatformBinary>): Descriptor
    requires ref.version.Some?
  {
    DescriptorOf(IndexLayer(PlatformEntries(ref, anns, createdAt, pbs), anns)).(annotations := anns)
  }

  lemma {:induction false} PlatformsPublishable(ref: Reference, anns: Annotations, createdAt: string,
                                                pbs: seq<PlatformBinary>)
    requires ref.version.Some?
    ensures forall i | 0 <= i < |PlatformEntries(ref, anns, createdAt, pbs)| ::
              Covered(PlatformPushes(ref, anns, createdAt, pbs), PlatformEntries(ref, anns, createdAt, pbs)[i])
  {
    if pbs != [] {
      var init := pbs[..|pbs| - 1];
      var a := PlatformArtifact(ref, anns, createdAt, pbs[|pbs| - 1]);
      var before := PlatformPushes(ref, anns, createdAt, init);
      PlatformsPublishable(ref, anns, createdAt, init);
      StorePublishable(a);
      ClosureOfDigest(Root(a), Root(a).annotations, pbs[|pbs| - 1].platform);
      var entries, last := PlatformEntries(ref, anns, createdAt, init), Root(a).(platform := pbs[|pbs| - 1].platform);
      assert PlatformEntries(ref, anns, createdAt, pbs) == entries + [last];
      assert PlatformPushes(ref, anns, createdAt, pbs) == before + StorePushes(a);
      hide PlatformPushes, PlatformEntries, PlatformArtifact, StorePushes, Root;
      EntriesAppend(before, StorePushes(a), entries, last);
    }
  }

  lemma EntriesAppend(before: seq<Layer>, more: seq<Layer>, entries: seq<Descriptor>, last: Descriptor)
    requires forall i | 0 <= i < |entries| :: Covered(before, entries[i])
    requires Covered(more, last)
    ensures forall i | 0 <= i < |entries + [last]| :: Covered(before + more, (entries + [last])[i])
  {
    DataDigestsConcat(before, more);
    forall i | 0 <= i < |entries + [last]| ensures Covered(before + more, (entries + [last])[i]) {
      if i < |entries| {
        CoveredMore(before, more, entries[i]);
      } else {
        CoveredAfter(before, more, last);
      }
    }
  }

  lemma CoveredAfter(before: seq<Layer>, more: seq<Layer>, root: Descriptor)
    requires Covered(more, root)
    ensures Covered(before + more, root)
  {
    DataDigestsConcat(before, more);
  }

  lemma MultiPublishable(ref: Reference, anns: Annotations, createdAt: string, pbs: seq<PlatformBinary>)
    requires ref.version.Some?
    ensures Publishable(MultiPushes(ref, anns, createdAt, pbs), MultiRoot(ref, anns, createdAt, pbs))
  {
    PlatformsPublishable(ref, anns, createdAt, pbs);
    hide PlatformPushes, PlatformEntries, Publishable;
    IndexPublishable(PlatformPushes(ref, anns, createdAt, pbs), PlatformEntries(ref, anns, createdAt, pbs), anns, anns);
  }

  // ---------------------------------------------------------------------
  // ManifestBuilder and IndexBuilder

  datatype ManifestBuilder = ManifestBuilder(ref: Reference, platform: string, createdAt: string, layers: seq<Layer>,
                                             metadata: Annotations, transform: Annotations -> Annotations)

  datatype PlatformManifest = PlatformManifest(platform: string, builder: Option<ManifestBuilder>)

  datatype IndexBuilder = IndexBuilder(ref: Reference, createdAt: string, platforms: seq<PlatformManifest>,
                                       metadata: Annotations, transform: Annotations -> Annotations)

  datatype ArtifactBuilder = OneManifest(manifest: ManifestBuilder) | OneIndex(index: IndexBuilder)

  // The annotation pipeline: the caller's metadata, transformed, stamped, and
  // stripped of provenance.
  function ManifestAnnotations(b: ManifestBuilder): Annotations {
    var stamped := ContentIdentity(b.ref, b.createdAt, b.transform(b.metadata));
    StripDescriptorOnly(if b.platform != "" then stamped[AnnotationPlatform := b.platform] else stamped)
  }

  function IndexAnnotations(b: IndexBuilder): Annotations {
    StripDescriptorOnly(ContentIdentity(b.ref, b.createdAt, b.transform(b.metadata)))
  }

  // No metadata and no transformer can change the identity a blob carries, or
  // put provenance into it; under every other key the blob carries what the
  // transformer made of the metadata.
  lemma PipelineOwnsIdentity(b: ManifestBuilder, x: IndexBuilder)
    ensures var anns := ManifestAnnotations(b);
      && Identifies(anns, b.ref, b.createdAt) && (b.platform != "" ==> Value(anns, AnnotationPlatform) == b.platform)
      && (forall k | !Owned(k) && (k != AnnotationPlatform || b.platform == "") ::
            Same(anns, b.transform(b.metadata), k))
    ensures var anns := IndexAnnotations(x);
      Identifies(anns, x.ref, x.createdAt) && forall k | !Owned(k) :: Same(anns, x.transform(x.metadata), k)
  {
    DistinctKeys();
    IdentityStamped(b.ref, b.createdAt, b.transform(b.metadata), "");
    IdentityStamped(b.ref, b.createdAt, b.transform(b.metadata), b.platform);
    IdentityStamped(x.ref, x.createdAt, x.transform(x.metadata), "");
    hide ContentIdentity, StripDescriptorOnly, Identifies, Same, Owned;
  }

  lemma IdentityStamped(ref: Reference, createdAt: string, given: Annotations, platform: string)
    ensures var stamped := ContentIdentity(ref, createdAt, given);
      var anns := StripDescriptorOnly(if platform != "" then stamped[AnnotationPlatform := platform] else stamped);
      && Identifies(anns, ref, createdAt) && (platform != "" ==> Value(anns, AnnotationPlatform) == platform)
      && forall k | !Owned(k) && (k != AnnotationPlatform || platform == "") :: Same(anns, given, k)
  {
    DistinctKeys();
  }

  // The annotations say kind, name, version and time, and no provenance.
  predicate Identifies(anns: Annotations, ref: Reference, createdAt: string) {
    && Value(anns, AnnotationArtifactType) == ref.kind && Value(anns, AnnotationArtifactName) == ref.name
    && Value(anns, AnnotationVersion) == (if ref.version.Some? then ref.version.value else "")
    && Value(anns, AnnotationCreated) == createdAt
    && AnnotationOrigin !in anns && AnnotationSourceCanonical !in anns
  }

  // The keys the builder writes or strips.
  predicate Owned(k: string) {
    k in {AnnotationVersion, AnnotationCreated, AnnotationArtifactType, AnnotationArtifactName, AnnotationOrigin,
          AnnotationSourceCanonical}
  }

  predicate Same(a: Annotations, b: Annotations, k: string) {
    (k in a <==> k in b) && Value(a, k) == Value(b, k)
  }

  lemma DistinctKeys()
    ensures Distinct([AnnotationVersion, AnnotationCreated, AnnotationArtifactType, AnnotationArtifactName,
                      AnnotationPlatform, AnnotationOrigin, AnnotationSourceCanonical])
  {
    assert AnnotationVersion[25] == 'v' && AnnotationCreated[25] == 'c';
    assert AnnotationVersion[0] == 'o' && AnnotationCreated[0] == 'o';
    assert AnnotationArtifactType[0] == 'd' && AnnotationArtifactName[0] == 'd' && AnnotationPlatform[0] == 'd';
    assert AnnotationOrigin[0] == 'd' && AnnotationSourceCanonical[0] == 'd';
    assert AnnotationArtifactType[12] == 'a' && AnnotationArtifactName[12] == 'a' && AnnotationOrigin[12] == 'a';
    assert AnnotationPlatform[12] == 'p' && AnnotationSourceCanonical[12] == 's';
    assert AnnotationArtifactType[21] == 't' && AnnotationArtifactName[21] == 'n' && AnnotationOrigin[21] == 'o';
  }

  predicate ValidBuildRef(ref: Reference) {
    ValidKind(ref.kind) && ref.name != "" && ref.version.Some?
  }

  // assemble and encode.
  function Encoded(b: ManifestBuilder): (r: Result<Artifact, Error>)
    ensures r.Ok? ==> r.value.layers != []
  {
    if !ValidBuildRef(b.ref) then Err(InvalidReference)
    else if b.layers == [] then Err(NoLayers)
    else
      var anns := ManifestAnnotations(b);
      Ok(Artifact(ConfigLayer(b.ref, b.platform, b.createdAt, anns), b.layers, anns, map[]))
  }

  function BuilderPushes(a: Artifact): seq<Layer> {
    a.layers + [a.config] + [ManifestLayer(a)]
  }

  function Stamped(b: IndexBuilder, p: PlatformManifest): ManifestBuilder
    requires p.builder.Some?
  {
    p.builder.value.(ref := b.ref, createdAt := b.createdAt, platform := p.platform)
  }

  function Entry(b: IndexBuilder, p: PlatformManifest): Result<Descriptor, Error> {
    if !ValidPlatform(p.platform) then Err(InvalidPlatform(p.platform))
    else if p.builder == None then Err(NilManifest(p.platform))
    else
      match Encoded(Stamped(b, p))
      case Err(e) => Err(e)
      case Ok(a) => Ok(DescriptorOf(ManifestLayer(a)).(annotations := a.annotations, platform := p.platform))
  }

  function EntriesFrom(b: IndexBuilder, i: nat): Result<seq<Descriptor>, Error>
    requires i <= |b.platforms|
    decreases |b.platforms| - i
  {
    if i == |b.platforms| then Ok([])
    else
      match Entry(b, b.platforms[i])
      case Err(e) => Err(e)
      case Ok(d) =>
        match EntriesFrom(b, i + 1)
        case Err(e) => Err(e)
        case Ok(ds) => Ok([d] + ds)
  }

  // Index: the entries in chain order, one per platform.
  function BuiltIndex(b: IndexBuilder): Result<Layer, Error> {
    if !ValidBuildRef(b.ref) then Err(InvalidReference)
    else if b.platforms == [] then Err(NoPlatforms)
    else
      match EntriesFrom(b, 0)
      case Err(e) => Err(e)
      case Ok(entries) => Ok(IndexLayer(entries, IndexAnnotations(b)))
  }

  function ChildPushes(b: IndexBuilder, n: nat): seq<Layer>
    requires n <= |b.platforms|
  {
    if n == 0 then [] else ChildPushes(b, n - 1) + LastPushes(b, n)
  }

  function LastPushes(b: IndexBuilder, n: nat): seq<Layer>
    requires 0 < n <= |b.platforms|
  {
    var p := b.platforms[n - 1];
    if p.builder.Some? && Encoded(Stamped(b, p)).Ok? then BuilderPushes(Encoded(Stamped(b, p)).value) else []
  }

  lemma BuilderPublishable(a: Artifact, annotations: Annotations, platform: string)
    ensures Publishable(BuilderPushes(a),
                        DescriptorOf(ManifestLayer(a)).(annotations := annotations, platform := platform))
  {
    var pushes := a.layers + [a.config];
    assert pushes[|a.layers|] == a.config;
    ConfigPushed(pushes, a.config);
    DataDigestsConcat(a.layers, [a.config]);
    hide DataDigests;
    ManifestPublishable(pushes, a.config, a.layers, a.annotations, annotations);
    ClosureOfDigest(DescriptorOf(ManifestLayer(a)).(annotations := annotations), annotations, platform);
  }

  lemma {:induction false} EntriesShape(b: IndexBuilder, i: nat)
    requires i <= |b.platforms| && EntriesFrom(b, i).Ok?
    ensures |EntriesFrom(b, i).value| == |b.platforms| - i
    ensures forall j | i <= j < |b.platforms| :: Entry(b, b.platforms[j]) == Ok(EntriesFrom(b, i).value[j - i])
    decreases |b.platforms| - i
  {
    hide Entry;
    if i < |b.platforms| {
      EntriesShape(b, i + 1);
      var rest := EntriesFrom(b, i + 1).value;
      assert EntriesFrom(b, i).value[1..] == rest;
    }
  }

  lemma {:induction false} ChildPublished(b: IndexBuilder, n: nat, j: nat)
    requires j < n <= |b.platforms| && Entry(b, b.platforms[j]).Ok?
    ensures Covered(ChildPushes(b, n), Entry(b, b.platforms[j]).value)
    decreases n
  {
    hide *;
    ChildPushesStep(b, n);
    if j < n - 1 {
      ChildPublished(b, n - 1, j);
      CoveredMore(ChildPushes(b, n - 1), LastPushes(b, n), Entry(b, b.platforms[j]).value);
    } else {
      LastPublished(b, n);
      CoveredAfter(ChildPushes(b, n - 1), LastPushes(b, n), Entry(b, b.platforms[j]).value);
    }
  }

  lemma LastPublished(b: IndexBuilder, n: nat)
    requires 0 < n <= |b.platforms| && Entry(b, b.platforms[n - 1]).Ok?
    ensures Covered(LastPushes(b, n), Entry(b, b.platforms[n - 1]).value)
  {
    var p := b.platforms[n - 1];
    var a := Encoded(Stamped(b, p)).value;
    hide BuilderPushes, ManifestLayer, Publishable, Encoded;
    BuilderPublishable(a, a.annotations, p.platform);
  }

  lemma ChildPushesStep(b: IndexBuilder, n: nat)
    requires 0 < n <= |b.platforms|
    ensures ChildPushes(b, n) == ChildPushes(b, n - 1) + LastPushes(b, n)
  {
  }

  // Push of either builder: what is pushed, and the descriptor returned.
  function Pushes(b: ArtifactBuilder): Result<(seq<Layer>, Descriptor), Error> {
    match b
    case OneManifest(m) =>
      (match Encoded(m)
       case Err(e) => Err(e)
       case Ok(a) => Ok((BuilderPushes(a), DescriptorOf(ManifestLayer(a)))))
    case OneIndex(x) =>
      match BuiltIndex(x)
      case Err(e) => Err(e)
      case Ok(layer) => Ok((ChildPushes(x, |x.platforms|) + [layer], DescriptorOf(layer)))
  }

  // Whatever a builder is given, the root it returns is publishable: its
  // children are pushed before it.
  lemma PushesPublishable(b: ArtifactBuilder, annotations: Annotations)
    requires Pushes(b).Ok?
    ensures Publishable(Pushes(b).value.0, Pushes(b).value.1.(annotations := annotations))
  {
    match b {
      case OneManifest(m) =>
        BuilderPublishable(Encoded(m).value, annotations, "");
      case OneIndex(x) =>
        var entries := EntriesFrom(x, 0).value;
        var pushes := ChildPushes(x, |x.platforms|);
        EntriesShape(x, 0);
        forall j | 0 <= j < |entries| ensures Covered(pushes, entries[j]) {
          ChildPublished(x, |x.platforms|, j);
        }
        hide Publishable, ChildPushes, EntriesFrom, Entry;
        IndexPublishable(pushes, entries, IndexAnnotations(x), annotations);
    }
  }

  function BuilderRef(b: ArtifactBuilder): Reference {
    match b
    case OneManifest(m) => m.ref
    case OneIndex(x) => x.ref
  }

  // tagForLocalRef
  predicate Taggable(ref: Reference) {
    ref.kind != "" && ref.name != "" && (ref.version.Some? || ref.digest != "")
  }

  function TaggedRoot(b: ArtifactBuilder, descAnnotations: Annotations): Descriptor
    requires Pushes(b).Ok?
  {
    Pushes(b).value.1.(annotations := LocalProvenance(BuilderRef(b), NonEmptyValues(descAnnotations)))
  }
}
