/** Reading artifacts back (local.go: Fetch; local_multiplatform.go:
    FetchByPlatform; multiplatform.go: MatchPlatform): what was stored is what is
    fetched. */
module CatalogFetch {
  import opened Base
  import opened LocalTag
  import opened OciContent
  import opened CatalogStore
  import opened ArtifactBuilders
  import opened CatalogSearch
  import opened CatalogChanges
  import opened CatalogRuns

  // The content layer of a manifest.
  function FetchManifest(s: Store, desc: Descriptor): Result<Content, Error> {
    if desc.digest !in s.blobs then Err(MissingBlob)
    else
      match s.blobs[desc.digest]
      case Manifest(_, layers, _) =>
        if layers == [] then Err(NoLayers)
        else if layers[0].digest !in s.blobs then Err(MissingBlob)
        else Ok(s.blobs[layers[0].digest])
      case _ => Err(NoLayers)
  }

  // The first entry for the platform.
  function Matching(ms: seq<Descriptor>, platform: string): Option<Descriptor> {
    if ms == [] then None
    else if ms[0].platform == platform then Some(ms[0])
    else Matching(ms[1..], platform)
  }

  // MatchPlatform. An entry without a platform has "" there.
  method MatchPlatform(ms: seq<Descriptor>, platform: string) returns (r: Result<Descriptor, Error>)
    ensures !ValidPlatform(platform) ==> r == Err(InvalidPlatform(platform))
    ensures ValidPlatform(platform) ==>
              r == match Matching(ms, platform) case Some(d) => Ok(d) case None => Err(NotFound)
  {
    if !ValidPlatform(platform) {
      return Err(InvalidPlatform(platform));
    }
    for i := 0 to |ms|
      invariant Matching(ms, platform) == Matching(ms[i..], platform)
    {
      assert ms[i..][1..] == ms[i + 1..];
      if ms[i].platform != "" && ms[i].platform == platform {
        return Ok(ms[i]);
      }
    }
    r := Err(NotFound);
  }

  // FetchByPlatform, once the tag is resolved.
  function FetchByPlatform(s: Store, desc: Descriptor, platform: string): Result<Content, Error> {
    if !IsImageIndex(desc) then FetchManifest(s, desc)
    else if desc.digest !in s.blobs then Err(MissingBlob)
    else if !ValidPlatform(platform) then Err(InvalidPlatform(platform))
    else
      match Matching(Children(s.blobs[desc.digest]), platform)
      case None => Err(NotFound)
      case Some(m) => FetchManifest(s, m)
  }

  // A stored manifest gives back every layer, the content layer first.
  lemma ManifestComesBack(s: Store, a: Artifact, desc: Descriptor)
    requires ContentAddressed(s.blobs) && Complete(s.blobs, desc) && a.layers != []
    requires desc.digest == Root(a).digest && desc.mediaType == MediaTypeManifest
    ensures FetchManifest(s, desc) == Ok(a.layers[0].data)
    ensures s.blobs[desc.digest] == ManifestLayer(a).data
    ensures forall i | 0 <= i < |a.layers| ::
              Digest(a.layers[i].data) in s.blobs && s.blobs[Digest(a.layers[i].data)] == a.layers[i].data
  {
    ClosureOfManifest(desc);
    assert desc.digest in Closure(desc);
    var layers := Descriptors(a.layers);
    forall i | 0 <= i < |a.layers| ensures Digest(a.layers[i].data) in s.blobs {
      assert layers[i].digest in Digests(layers);
    }
  }

  // What Store and StoreDedup stored under a tag is what Fetch returns for it, and
  // FetchByPlatform for every platform.
  lemma StoreThenFetch(s: Store, a: Artifact, tag: string)
    requires Valid(s) && a.layers != []
    ensures var s' := Published(s, StorePushes(a), Root(a), tag);
      && tag in s'.tags && s'.tags[tag] == Root(a)
      && FetchManifest(s', s'.tags[tag]) == Ok(a.layers[0].data)
      && forall platform :: FetchByPlatform(s', s'.tags[tag], platform) == Ok(a.layers[0].data)
  {
    NotAnIndex();
    StorePublishable(a);
    PublishKeeps(s, StorePushes(a), Root(a), tag);
    var s' := Published(s, StorePushes(a), Root(a), tag);
    hide Published, StorePushes, Closure;
    ManifestComesBack(s', a, Root(a));
  }

  lemma NotAnIndex()
    ensures MediaTypeManifest != MediaTypeIndex
  {
    assert |MediaTypeManifest| != |MediaTypeIndex|;
  }

  // findLayerByMediaType, and the blob it leads to.
  function FetchLayer(s: Store, layers: seq<Descriptor>, mediaType: string): Option<Content> {
    if layers == [] then None
    else if layers[0].mediaType == mediaType then
      if layers[0].digest in s.blobs then Some(s.blobs[layers[0].digest]) else None
    else FetchLayer(s, layers[1..], mediaType)
  }

  // A stored solution gives back its content and its bundle, and its identity;
  // provenance stays out of the manifest.
  lemma StoredSolutionComesBack(s: Store, ref: Reference, content: seq<int>, bundle: seq<int>, annotations: Annotations,
                                extra: seq<Layer>, createdAt: string, tag: string)
    requires Valid(s) && ref.version.Some?
    ensures var a := StoreArtifact(ref, content, bundle, annotations, extra, createdAt);
      var s' := Published(s, StorePushes(a), Root(a), tag);
      && tag in s'.tags && FetchManifest(s', s'.tags[tag]) == Ok(Raw(content))
      && (bundle != [] ==> FetchLayer(s', Descriptors(a.layers), MediaTypeSolutionBundle) == Some(Raw(bundle)))
      && Value(s'.tags[tag].annotations, AnnotationArtifactName) == ref.name
      && Value(s'.tags[tag].annotations, AnnotationArtifactType) == ref.kind
      && Value(s'.tags[tag].annotations, AnnotationVersion) == ref.version.value
      && Value(s'.tags[tag].annotations, AnnotationOrigin) != ""
      && AnnotationOrigin !in a.annotations && AnnotationSourceCanonical !in a.annotations
  {
    var a := StoreArtifact(ref, content, bundle, annotations, extra, createdAt);
    StoreAnnotations(ref, annotations, createdAt);
    StoreLayers(ref, content, bundle, annotations, extra, createdAt);
    StoreThenFetch(s, a, tag);
    StorePublishable(a);
    PublishKeeps(s, StorePushes(a), Root(a), tag);
    var s' := Published(s, StorePushes(a), Root(a), tag);
    assert Root(a).annotations == a.rootAnnotations && Root(a).digest == DescriptorOf(ManifestLayer(a)).digest;
    assert ContentAddressed(s'.blobs) && Complete(s'.blobs, Root(a));
    hide Published, StorePushes, StoreArtifact, Stamp, DefaultOrigin, Valid, Closure, FetchManifest;
    if bundle != [] {
      ManifestComesBack(s', a, Root(a));
      SecondLayer(s', a.layers, MediaTypeSolutionBundle);
    }
  }

  lemma SecondLayer(s: Store, layers: seq<Layer>, mediaType: string)
    requires |layers| >= 2 && layers[0].mediaType != mediaType && layers[1].mediaType == mediaType
    requires Digest(layers[1].data) in s.blobs && s.blobs[Digest(layers[1].data)] == layers[1].data
    ensures FetchLayer(s, Descriptors(layers), mediaType) == Some(layers[1].data)
  {
    var ds := Descriptors(layers);
    assert ds[1..][0] == ds[1];
  }

  lemma StoreAnnotations(ref: Reference, annotations: Annotations, createdAt: string)
    requires ref.version.Some?
    ensures var anns := DefaultOrigin(Stamp(ref, createdAt, annotations));
      && Value(anns, AnnotationArtifactName) == ref.name && Value(anns, AnnotationArtifactType) == ref.kind
      && Value(anns, AnnotationVersion) == ref.version.value && Value(anns, AnnotationOrigin) != ""
  {
    DistinctKeys();
  }

  lemma StoreLayers(ref: Reference, content: seq<int>, bundle: seq<int>, annotations: Annotations, extra: seq<Layer>,
                    createdAt: string)
    requires ref.version.Some?
    ensures var a := StoreArtifact(ref, content, bundle, annotations, extra, createdAt);
      && a.layers[0].data == Raw(content) && a.layers[0].mediaType != MediaTypeSolutionBundle
      && (bundle != [] ==> |a.layers| >= 2 && a.layers[1] == Layer(MediaTypeSolutionBundle, Raw(bundle)))
      && a.rootAnnotations == DefaultOrigin(Stamp(ref, createdAt, annotations))
      && AnnotationOrigin !in a.annotations && AnnotationSourceCanonical !in a.annotations
  {
    ContentTypeIsNotBundle(ref.kind);
    hide MediaTypeForKind, Stamp, DefaultOrigin;
  }

  lemma ContentTypeIsNotBundle(kind: string)
    ensures MediaTypeForKind(kind) != MediaTypeSolutionBundle
  {
    assert MediaTypeSolutionBundle[33] == 'b' && |MediaTypeSolutionBundle| == 46;
    assert |MediaTypeForKind(kind)| != 46 || MediaTypeForKind(kind)[33] != 'b';
  }

  lemma {:induction false} EntryAt(ref: Reference, anns: Annotations, createdAt: string,
                                   pbs: seq<PlatformBinary>, i: nat)
    requires ref.version.Some? && i < |pbs|
    ensures |PlatformEntries(ref, anns, createdAt, pbs)| == |pbs|
    ensures PlatformEntries(ref, anns, createdAt, pbs)[i]
            == Root(PlatformArtifact(ref, anns, createdAt, pbs[i])).(platform := pbs[i].platform)
    decreases |pbs|
  {
    hide PlatformArtifact;
    if |pbs| > 1 {
      EntryAt(ref, anns, createdAt, pbs[..|pbs| - 1], if i < |pbs| - 1 then i else 0);
    }
  }

  lemma {:induction false} MatchingFirst(ms: seq<Descriptor>, platform: string, i: nat)
    requires i < |ms| && ms[i].platform == platform && forall j | 0 <= j < i :: ms[j].platform != platform
    ensures Matching(ms, platform) == Some(ms[i])
  {
    if i > 0 { MatchingFirst(ms[1..], platform, i - 1); }
  }

  // What StoreMultiPlatform stored for a platform is what FetchByPlatform
  // returns for it: the first binary given for that platform, in a manifest that
  // carries the identity and the platform.
  lemma MultiThenFetch(s: Store, ref: Reference, anns: Annotations, createdAt: string, pbs: seq<PlatformBinary>,
                       tag: string, i: nat)
    requires Valid(s) && ref.version.Some? && i < |pbs|
    requires ValidPlatform(pbs[i].platform) && forall j | 0 <= j < i :: pbs[j].platform != pbs[i].platform
    ensures var root := MultiRoot(ref, anns, createdAt, pbs);
      var s' := Published(s, MultiPushes(ref, anns, createdAt, pbs), root, tag);
      && tag in s'.tags && s'.tags[tag] == root
      && FetchByPlatform(s', root, pbs[i].platform) == Ok(Raw(pbs[i].data))
      && exists d :: d in Children(s'.blobs[root.digest]) && d.platform == pbs[i].platform
                     && Value(d.annotations, "dev.scafctl.plugin.platform") == pbs[i].platform
                     && ManifestOf(s', d, ref, pbs[i].platform, createdAt,
                                   [Layer(MediaTypeForKind(ref.kind), Raw(pbs[i].data))])
  {
    var root := MultiRoot(ref, anns, createdAt, pbs);
    MultiPublishable(ref, anns, createdAt, pbs);
    PublishKeeps(s, MultiPushes(ref, anns, createdAt, pbs), root, tag);
    var s' := Published(s, MultiPushes(ref, anns, createdAt, pbs), root, tag);
    var entries := PlatformEntries(ref, anns, createdAt, pbs);
    var a := PlatformArtifact(ref, anns, createdAt, pbs[i]);
    assert root.digest.content == Index(entries, anns) && root.mediaType == MediaTypeIndex;
    PlatformIs(ref, anns, createdAt, pbs[i]);
    assert Complete(s'.blobs, root) && ContentAddressed(s'.blobs);
    hide Published, MultiPushes, MultiRoot, PlatformEntries, PlatformArtifact, ValidPlatform, Valid, Closure, Proper;
    EntryAt(ref, anns, createdAt, pbs, i);
    forall j | 0 <= j < i ensures entries[j].platform == pbs[j].platform {
      EntryAt(ref, anns, createdAt, pbs, j);
    }
    IndexThenFetch(s', root, entries, pbs[i].platform, i, a);
    EntryStored(s', root, i);
    hide *;
    EncodedManifest(s', entries[i], a);
    ManifestOfIs(s', entries[i], a, ref, pbs[i].platform, createdAt);
  }

  lemma PlatformIs(ref: Reference, anns: Annotations, createdAt: string, pb: PlatformBinary)
    requires ref.version.Some?
    ensures var a := PlatformArtifact(ref, anns, createdAt, pb); var config := a.config.data;
      && a.layers == [Layer(MediaTypeForKind(ref.kind), Raw(pb.data))]
      && config.Config? && config.kind == ref.kind && config.name == ref.name && config.version == ref.version.value
      && config.platform == pb.platform && config.createdAt == createdAt
      && Value(Root(a).annotations, "dev.scafctl.plugin.platform") == pb.platform
      && Root(a).digest == Root(a).(platform := pb.platform).digest && Root(a).mediaType == MediaTypeManifest
  {
  }

  lemma IndexThenFetch(s: Store, root: Descriptor, entries: seq<Descriptor>, platform: string, i: nat, a: Artifact)
    requires ContentAddressed(s.blobs) && Complete(s.blobs, root) && IsImageIndex(root)
    requires root.digest.content.Index? && root.digest.content.manifests == entries
    requires ValidPlatform(platform) && i < |entries| && a.layers != []
    requires entries[i].platform == platform && forall j | 0 <= j < i :: entries[j].platform != platform
    requires entries[i].digest == Root(a).digest && entries[i].mediaType == MediaTypeManifest
    ensures FetchByPlatform(s, root, platform) == Ok(a.layers[0].data)
  {
    MatchingFirst(entries, platform, i);
    ClosureTransitive(root, i);
    assert root.digest in Closure(root);
    hide Closure, Matching, ValidPlatform;
    ManifestComesBack(s, a, entries[i]);
  }

  // What a manifest builder stored is fetched: its first layer.
  lemma ManifestThenFetch(s: Store, m: ManifestBuilder, descAnnotations: Annotations, tag: string)
    requires Valid(s) && Pushes(OneManifest(m)).Ok?
    ensures var b := OneManifest(m);
      var s' := Published(s, Pushes(b).value.0, TaggedRoot(b, descAnnotations), tag);
      && tag in s'.tags && m.layers != [] && FetchManifest(s', s'.tags[tag]) == Ok(m.layers[0].data)
      && (forall platform :: FetchByPlatform(s', s'.tags[tag], platform) == Ok(m.layers[0].data))
      && ManifestOf(s', s'.tags[tag], m.ref, m.platform, m.createdAt, m.layers)
  {
    NotAnIndex();
    var b := OneManifest(m);
    var root, a := TaggedRoot(b, descAnnotations), Encoded(m).value;
    PushesPublishable(b, root.annotations);
    PublishKeeps(s, Pushes(b).value.0, root, tag);
    var s' := Published(s, Pushes(b).value.0, root, tag);
    assert Complete(s'.blobs, root) && ContentAddressed(s'.blobs);
    BuilderArtifact(m);
    hide Published, Pushes, BuilderPushes, Valid, Closure, Encoded, LocalProvenance, NonEmptyValues;
    assert root.digest == Root(a).digest && root.mediaType == MediaTypeManifest;
    ManifestComesBack(s', a, root);
    EncodedManifest(s', root, a);
  }

  // What an index builder stored for a platform is fetched: the first layer of
  // the first manifest given for it. Its entry and its configuration carry the
  // index's identity and the platform, whatever its own builder said.
  lemma IndexBuiltThenFetch(s: Store, x: IndexBuilder, descAnnotations: Annotations, tag: string, i: nat)
    requires Valid(s) && Pushes(OneIndex(x)).Ok? && i < |x.platforms|
    requires forall j | 0 <= j < i :: x.platforms[j].platform != x.platforms[i].platform
    ensures var b, p := OneIndex(x), x.platforms[i];
      var s' := Published(s, Pushes(b).value.0, TaggedRoot(b, descAnnotations), tag);
      && tag in s'.tags && p.builder.Some? && p.builder.value.layers != []
      && FetchByPlatform(s', s'.tags[tag], p.platform) == Ok(p.builder.value.layers[0].data)
      && exists d :: d in Children(s'.blobs[s'.tags[tag].digest]) && d.platform == p.platform
                     && NamesArtifact(d, x.ref, p.platform)
                     && ManifestOf(s', d, x.ref, p.platform, x.createdAt, p.builder.value.layers)
  {
    var b, p := OneIndex(x), x.platforms[i];
    var root, entries := TaggedRoot(b, descAnnotations), EntriesFrom(x, 0).value;
    var s' := Published(s, Pushes(b).value.0, root, tag);
    BuiltRoot(s, b, descAnnotations, tag);
    IndexRoot(x, descAnnotations);
    hide *;
    forall j | 0 <= j <= i ensures entries[j].platform == x.platforms[j].platform { EntryIs(x, j); }
    EntryIs(x, i);
    BuilderArtifact(Stamped(x, p));
    var a := Encoded(Stamped(x, p)).value;
    IndexThenFetch(s', root, entries, p.platform, i, a);
    EntryStored(s', root, i);
    EncodedManifest(s', entries[i], a);
    ManifestOfIs(s', entries[i], a, x.ref, p.platform, x.createdAt);
  }

  lemma BuiltRoot(s: Store, b: ArtifactBuilder, descAnnotations: Annotations, tag: string)
    requires Valid(s) && Pushes(b).Ok?
    ensures var root := TaggedRoot(b, descAnnotations);
      var s' := Published(s, Pushes(b).value.0, root, tag);
      && tag in s'.tags && s'.tags[tag] == root && Complete(s'.blobs, root) && ContentAddressed(s'.blobs)
  {
    var root := TaggedRoot(b, descAnnotations);
    PushesPublishable(b, root.annotations);
    PublishKeeps(s, Pushes(b).value.0, root, tag);
    hide Pushes, Published, Publishable, LocalProvenance, NonEmptyValues, Closure, Proper;
  }

  lemma IndexRoot(x: IndexBuilder, descAnnotations: Annotations)
    requires Pushes(OneIndex(x)).Ok?
    ensures EntriesFrom(x, 0).Ok? && |EntriesFrom(x, 0).value| == |x.platforms|
    ensures forall j | 0 <= j < |x.platforms| :: Entry(x, x.platforms[j]) == Ok(EntriesFrom(x, 0).value[j])
    ensures var root := TaggedRoot(OneIndex(x), descAnnotations);
      && IsImageIndex(root) && root.digest.content.Index? && root.digest.content.manifests == EntriesFrom(x, 0).value
  {
    hide ChildPushes, IndexAnnotations, LocalProvenance, NonEmptyValues, ValidBuildRef, Entry;
    EntriesShape(x, 0);
    hide EntriesFrom;
  }

  // The stored manifest lists the layers, in order, and its configuration names
  // the artifact.
  ghost predicate ManifestOf(s: Store, desc: Descriptor, ref: Reference, platform: string, createdAt: string,
                             layers: seq<Layer>) {
    && desc.digest in s.blobs && s.blobs[desc.digest].Manifest? && ref.version.Some?
    && s.blobs[desc.digest].layers == Descriptors(layers)
    && (var config := s.blobs[desc.digest].config.digest.content;
        && config.Config? && config.kind == ref.kind && config.name == ref.name && config.version == ref.version.value
        && config.platform == platform && config.createdAt == createdAt)
  }

  ghost predicate NamesArtifact(desc: Descriptor, ref: Reference, platform: string) {
    && Value(desc.annotations, "dev.scafctl.artifact.type") == ref.kind && ref.version.Some?
    && Value(desc.annotations, "dev.scafctl.artifact.name") == ref.name
    && Value(desc.annotations, "org.opencontainers.image.version") == ref.version.value
    && Value(desc.annotations, "dev.scafctl.plugin.platform") == platform
  }

  lemma BuilderArtifact(m: ManifestBuilder)
    requires Encoded(m).Ok?
    ensures var a := Encoded(m).value; var config := a.config.data;
      && m.layers != [] && a.layers == m.layers && m.ref.version.Some? && config.Config? && config.kind == m.ref.kind
      && config.name == m.ref.name && config.version == m.ref.version.value && config.platform == m.platform
      && config.createdAt == m.createdAt
  {
    hide ManifestAnnotations;
  }

  lemma EncodedManifest(s: Store, desc: Descriptor, a: Artifact)
    requires desc.digest in s.blobs && s.blobs[desc.digest] == desc.digest.content && desc.digest == Root(a).digest
    ensures s.blobs[desc.digest].Manifest? && s.blobs[desc.digest].layers == Descriptors(a.layers)
    ensures s.blobs[desc.digest].config.digest.content == a.config.data
  {
  }

  lemma ManifestOfIs(s: Store, desc: Descriptor, a: Artifact, ref: Reference, platform: string, createdAt: string)
    requires desc.digest in s.blobs && s.blobs[desc.digest].Manifest? && ref.version.Some?
    requires s.blobs[desc.digest].layers == Descriptors(a.layers)
    requires s.blobs[desc.digest].config.digest.content == a.config.data && a.config.data.Config?
    requires a.config.data.kind == ref.kind && a.config.data.name == ref.name
    requires a.config.data.version == ref.version.value && a.config.data.platform == platform
    requires a.config.data.createdAt == createdAt
    ensures ManifestOf(s, desc, ref, platform, createdAt, a.layers)
  {
  }

  lemma EntryIs(x: IndexBuilder, j: nat)
    requires j < |x.platforms| && Entry(x, x.platforms[j]).Ok?
    ensures var p, d := x.platforms[j], Entry(x, x.platforms[j]).value;
      && d.platform == p.platform && ValidPlatform(p.platform) && p.builder.Some? && Encoded(Stamped(x, p)).Ok?
      && d.digest == Root(Encoded(Stamped(x, p)).value).digest && d.mediaType == MediaTypeManifest
      && Stamped(x, p).ref == x.ref && Stamped(x, p).platform == p.platform && Stamped(x, p).createdAt == x.createdAt
      && Stamped(x, p).layers == p.builder.value.layers && NamesArtifact(d, x.ref, p.platform)
  {
    var p := x.platforms[j];
    var b := Stamped(x, p);
    assert p.platform != "" && b.ref == x.ref && b.platform == p.platform;
    PipelineOwnsIdentity(b, x);
    hide ManifestAnnotations, IndexAnnotations, ValidPlatform;
    assert Encoded(b).value.annotations == ManifestAnnotations(b);
  }

  lemma EntryStored(s: Store, root: Descriptor, i: nat)
    requires ContentAddressed(s.blobs) && Complete(s.blobs, root)
    requires IsImageIndex(root) && root.digest.content.Index? && i < |root.digest.content.manifests|
    ensures root.digest in s.blobs && s.blobs[root.digest] == root.digest.content
    ensures var d := root.digest.content.manifests[i];
      && d.digest in s.blobs && s.blobs[d.digest] == d.digest.content && d in Children(s.blobs[root.digest])
  {
    ClosureTransitive(root, i);
    var d := root.digest.content.manifests[i];
    assert root.digest in Closure(root) && d.digest in Closure(d);
  }

  // Fetching from two stores that hold a tag alike gives the same.
  lemma FetchAlike(s: Store, s': Store, tag: string, platform: string)
    requires Valid(s) && HeldAlike(s, s', tag)
    ensures FetchByPlatform(s', s'.tags[tag], platform) == FetchByPlatform(s, s.tags[tag], platform)
  {
    var root := s.tags[tag];
    assert root.digest in Closure(root) && ContentAddressed(s.blobs);
    if IsImageIndex(root) {
      var ms := Children(s.blobs[root.digest]);
      if ValidPlatform(platform) && Matching(ms, platform).Some? {
        var i := MatchingIs(ms, platform);
        ClosureTransitive(root, i);
        ProperChild(s, tag, i);
        hide Valid, Proper;
        ManifestAlike(s, s', ms[i]);
      }
    } else {
      assert Proper(root);
      hide Valid, Proper;
      ManifestAlike(s, s', root);
    }
  }

  lemma ProperChild(s: Store, tag: string, i: nat)
    requires Valid(s) && tag in s.tags && s.tags[tag].digest.content.Index?
             && i < |s.tags[tag].digest.content.manifests|
    ensures Proper(s.tags[tag].digest.content.manifests[i])
  {
  }

  lemma {:induction false} MatchingIs(ms: seq<Descriptor>, platform: string) returns (i: nat)
    requires Matching(ms, platform).Some?
    ensures i < |ms| && Matching(ms, platform) == Some(ms[i])
  {
    if ms[0].platform == platform {
      i := 0;
    } else {
      i := MatchingIs(ms[1..], platform);
      i := i + 1;
    }
  }

  lemma ManifestAlike(s: Store, s': Store, desc: Descriptor)
    requires ContentAddressed(s.blobs) && !(desc.digest.content.Manifest? && IsImageIndex(desc))
    requires forall d | d in Closure(desc) :: d in s.blobs && d in s'.blobs && s'.blobs[d] == s.blobs[d]
    ensures FetchManifest(s', desc) == FetchManifest(s, desc)
  {
    assert desc.digest in Closure(desc);
    if desc.digest.content.Manifest? && desc.digest.content.layers != [] {
      var layers := desc.digest.content.layers;
      assert layers[0].digest in Digests(layers);
    }
  }

  // What was stored stays fetchable, whatever else is stored, deleted or pruned,
  // until the artifact's own tag is written or removed.
  lemma StoredStaysFetchable(s: Store, lib: Library, ops: seq<Op>, tag: string, platform: string)
    requires Valid(s) && AllSound(lib, ops) && tag in s.tags && Untouched(s, lib, ops, tag)
    ensures tag in After(s, lib, ops).tags
    ensures FetchByPlatform(After(s, lib, ops), After(s, lib, ops).tags[tag], platform)
            == FetchByPlatform(s, s.tags[tag], platform)
  {
    UntouchedStays(s, lib, ops, tag);
    hide After, Untouched, AllSound;
    FetchAlike(s, After(s, lib, ops), tag, platform);
  }
}
