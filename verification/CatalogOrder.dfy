/** Children first: the order in which writes push blobs (manifest_builder.go,
    index_builder.go, local.go), and exactly when it has every manifest come
    after what it reaches. */
module CatalogOrder {
  import LocalTag
  import opened Base
  import opened OciContent
  import opened CatalogStore
  import opened ArtifactBuilders

  // All that x reaches, if it is pushed as a manifest or an index, is there.
  ghost predicate FitsAfter(have: set<Digest>, x: Layer) {
    IsListedType(x.mediaType) ==> Closure(DescriptorOf(x)) - {Digest(x.data)} <= have
  }

  // Pushed after have, every manifest or index comes after all it reaches.
  ghost predicate InOrderAfter(have: set<Digest>, layers: seq<Layer>) {
    forall i | 0 <= i < |layers| :: FitsAfter(have + DataDigests(layers[..i]), layers[i])
  }

  ghost predicate ChildrenFirst(pushes: seq<Layer>) {
    InOrderAfter({}, pushes)
  }

  lemma OrderAppend(have: set<Digest>, layers: seq<Layer>, x: Layer)
    ensures InOrderAfter(have, layers + [x])
            <==> InOrderAfter(have, layers) && FitsAfter(have + DataDigests(layers), x)
  {
    var all := layers + [x];
    hide FitsAfter, DataDigests;
    assert all[..|layers|] == layers;
    forall i | 0 <= i < |layers|
      ensures FitsAfter(have + DataDigests(all[..i]), all[i]) <==> FitsAfter(have + DataDigests(layers[..i]), layers[i])
    {
      assert all[..i] == layers[..i];
    }
  }

  lemma {:induction false} OrderConcat(have: set<Digest>, a: seq<Layer>, b: seq<Layer>)
    ensures InOrderAfter(have, a + b) <==> InOrderAfter(have, a) && InOrderAfter(have + DataDigests(a), b)
    decreases |b|
  {
    if b == [] {
      assert a + b == a;
      hide FitsAfter, DataDigests;
    } else {
      var init, x := b[..|b| - 1], b[|b| - 1];
      assert a + b == a + init + [x] && b == init + [x];
      hide *;
      OrderAppend(have + DataDigests(a), init, x);
      OrderConcat(have, a, init);
      OrderAppend(have, a + init, x);
      DataDigestsConcat(a, init);
      assert have + DataDigests(a + init) == have + DataDigests(a) + DataDigests(init);
    }
  }

  // Leaf content, and whatever is not pushed as a manifest or an index, may come
  // anywhere.
  predicate Free(x: Layer) {
    !IsListedType(x.mediaType) || LeafContent(x.data)
  }

  lemma FreeInOrder(have: set<Digest>, layers: seq<Layer>)
    requires forall i | 0 <= i < |layers| :: Free(layers[i])
    ensures InOrderAfter(have, layers)
  {
    hide DataDigests, LeafContent;
    forall i | 0 <= i < |layers| ensures FitsAfter(have + DataDigests(layers[..i]), layers[i]) {
      assert Free(layers[i]);
      LeafReachesItself(DescriptorOf(layers[i]));
      hide Closure;
    }
  }

  // A root published last comes after all it reaches.
  lemma RootFits(have: set<Digest>, init: seq<Layer>, x: Layer, root: Descriptor)
    requires Publishable(init + [x], root) && x.mediaType == root.mediaType
    ensures FitsAfter(have + DataDigests(init), x)
  {
    ClosureOfDigest(root, map[], "");
    assert (init + [x])[..|init|] == init;
    assert DescriptorOf(x) == root.(annotations := map[], platform := "");
    hide Closure, DataDigests, Proper;
  }

  // So a write that publishes its root last is in order when the rest is.
  lemma LastInOrder(have: set<Digest>, init: seq<Layer>, x: Layer, root: Descriptor)
    requires Publishable(init + [x], root) && x.mediaType == root.mediaType
    ensures InOrderAfter(have, init + [x]) <==> InOrderAfter(have, init)
  {
    hide *;
    RootFits(have, init, x, root);
    OrderAppend(have, init, x);
  }

  lemma NothingFirst(have: set<Digest>)
    ensures InOrderAfter(have, [])
  {
  }

  // ---------------------------------------------------------------------
  // Store, StoreDedup and StoreMultiPlatform

  // Content, config, layers, manifest: children first exactly when the parts
  // are.
  lemma StoreInOrder(have: set<Digest>, a: Artifact)
    requires a.layers != []
    ensures InOrderAfter(have, StorePushes(a)) <==> InOrderAfter(have, [a.layers[0], a.config] + a.layers[1..])
  {
    StorePublishable(a);
    assert StorePushes(a) == [a.layers[0], a.config] + a.layers[1..] + [ManifestLayer(a)];
    assert Root(a).mediaType == ManifestLayer(a).mediaType;
    hide *;
    LastInOrder(have, [a.layers[0], a.config] + a.layers[1..], ManifestLayer(a), Root(a));
  }

  lemma StoreChildrenFirst(a: Artifact)
    requires a.layers != []
    ensures ChildrenFirst(StorePushes(a)) <==> ChildrenFirst([a.layers[0], a.config] + a.layers[1..])
  {
    StoreInOrder({}, a);
    hide InOrderAfter, StorePushes;
  }

  // Where the write's own parts may come anywhere, exactly when the layers given
  // on top of them are in order after those.
  lemma ExtrasChildrenFirst(a: Artifact, own: seq<Layer>, extra: seq<Layer>)
    requires own != [] && a.layers == own + extra && Free(a.config) && forall i | 0 <= i < |own| :: Free(own[i])
    ensures ChildrenFirst(StorePushes(a)) <==> InOrderAfter({Digest(a.config.data)} + DataDigests(own), extra)
  {
    var parts := [own[0], a.config] + own[1..];
    PartsOf(a, own, extra);
    PartDigests(own, a.config);
    hide *;
    StoreChildrenFirst(a);
    FreeInOrder({}, parts);
    ChildrenConcat(parts, extra);
    ChildrenIs(parts);
  }

  lemma ChildrenIs(pushes: seq<Layer>)
    ensures ChildrenFirst(pushes) <==> InOrderAfter({}, pushes)
  {
    hide InOrderAfter;
  }

  lemma PartsOf(a: Artifact, own: seq<Layer>, extra: seq<Layer>)
    requires own != [] && a.layers == own + extra && Free(a.config) && forall i | 0 <= i < |own| :: Free(own[i])
    ensures var parts := [own[0], a.config] + own[1..];
      && [a.layers[0], a.config] + a.layers[1..] == parts + extra
      && forall i | 0 <= i < |parts| :: Free(parts[i])
  {
    hide Free;
  }

  lemma PartDigests(own: seq<Layer>, config: Layer)
    requires own != []
    ensures DataDigests([own[0], config] + own[1..]) == {Digest(config.data)} + DataDigests(own)
  {
    var parts := [own[0], config] + own[1..];
    assert parts[0] == own[0] && parts[1] == config;
    forall d ensures d in DataDigests(parts) <==> d == Digest(config.data) || d in DataDigests(own) {
      if i :| 0 <= i < |own| && Digest(own[i].data) == d {
        assert parts[if i == 0 then 0 else i + 1] == own[i];
      }
      if i :| 0 <= i < |parts| && Digest(parts[i].data) == d && i != 1 {
        assert parts[i] == own[if i == 0 then 0 else i - 1];
      }
    }
  }

  lemma PlatformFree(ref: LocalTag.Reference, anns: Annotations, createdAt: string, pb: PlatformBinary)
    requires ref.version.Some?
    ensures var a := PlatformArtifact(ref, anns, createdAt, pb);
      |a.layers| == 1 && LeafContent(a.layers[0].data) && LeafContent(a.config.data)
  {
  }

  lemma {:induction false} PlatformsChildrenFirst(ref: LocalTag.Reference, anns: Annotations, createdAt: string,
                                                  pbs: seq<PlatformBinary>)
    requires ref.version.Some?
    ensures ChildrenFirst(PlatformPushes(ref, anns, createdAt, pbs))
  {
    if pbs != [] {
      var init, pb := pbs[..|pbs| - 1], pbs[|pbs| - 1];
      var a := PlatformArtifact(ref, anns, createdAt, pb);
      PlatformsChildrenFirst(ref, anns, createdAt, init);
      PlatformFree(ref, anns, createdAt, pb);
      var before := PlatformPushes(ref, anns, createdAt, init);
      assert PlatformPushes(ref, anns, createdAt, pbs) == before + StorePushes(a);
      var have := {} + DataDigests(before);
      assert [a.layers[0], a.config] + a.layers[1..] == [a.layers[0], a.config];
      FreeInOrder(have, [a.layers[0], a.config]);
      hide PlatformPushes, PlatformArtifact, InOrderAfter, StorePushes, DataDigests;
      StoreInOrder(have, a);
      ChildrenConcat(before, StorePushes(a));
      assert have == DataDigests(before);
    } else {
      NothingFirst({});
    }
  }

  // StoreMultiPlatform: every platform's blobs and manifest, then the index.
  lemma MultiChildrenFirst(ref: LocalTag.Reference, anns: Annotations, createdAt: string, pbs: seq<PlatformBinary>)
    requires ref.version.Some?
    ensures ChildrenFirst(MultiPushes(ref, anns, createdAt, pbs))
  {
    PlatformsChildrenFirst(ref, anns, createdAt, pbs);
    MultiPublishable(ref, anns, createdAt, pbs);
    hide PlatformPushes, PlatformEntries, InOrderAfter, Publishable;
    LastInOrder({}, PlatformPushes(ref, anns, createdAt, pbs),
                    IndexLayer(PlatformEntries(ref, anns, createdAt, pbs), anns),
                MultiRoot(ref, anns, createdAt, pbs));
  }

  // ---------------------------------------------------------------------
  // The builders

  // Layers, config, manifest: in order exactly when the layers are.
  lemma BuilderInOrder(have: set<Digest>, a: Artifact)
    requires LeafContent(a.config.data)
    ensures InOrderAfter(have, BuilderPushes(a)) <==> InOrderAfter(have, a.layers)
  {
    var root := DescriptorOf(ManifestLayer(a));
    BuilderPublishable(a, root.annotations, root.platform);
    assert BuilderPushes(a) == a.layers + [a.config] + [ManifestLayer(a)];
    LeafFits(have + DataDigests(a.layers), a.config);
    hide *;
    LastInOrder(have, a.layers + [a.config], ManifestLayer(a), root);
    OrderAppend(have, a.layers, a.config);
  }

  lemma LeafFits(have: set<Digest>, x: Layer)
    requires LeafContent(x.data)
    ensures FitsAfter(have, x)
  {
    LeafReachesItself(DescriptorOf(x));
  }

  // The layers each builder was given are in order after what is pushed before
  // them.
  ghost predicate LayersInOrder(b: ArtifactBuilder) {
    match b
    case OneManifest(m) => ChildrenFirst(m.layers)
    case OneIndex(x) => forall j | 0 <= j < |x.platforms| :: PlatformInOrder(x, j)
  }

  ghost predicate PlatformInOrder(x: IndexBuilder, j: nat)
    requires j < |x.platforms|
  {
    x.platforms[j].builder.Some? ==> InOrderAfter(DataDigests(ChildPushes(x, j)), x.platforms[j].builder.value.layers)
  }

  lemma EncodedParts(m: ManifestBuilder)
    requires Encoded(m).Ok?
    ensures LeafContent(Encoded(m).value.config.data) && Encoded(m).value.layers == m.layers
  {
    hide ManifestAnnotations;
  }

  lemma LastInOrderExactly(x: IndexBuilder, n: nat)
    requires 0 < n <= |x.platforms| && Entry(x, x.platforms[n - 1]).Ok?
    ensures InOrderAfter(DataDigests(ChildPushes(x, n - 1)), LastPushes(x, n)) <==> PlatformInOrder(x, n - 1)
  {
    var p := x.platforms[n - 1];
    EncodedParts(Stamped(x, p));
    var a := Encoded(Stamped(x, p)).value;
    hide InOrderAfter, Encoded, BuilderPushes, ManifestLayer, DataDigests, ChildPushes;
    BuilderInOrder(DataDigests(ChildPushes(x, n - 1)), a);
  }

  lemma {:induction false} ChildrenInOrder(x: IndexBuilder, n: nat)
    requires n <= |x.platforms| && forall j | 0 <= j < n :: Entry(x, x.platforms[j]).Ok?
    ensures ChildrenFirst(ChildPushes(x, n)) <==> forall j | 0 <= j < n :: PlatformInOrder(x, j)
    decreases n
  {
    hide *;
    if n > 0 {
      ChildrenInOrder(x, n - 1);
      LastInOrderExactly(x, n);
      ChildPushesStep(x, n);
      ChildrenConcat(ChildPushes(x, n - 1), LastPushes(x, n));
    } else {
      NoChildren(x);
    }
  }

  lemma NoChildren(x: IndexBuilder)
    ensures ChildrenFirst(ChildPushes(x, 0))
  {
  }

  lemma ChildrenConcat(a: seq<Layer>, b: seq<Layer>)
    ensures ChildrenFirst(a + b) <==> ChildrenFirst(a) && InOrderAfter(DataDigests(a), b)
  {
    OrderConcat({}, a, b);
    hide InOrderAfter, DataDigests;
    assert {} + DataDigests(a) == DataDigests(a);
  }

  // Either builder pushes children first exactly when its layers are in order.
  lemma PushesChildrenFirst(b: ArtifactBuilder)
    requires Pushes(b).Ok?
    ensures ChildrenFirst(Pushes(b).value.0) <==> LayersInOrder(b)
  {
    PushesPublishable(b, map[]);
    match b {
      case OneManifest(m) =>
        EncodedParts(m);
        BuilderInOrder({}, Encoded(m).value);
        hide InOrderAfter, BuilderPushes;
      case OneIndex(x) =>
        EntriesShape(x, 0);
        ChildrenInOrder(x, |x.platforms|);
        hide InOrderAfter, EntriesFrom, Entry, ChildPushes, Publishable, PlatformInOrder;
        var index := IndexLayer(EntriesFrom(x, 0).value, IndexAnnotations(x));
        LastInOrder({}, ChildPushes(x, |x.platforms|), index, DescriptorOf(index));
    }
  }

  // A builder given a manifest before its own part pushes that manifest first.
  lemma ManifestBeforePart(b: ManifestBuilder, part: Layer)
    requires LeafContent(part.data) && Encoded(b).Ok?
    requires b.layers == [PartManifest(part), part]
    ensures !ChildrenFirst(Pushes(OneManifest(b)).value.0)
    ensures ChildrenFirst(Pushes(OneManifest(b.(layers := [part, PartManifest(part)]))).value.0)
  {
    var swapped := b.(layers := [part, PartManifest(part)]);
    EncodedAlike(b, [part, PartManifest(part)]);
    PairOrder(part);
    assert LayersInOrder(OneManifest(b)) <==> ChildrenFirst(b.layers);
    assert LayersInOrder(OneManifest(swapped)) <==> ChildrenFirst(swapped.layers);
    hide *;
    PushesChildrenFirst(OneManifest(b));
    PushesChildrenFirst(OneManifest(swapped));
  }

  lemma PairOrder(part: Layer)
    requires LeafContent(part.data)
    ensures ChildrenFirst([part, PartManifest(part)]) && !ChildrenFirst([PartManifest(part), part])
  {
    var inner := PartManifest(part);
    assert [part, inner] == [part] + [inner] && [inner, part] == [inner] + [part];
    PartOnly(part);
    FreeInOrder({}, [part]);
    hide InOrderAfter, FitsAfter, PartManifest, DataDigests;
    OrderAppend({}, [part], inner);
    FirstFits(inner, part);
  }

  lemma EncodedAlike(b: ManifestBuilder, layers: seq<Layer>)
    requires Encoded(b).Ok? && layers != []
    ensures Encoded(b.(layers := layers)).Ok?
    ensures Pushes(OneManifest(b)).Ok? && Pushes(OneManifest(b.(layers := layers))).Ok?
  {
    hide ManifestAnnotations, ConfigLayer, BuilderPushes, ManifestLayer;
  }

  lemma FirstFits(x: Layer, y: Layer)
    ensures InOrderAfter({}, [x] + [y]) ==> FitsAfter({}, x)
  {
    hide FitsAfter;
    NothingFirst({});
    NoDigests();
    var all := [x] + [y];
    if InOrderAfter({}, all) {
      assert all[..0] == [] && all[0] == x;
      assert FitsAfter({} + DataDigests(all[..0]), all[0]);
      assert {} + DataDigests([]) == {};
    }
  }

  lemma PartOnly(part: Layer)
    requires LeafContent(part.data)
    ensures FitsAfter({} + DataDigests([part]), PartManifest(part)) && !FitsAfter({}, PartManifest(part)) && Free(part)
  {
    var inner := PartManifest(part);
    ClosureOfManifest(DescriptorOf(inner));
    assert DescriptorOf(inner).digest.content == inner.data;
    var ds := [DescriptorOf(part)];
    assert Digests(ds) == {Digest(part.data)} by { assert ds[0].digest == Digest(part.data); }
    assert DataDigests([part]) == {Digest(part.data)} by { assert [part][0] == part; }
    hide Closure, Digests, DataDigests;
    assert Digest(part.data) != Digest(inner.data);
  }

  // A manifest whose config and only layer is part.
  function PartManifest(part: Layer): Layer {
    Layer(MediaTypeManifest, Manifest(DescriptorOf(part), [DescriptorOf(part)], map[]))
  }

  // ---------------------------------------------------------------------
  // Artifacts no part of which is a manifest

  // Layers that reference nothing, as file content and bundles do.
  predicate PlainLayers(layers: seq<Layer>) {
    forall i | 0 <= i < |layers| :: LeafContent(layers[i].data)
  }

  predicate PlainArtifact(a: Artifact) {
    PlainLayers(a.layers) && LeafContent(a.config.data)
  }

  lemma PlainInOrder(have: set<Digest>, layers: seq<Layer>)
    requires PlainLayers(layers)
    ensures InOrderAfter(have, layers)
  {
    forall i | 0 <= i < |layers| ensures Free(layers[i]) {}
    hide LeafContent, InOrderAfter, Free;
    FreeInOrder(have, layers);
  }

  lemma LeafRoot(a: Artifact, annotations: Annotations, platform: string)
    requires PlainArtifact(a)
    ensures LeafParts(DescriptorOf(ManifestLayer(a)).(annotations := annotations, platform := platform))
  {
  }

  lemma {:induction false} PlatformsLeaf(ref: LocalTag.Reference, anns: Annotations, createdAt: string,
                                         pbs: seq<PlatformBinary>)
    requires ref.version.Some?
    ensures forall i | 0 <= i < |PlatformEntries(ref, anns, createdAt, pbs)| ::
              LeafParts(PlatformEntries(ref, anns, createdAt, pbs)[i])
  {
    if pbs != [] {
      var pb := pbs[|pbs| - 1];
      var a := PlatformArtifact(ref, anns, createdAt, pb);
      PlatformsLeaf(ref, anns, createdAt, pbs[..|pbs| - 1]);
      PlatformFree(ref, anns, createdAt, pb);
      hide PlatformArtifact, LeafParts;
      LeafRoot(a, a.rootAnnotations, pb.platform);
    }
  }

  lemma MultiLeaf(ref: LocalTag.Reference, anns: Annotations, createdAt: string, pbs: seq<PlatformBinary>)
    requires ref.version.Some?
    ensures LeafParts(MultiRoot(ref, anns, createdAt, pbs))
  {
    PlatformsLeaf(ref, anns, createdAt, pbs);
    hide PlatformEntries;
  }

  // The layers a builder was given reference nothing.
  predicate PlainBuilder(b: ArtifactBuilder) {
    match b
    case OneManifest(m) => PlainLayers(m.layers)
    case OneIndex(x) => forall j | 0 <= j < |x.platforms| :: PlainPlatform(x.platforms[j])
  }

  predicate PlainPlatform(p: PlatformManifest) {
    p.builder.Some? ==> PlainLayers(p.builder.value.layers)
  }

  lemma PlainPushes(b: ArtifactBuilder)
    requires Pushes(b).Ok? && PlainBuilder(b)
    ensures LayersInOrder(b) && LeafParts(Pushes(b).value.1)
  {
    match b {
      case OneManifest(m) =>
        EncodedParts(m);
        PlainInOrder({}, m.layers);
        LeafRoot(Encoded(m).value, map[], "");
        hide InOrderAfter, LeafParts, PlainLayers;
      case OneIndex(x) =>
        forall j | 0 <= j < |x.platforms| ensures PlatformInOrder(x, j) {
          PlainPlatformInOrder(x, j);
        }
        PlainEntries(x);
        hide PlatformInOrder, EntriesFrom, PlainPlatform;
    }
  }

  lemma PlainPlatformInOrder(x: IndexBuilder, j: nat)
    requires j < |x.platforms| && PlainPlatform(x.platforms[j])
    ensures PlatformInOrder(x, j)
  {
    hide InOrderAfter, PlainLayers, ChildPushes, DataDigests;
    if x.platforms[j].builder.Some? {
      PlainInOrder(DataDigests(ChildPushes(x, j)), x.platforms[j].builder.value.layers);
    }
  }

  lemma PlainEntries(x: IndexBuilder)
    requires EntriesFrom(x, 0).Ok? && forall j | 0 <= j < |x.platforms| :: PlainPlatform(x.platforms[j])
    ensures forall j | 0 <= j < |EntriesFrom(x, 0).value| :: LeafParts(EntriesFrom(x, 0).value[j])
  {
    hide *;
    forall j | 0 <= j < |EntriesFrom(x, 0).value| ensures LeafParts(EntriesFrom(x, 0).value[j]) {
      EntryAt(x, 0, j);
      PlainEntry(x, j);
    }
  }

  lemma {:induction false} EntryAt(x: IndexBuilder, i: nat, j: nat)
    requires i <= |x.platforms| && EntriesFrom(x, i).Ok? && j < |EntriesFrom(x, i).value|
    ensures i + j < |x.platforms| && Entry(x, x.platforms[i + j]) == Ok(EntriesFrom(x, i).value[j])
    decreases j
  {
    hide Entry;
    if j > 0 { EntryAt(x, i + 1, j - 1); }
  }

  lemma PlainEntry(x: IndexBuilder, j: nat)
    requires j < |x.platforms| && Entry(x, x.platforms[j]).Ok? && PlainPlatform(x.platforms[j])
    ensures LeafParts(Entry(x, x.platforms[j]).value)
  {
    var p := x.platforms[j];
    EncodedParts(Stamped(x, p));
    var a := Encoded(Stamped(x, p)).value;
    hide Encoded, LeafParts, ManifestLayer;
    LeafRoot(a, a.annotations, p.platform);
  }
}
