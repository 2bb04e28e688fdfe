/** Runs of catalog operations and the manifests the store lists (local.go,
    local_multiplatform.go): exactly when each of them stays complete, between
    operations and wherever a write is interrupted. */
module CatalogListedRuns {
  import opened Base
  import opened LocalTag
  import opened OciContent
  import opened CatalogStore
  import opened ArtifactBuilders
  import opened CatalogSearch
  import opened CatalogOrder
  import opened CatalogListed
  import opened Archive
  import opened CatalogChanges
  import opened CatalogRuns

  // ---------------------------------------------------------------------
  // The order of a write

  // What a Store or a StoreDedup pushes of its own, before the layers given.
  function OwnLayers(op: Op): seq<Layer>
    requires Callable(op) && (op.StoreContent? || op.StoreDedup?)
  {
    WrittenArtifact(op.(extra := [])).layers
  }

  ghost function OwnDigests(op: Op): set<Digest>
    requires Callable(op) && (op.StoreContent? || op.StoreDedup?)
  {
    {Digest(WrittenArtifact(op).config.data)} + DataDigests(OwnLayers(op))
  }

  // The layers the caller gives are in order after what is pushed before them.
  ghost predicate GivenInOrder(op: Op)
    requires Callable(op)
  {
    match op
    case StoreContent(_, _, _, _, _, extra, _) => InOrderAfter(OwnDigests(op), NonEmpty(extra))
    case StoreDedup(_, _, _, _, _, _, _, extra, _) => InOrderAfter(OwnDigests(op), NonEmpty(extra))
    case StoreInternal(builder, _, _) => builder.Some? ==> LayersInOrder(builder.value)
    case _ => true
  }

  lemma WrittenShape(op: Op)
    requires Callable(op) && (op.StoreContent? || op.StoreDedup?)
    ensures WrittenArtifact(op).layers == OwnLayers(op) + NonEmpty(op.extra)
    ensures OwnLayers(op) != [] && Free(WrittenArtifact(op).config)
    ensures forall i | 0 <= i < |OwnLayers(op)| :: LeafContent(OwnLayers(op)[i].data) && Free(OwnLayers(op)[i])
  {
    hide Stamp, MediaTypeForKind, ConfigMediaTypeForKind, DefaultOrigin, StripDescriptorOnly, IsListedType;
  }

  // A Store, a StoreDedup or a build pushes children first exactly when the
  // layers given are in order; a StoreMultiPlatform always does, also when it
  // stops at an invalid platform.
  lemma ChangesChildrenFirst(s: Store, lib: Library, op: Op)
    requires Callable(op)
    ensures var c := ChangeOf(s, lib, op);
      && (c.Publish? ==> (ChildrenFirst(c.pushes) <==> GivenInOrder(op)))
      && (c.Abandon? ==> ChildrenFirst(c.pushes))
  {
    NothingFirst({});
    ChangeIs(s, lib, op);
    hide ChangeOf, InOrderAfter;
    if op.StoreContent? || op.StoreDedup? {
      WrittenShape(op);
      ExtrasChildrenFirst(WrittenArtifact(op), OwnLayers(op), NonEmpty(op.extra));
      hide Refused, WrittenArtifact, OwnLayers, Free, NonEmpty, StorePushes;
    } else if op.StoreMultiPlatform? {
      var ref, anns := WriteRef(op.ref), Stamp(WriteRef(op.ref), op.createdAt, op.annotations);
      MultiChildrenFirst(ref, anns, op.createdAt, op.pbs);
      PlatformsChildrenFirst(ref, anns, op.createdAt, ValidPrefix(op.pbs));
      hide Refused, Stamp, ValidPrefix;
    } else if op.StoreInternal? {
      InternalInOrder(s, op.builder, op.force, op.descAnnotations);
      hide InternalChange, LayersInOrder;
    } else {
      hide Located, Announced, Exists;
    }
  }

  lemma InternalInOrder(s: Store, builder: Option<ArtifactBuilder>, force: bool, descAnnotations: Annotations)
    ensures var c := InternalChange(s, builder, force, descAnnotations);
      && (c.Publish? ==> builder.Some? && (ChildrenFirst(c.pushes) <==> LayersInOrder(builder.value)))
      && (c.Abandon? ==> c.pushes == [])
  {
    if InternalError(s, builder, force).None? {
      InternalOk(s, builder, force);
      PushesChildrenFirst(builder.value);
    }
    hide ChildrenFirst, InternalError, Pushes, LayersInOrder;
  }

  ghost predicate Writes(c: Change) {
    c.Publish? || c.Abandon?
  }

  // Wherever a write is interrupted the store is valid and no tag has changed;
  // every listed manifest is complete wherever that is, exactly when each push
  // finds what it lists ready. Giving layers in order suffices, whatever is
  // stored.
  lemma InterruptedWrite(s: Store, lib: Library, op: Op)
    requires Valid(s) && ListedComplete(s) && Callable(op) && Writes(ChangeOf(s, lib, op))
    ensures var pushes := ChangeOf(s, lib, op).pushes;
      && (forall n: nat | n <= |pushes| :: Valid(PushedAll(s, pushes[..n])) && PushedAll(s, pushes[..n]).tags == s.tags)
      && (CompleteUpTo(s, pushes, |pushes|) <==> ReadyAfter(s.blobs.Keys, pushes))
      && (GivenInOrder(op) ==> ReadyAfter(s.blobs.Keys, pushes))
  {
    var pushes := ChangeOf(s, lib, op).pushes;
    ChangesChildrenFirst(s, lib, op);
    hide *;
    forall n: nat | n <= |pushes| ensures Valid(PushedAll(s, pushes[..n])) && PushedAll(s, pushes[..n]).tags == s.tags {
      PushAllKeeps(s, pushes[..n]);
    }
    InterruptedExactly(s, pushes);
    if ChildrenFirst(pushes) { InOrderIsReady(s.blobs.Keys, pushes); }
    WritesIs(ChangeOf(s, lib, op));
  }

  lemma WritesIs(c: Change)
    ensures Writes(c) <==> c.Publish? || c.Abandon?
  {
  }

  // ---------------------------------------------------------------------
  // Whole operations, and runs of them

  // The operation leaves every listed manifest complete: what a write lists is
  // there in the end, and a Prune spares what listed manifests reach.
  ghost predicate KeepsListed(s: Store, c: Change) {
    match c
    case Publish(pushes, _, _) => ReadyInTheEnd(s.blobs.Keys, pushes)
    case Abandon(pushes) => ReadyInTheEnd(s.blobs.Keys, pushes)
    case Sweep => PruneSpares(s)
    case _ => true
  }

  lemma PerformListedExactly(s: Store, lib: Library, op: Op)
    requires Valid(s) && ListedComplete(s) && Callable(op) && Sound(lib, op)
    ensures ListedComplete(Performed(s, lib, op)) <==> KeepsListed(s, ChangeOf(s, lib, op))
  {
    var c := ChangeOf(s, lib, op);
    PerformedIs(s, lib, op);
    ApplyIs(s, c);
    KeepsListedIs(s, c);
    hide *;
    if c.Publish? {
      ChangesPublishable(s, lib, op);
      PublishExactly(s, c.pushes, c.root, c.tag);
    } else if c.Abandon? {
      PushAllExactly(s, c.pushes);
    } else if c.Untag? {
      UntagListed(s, c.tag);
    } else if c.Sweep? {
      PruneCompleteExactly(s);
    } else {
      ImportListed(s, lib, op);
    }
  }

  lemma KeepsListedIs(s: Store, c: Change)
    ensures c.Publish? || c.Abandon? ==> (KeepsListed(s, c) <==> ReadyInTheEnd(s.blobs.Keys, c.pushes))
    ensures c.Sweep? ==> (KeepsListed(s, c) <==> PruneSpares(s))
    ensures c.Untag? || c.Import? ==> KeepsListed(s, c)
  {
    hide ReadyInTheEnd, PruneSpares;
  }

  lemma ImportListed(s: Store, lib: Library, op: Op)
    requires Valid(s) && ListedComplete(s) && Callable(op) && Sound(lib, op) && ChangeOf(s, lib, op).Import?
    ensures ListedComplete(Apply(s, ChangeOf(s, lib, op)))
  {
    ImportIs(s, lib, op);
    ImportKeeps(s, lib, op);
    var c := ChangeOf(s, lib, op);
    CompleteImport(s, c.archive, c.root);
    hide *;
    LoadedListed(s, c.archive, c.ref, c.root);
  }

  lemma LoadedListed(s: Store, archive: Contents, ref: Reference, root: Descriptor)
    requires ListedComplete(s) && Complete(s.blobs + archive.blobs, root)
    ensures ListedComplete(Loaded(s, archive, ref, root))
  {
    hide Closure, BuildLocalTag;
    var s' := Loaded(s, archive, ref, root);
    forall d | d in s'.listed ensures Closure(s'.listed[d]) <= s'.blobs.Keys {
      if d in s.listed && s'.listed[d] == s.listed[d] { assert Closure(s.listed[d]) <= s.blobs.Keys; }
    }
  }

  // Each operation of the run keeps the listed manifests complete ...
  ghost predicate EachKeeps(s: Store, lib: Library, ops: seq<Op>)
    requires AllSound(lib, ops)
    decreases |ops|
  {
    ops == [] || (SoundTail(lib, ops);
      KeepsListed(s, ChangeOf(s, lib, ops[0])) && EachKeeps(Performed(s, lib, ops[0]), lib, ops[1..]))
  }

  // ... they are complete after every operation of the run.
  ghost predicate AlwaysComplete(s: Store, lib: Library, ops: seq<Op>)
    requires AllSound(lib, ops)
    decreases |ops|
  {
    ListedComplete(s)
    && (ops == [] || (SoundTail(lib, ops); AlwaysComplete(Performed(s, lib, ops[0]), lib, ops[1..])))
  }

  lemma {:induction false} RunListedExactly(s: Store, lib: Library, ops: seq<Op>)
    requires Valid(s) && ListedComplete(s) && AllSound(lib, ops)
    ensures AlwaysComplete(s, lib, ops) <==> EachKeeps(s, lib, ops)
    decreases |ops|
  {
    hide Valid, ListedComplete, Performed, AllSound, KeepsListed, ChangeOf;
    if ops != [] {
      SoundTail(lib, ops);
      var s1 := Performed(s, lib, ops[0]);
      PerformKeeps(s, lib, ops[0]);
      PerformListedExactly(s, lib, ops[0]);
      if ListedComplete(s1) { RunListedExactly(s1, lib, ops[1..]); }
    }
  }

  // A write whose layers are in order keeps them complete, whatever is stored.
  lemma OrderedWriteKeeps(s: Store, lib: Library, op: Op)
    requires Callable(op) && GivenInOrder(op) && Writes(ChangeOf(s, lib, op))
    ensures KeepsListed(s, ChangeOf(s, lib, op))
  {
    ChangesChildrenFirst(s, lib, op);
    var pushes := ChangeOf(s, lib, op).pushes;
    hide ChangeOf, GivenInOrder, ChildrenFirst, ReadyInTheEnd;
    InOrderIsReady(s.blobs.Keys, pushes);
    ReadyIsInTheEnd(s.blobs.Keys, pushes);
  }

  // So runs without a Prune whose writes give their layers in order keep every
  // listed manifest complete.
  lemma {:induction false} OrderedRunComplete(s: Store, lib: Library, ops: seq<Op>)
    requires Valid(s) && ListedComplete(s) && AllSound(lib, ops)
    requires forall i | 0 <= i < |ops| :: !ops[i].Prune? && Callable(ops[i]) && GivenInOrder(ops[i])
    ensures AlwaysComplete(s, lib, ops)
    decreases |ops|
  {
    hide Valid, ListedComplete, Performed, AllSound, GivenInOrder;
    if ops != [] {
      SoundTail(lib, ops);
      assert !ops[0].Prune? && GivenInOrder(ops[0]);
      OrderedKeeps(s, lib, ops[0]);
      PerformKeeps(s, lib, ops[0]);
      PerformListedExactly(s, lib, ops[0]);
      OrderedRunComplete(Performed(s, lib, ops[0]), lib, ops[1..]);
    }
  }

  lemma OrderedKeeps(s: Store, lib: Library, op: Op)
    requires Callable(op) && GivenInOrder(op) && !op.Prune?
    ensures KeepsListed(s, ChangeOf(s, lib, op))
  {
    OnlyPruneSweeps(s, lib, op);
    KeepsListedIs(s, ChangeOf(s, lib, op));
    WritesIs(ChangeOf(s, lib, op));
    hide *;
    var c := ChangeOf(s, lib, op);
    if c.Publish? || c.Abandon? { OrderedWriteKeeps(s, lib, op); }
  }

  lemma OnlyPruneSweeps(s: Store, lib: Library, op: Op)
    requires Callable(op)
    ensures ChangeOf(s, lib, op).Sweep? ==> op.Prune?
  {
    hide Refused, InternalError, Located, Exists, Announced, WrittenArtifact, Stamp, ValidPrefix;
  }

  // ---------------------------------------------------------------------
  // Runs no layer of which is a manifest

  // The layers and archives given to the operation hold no manifest as a layer.
  ghost predicate Plain(lib: Library, op: Op) {
    match op
    case StoreContent(_, _, _, _, _, extra, _) => PlainLayers(extra)
    case StoreDedup(_, _, _, _, _, _, _, extra, _) => PlainLayers(extra)
    case StoreInternal(builder, _, _) => builder.Some? ==> PlainBuilder(builder.value)
    case Load(archive, _) => Announced(lib, archive).Ok? ==> LeafParts(Announced(lib, archive).value.1)
    case _ => true
  }

  lemma {:induction false} NonEmptyPlain(layers: seq<Layer>)
    requires PlainLayers(layers)
    ensures PlainLayers(NonEmpty(layers))
  {
    if layers != [] {
      assert forall i | 0 <= i < |layers[1..]| :: layers[1..][i] == layers[i + 1];
      NonEmptyPlain(layers[1..]);
    }
  }

  lemma PlainConcat(a: seq<Layer>, b: seq<Layer>)
    requires PlainLayers(a) && PlainLayers(b)
    ensures PlainLayers(a + b)
  {
    hide LeafContent;
  }

  ghost predicate InOrderChange(c: Change) {
    match c
    case Publish(pushes, root, _) => ChildrenFirst(pushes) && LeafParts(root)
    case Abandon(pushes) => ChildrenFirst(pushes)
    case _ => true
  }

  lemma PlainChange(s: Store, lib: Library, op: Op)
    requires Callable(op) && Plain(lib, op)
    ensures InOrderChange(ChangeOf(s, lib, op))
  {
    ChangeIs(s, lib, op);
    ChangesChildrenFirst(s, lib, op);
    hide ChangeOf, ChildrenFirst, InOrderAfter, LeafParts;
    if op.StoreContent? || op.StoreDedup? {
      WrittenPlain(lib, op);
      hide Refused, WrittenArtifact, OwnDigests, PlainLayers;
    } else if op.StoreMultiPlatform? {
      MultiLeaf(WriteRef(op.ref), Stamp(WriteRef(op.ref), op.createdAt, op.annotations), op.createdAt, op.pbs);
      hide Refused, Stamp, ValidPrefix, MultiRoot;
    } else if op.StoreInternal? {
      InternalPlain(s, op.builder, op.force, op.descAnnotations);
      hide InternalChange, LayersInOrder, PlainBuilder;
    } else {
      hide Located, Announced, Exists;
    }
  }

  lemma WrittenPlain(lib: Library, op: Op)
    requires Callable(op) && Plain(lib, op) && (op.StoreContent? || op.StoreDedup?)
    ensures GivenInOrder(op) && LeafParts(Root(WrittenArtifact(op)))
  {
    WrittenShape(op);
    NonEmptyPlain(op.extra);
    assert PlainLayers(OwnLayers(op));
    assert LeafContent(WrittenArtifact(op).config.data) by { ConfigLeaf(op); }
    PlainConcat(OwnLayers(op), NonEmpty(op.extra));
    hide WrittenArtifact, PlainLayers, NonEmpty, OwnLayers, InOrderAfter, LeafParts, ManifestLayer, Free, OwnDigests;
    PlainInOrder(OwnDigests(op), NonEmpty(op.extra));
    LeafRoot(WrittenArtifact(op), WrittenArtifact(op).rootAnnotations, "");
  }

  lemma ConfigLeaf(op: Op)
    requires Callable(op) && (op.StoreContent? || op.StoreDedup?)
    ensures LeafContent(WrittenArtifact(op).config.data)
  {
    hide Stamp, ConfigMediaTypeForKind, DefaultOrigin, NonEmpty, RawLayers, Optional;
  }

  lemma InternalPlain(s: Store, builder: Option<ArtifactBuilder>, force: bool, descAnnotations: Annotations)
    requires builder.Some? ==> PlainBuilder(builder.value)
    ensures var c := InternalChange(s, builder, force, descAnnotations);
      c.Publish? ==> LayersInOrder(builder.value) && LeafParts(c.root)
  {
    if InternalError(s, builder, force).None? {
      InternalOk(s, builder, force);
      PlainPushes(builder.value);
      LeafAnnotations(Pushes(builder.value).value.1, TaggedRoot(builder.value, descAnnotations).annotations);
    }
    hide LayersInOrder, InternalError, Pushes, PlainBuilder, LeafParts;
  }

  lemma LeafAnnotations(desc: Descriptor, annotations: Annotations)
    requires LeafParts(desc)
    ensures LeafParts(desc.(annotations := annotations))
  {
  }

  lemma PerformOrderly(s: Store, lib: Library, op: Op)
    requires Valid(s) && Orderly(s) && Callable(op) && Sound(lib, op) && Plain(lib, op)
    ensures Orderly(Performed(s, lib, op))
  {
    var c := ChangeOf(s, lib, op);
    PerformedIs(s, lib, op);
    ApplyIs(s, c);
    PlainChange(s, lib, op);
    hide Valid, Orderly, Publishable, ChildrenFirst, LeafParts, ChangeOf, Apply, Performed, Published, Pruned,
         PushedAll;
    if c.Publish? {
      ChangesPublishable(s, lib, op);
      PublishOrderly(s, c.pushes, c.root, c.tag);
    } else if c.Abandon? {
      AbandonOrderly(s, c.pushes);
    } else if c.Untag? {
      UntagOrderly(s, c.tag);
    } else if c.Sweep? {
      PruneOrderly(s);
    } else {
      ImportOrderly(s, lib, op);
    }
  }

  lemma ImportOrderly(s: Store, lib: Library, op: Op)
    requires Valid(s) && Orderly(s) && Callable(op) && Sound(lib, op) && Plain(lib, op) && ChangeOf(s, lib, op).Import?
    ensures Orderly(Apply(s, ChangeOf(s, lib, op)))
  {
    ImportIs(s, lib, op);
    ImportKeeps(s, lib, op);
    assert ListedComplete(s);
    ImportListed(s, lib, op);
    var c := ChangeOf(s, lib, op);
    assert LeafParts(c.root);
    hide *;
    TagsLeaf(s, Apply(s, c), BuildLocalTag(c.ref), c.root);
  }

  lemma TagsLeaf(s: Store, s': Store, tag: string, root: Descriptor)
    requires Orderly(s) && ListedComplete(s') && s'.tags == s.tags[tag := root] && LeafParts(root)
    ensures Orderly(s')
  {
    hide ListedComplete, LeafParts;
  }

  // Operations over plain layers keep every listed manifest complete, Prune
  // included.
  lemma {:induction false} RunOrderly(s: Store, lib: Library, ops: seq<Op>)
    requires Valid(s) && Orderly(s) && AllSound(lib, ops) && forall i | 0 <= i < |ops| :: Plain(lib, ops[i])
    ensures Orderly(After(s, lib, ops)) && AlwaysComplete(s, lib, ops)
    decreases |ops|
  {
    hide Valid, ListedComplete, LeafParts, Performed, AllSound, Plain;
    if ops != [] {
      SoundTail(lib, ops);
      PerformKeeps(s, lib, ops[0]);
      PerformOrderly(s, lib, ops[0]);
      RunOrderly(Performed(s, lib, ops[0]), lib, ops[1..]);
    }
  }

  // ---------------------------------------------------------------------
  // A run that leaves a listed manifest incomplete

  function FileBuilder(ref: Reference): ManifestBuilder {
    ManifestBuilder(ref, "", "", [Layer("file", Raw([1]))], map[], anns => anns)
  }

  // The manifest FileBuilder writes.
  function FileManifest(ref: Reference): Layer
    requires ValidBuildRef(ref)
  {
    ManifestLayer(Encoded(FileBuilder(ref)).value)
  }

  function HolderBuilder(ref: Reference, held: Reference): ManifestBuilder
    requires ValidBuildRef(held)
  {
    ManifestBuilder(ref, "", "", [Layer("file", FileManifest(held).data)], map[], anns => anns)
  }

  // Build an artifact, build one that holds its manifest as a layer, delete the
  // first, prune.
  function HolderRun(a: Reference, b: Reference): seq<Op>
    requires ValidBuildRef(a)
  {
    [Op.StoreInternal(Some(OneManifest(FileBuilder(a))), false, map[]),
     Op.StoreInternal(Some(OneManifest(HolderBuilder(b, a))), false, map[]),
     Op.Delete(a), Op.Prune]
  }

  lemma FileEncoded(ref: Reference)
    requires ValidBuildRef(ref)
    ensures Encoded(FileBuilder(ref)).Ok? && FileManifest(ref).mediaType == MediaTypeManifest
    ensures FileManifest(ref).data.Manifest?
    ensures FileManifest(ref).data.layers == [DescriptorOf(Layer("file", Raw([1])))]
  {
    hide ManifestAnnotations, ConfigLayer;
  }

  lemma HolderEncoded(ref: Reference, held: Reference)
    requires ValidBuildRef(ref) && ValidBuildRef(held)
    ensures Encoded(HolderBuilder(ref, held)).Ok?
    ensures var m := ManifestLayer(Encoded(HolderBuilder(ref, held)).value);
      && m.mediaType == MediaTypeManifest && m.data.Manifest?
      && m.data.layers == [DescriptorOf(Layer("file", FileManifest(held).data))]
      && LeafContent(m.data.config.digest.content)
  {
    hide ManifestAnnotations, FileManifest;
  }

  // A build under a new tag publishes its manifest.
  lemma Built(s: Store, lib: Library, m: ManifestBuilder)
    requires Encoded(m).Ok? && ValidBuildRef(m.ref) && BuildLocalTag(m.ref) !in s.tags
    ensures var op := Op.StoreInternal(Some(OneManifest(m)), false, map[]);
      var root := TaggedRoot(OneManifest(m), map[]);
      && Pushes(OneManifest(m)).Ok? && Publishable(BuilderPushes(Encoded(m).value), root)
      && root.digest == Digest(ManifestLayer(Encoded(m).value).data) && root.mediaType == MediaTypeManifest
      && Performed(s, lib, op) == Published(s, BuilderPushes(Encoded(m).value), root, BuildLocalTag(m.ref))
  {
    var op := Op.StoreInternal(Some(OneManifest(m)), false, map[]);
    var root := TaggedRoot(OneManifest(m), map[]);
    PushesPublishable(OneManifest(m), root.annotations);
    ChangeIs(s, lib, op);
    PerformedIs(s, lib, op);
    ApplyIs(s, ChangeOf(s, lib, op));
    hide ChangeOf, Performed, Apply, Encoded, BuilderPushes, Published, Publishable, LocalProvenance, BuildLocalTag;
  }

  // Publishing lists its root; what else is listed stays.
  lemma PublishedListed(s: Store, pushes: seq<Layer>, root: Descriptor, tag: string, d: Digest)
    requires Valid(s) && d in s.listed
    ensures var s' := Published(s, pushes, root, tag);
      root.digest in s'.listed && s'.listed[root.digest] == root
      && d in s'.listed && (d != root.digest ==> s'.listed[d] == s.listed[d])
  {
    ListedStays(s, pushes, d);
    hide Valid, PushedAll;
  }

  lemma {:induction false} ListedStays(s: Store, pushes: seq<Layer>, d: Digest)
    requires Valid(s) && d in s.listed
    ensures var s' := PushedAll(s, pushes); d in s'.blobs && d in s'.listed && s'.listed[d] == s.listed[d]
    decreases |pushes|
  {
    if pushes != [] {
      ListedStays(s, pushes[..|pushes| - 1], d);
      hide Valid, PushedAll, Closure;
    }
  }

  // A manifest held as a layer, and listed though no tag names it, is kept by a
  // Prune that removes its own layer.
  lemma HeldLosesLayer(s: Store, tag: string, outer: Descriptor, inner: Descriptor, part: Digest)
    requires Valid(s) && s.tags == map[tag := outer] && inner.digest in s.listed && s.listed[inner.digest] == inner
    requires inner.digest in Closure(outer) && part in Closure(inner) && part !in Closure(outer)
    ensures !ListedComplete(Pruned(s))
  {
    hide Valid, Closure, Pruned, ListedComplete;
    assert tag in s.tags && s.tags[tag] == outer;
    assert Reached(s, inner.digest) && !Reached(s, part);
    assert !AllReached(s, s.listed[inner.digest]);
    PruneCompleteExactly(s);
  }

  lemma HolderClosures(a: Reference, b: Reference, outer: Descriptor, inner: Descriptor)
    requires ValidBuildRef(a) && ValidBuildRef(b)
    requires inner.digest == Digest(FileManifest(a).data) && inner.mediaType == MediaTypeManifest
    requires Encoded(HolderBuilder(b, a)).Ok? && outer.mediaType == MediaTypeManifest
    requires outer.digest == Digest(ManifestLayer(Encoded(HolderBuilder(b, a)).value).data)
    ensures inner.digest in Closure(outer) && Digest(Raw([1])) in Closure(inner) && Digest(Raw([1])) !in Closure(outer)
    ensures inner.digest != outer.digest
  {
    FileEncoded(a);
    HolderEncoded(b, a);
    ClosureOfManifest(outer);
    ClosureOfManifest(inner);
    var part, held := DescriptorOf(Layer("file", Raw([1]))), DescriptorOf(Layer("file", FileManifest(a).data));
    assert Digests([part]) == {part.digest} by { assert [part][0] == part; }
    assert Digests([held]) == {held.digest} by { assert [held][0] == held; }
    var file, holder := FileManifest(a).data, ManifestLayer(Encoded(HolderBuilder(b, a)).value).data;
    assert inner.digest.content == file && outer.digest.content == holder;
    assert file.layers[0].digest.content.Raw? && holder.layers[0].digest.content.Manifest?;
    ConfigNotPart(b, a);
    hide Closure, Digests, FileManifest, ManifestLayer, Encoded, HolderBuilder, ValidBuildRef;
  }

  lemma ConfigNotPart(ref: Reference, held: Reference)
    requires ValidBuildRef(ref) && ValidBuildRef(held)
    ensures ManifestLayer(Encoded(HolderBuilder(ref, held)).value).data.config.digest.content.Config?
  {
    hide ManifestAnnotations, FileManifest;
  }

  lemma AfterStep(s: Store, lib: Library, ops: seq<Op>)
    requires AllSound(lib, ops) && ops != []
    ensures Callable(ops[0]) && AllSound(lib, ops[1..])
    ensures After(s, lib, ops) == After(Performed(s, lib, ops[0]), lib, ops[1..])
  {
    hide Performed, AllSound;
    SoundTail(lib, ops);
  }

  lemma AfterFour(s: Store, lib: Library, ops: seq<Op>)
    requires AllSound(lib, ops) && |ops| == 4
    ensures forall i | 0 <= i < 4 :: Callable(ops[i])
    ensures After(s, lib, ops)
            == Performed(Performed(Performed(Performed(s, lib, ops[0]), lib, ops[1]), lib, ops[2]), lib, ops[3])
  {
    hide *;
    assert ops[1..][1..] == ops[2..] && ops[2..][1..] == ops[3..] && ops[3..][1..] == [];
    AfterStep(s, lib, ops);
    var s1 := Performed(s, lib, ops[0]);
    AfterStep(s1, lib, ops[1..]);
    var s2 := Performed(s1, lib, ops[1]);
    AfterStep(s2, lib, ops[2..]);
    var s3 := Performed(s2, lib, ops[2]);
    AfterStep(s3, lib, ops[3..]);
    AfterNone(Performed(s3, lib, ops[3]), lib);
  }

  lemma AfterNone(s: Store, lib: Library)
    ensures AllSound(lib, []) && After(s, lib, []) == s
  {
  }

  // Both builds give their layer as a file, so everything listed is complete up
  // to the Prune; that one keeps the manifest deleted first, and not its layer.
  lemma LayerManifestLosesLayers(lib: Library, a: Reference, b: Reference)
    requires ValidBuildRef(a) && ValidBuildRef(b) && HasFullIdentity(a) && BuildLocalTag(a) != BuildLocalTag(b)
    ensures var ops := HolderRun(a, b);
      && AllSound(lib, ops) && AllSound(lib, ops[..3]) && AlwaysComplete(Empty(), lib, ops[..3])
      && !ListedComplete(After(Empty(), lib, ops))
  {
    var ops := HolderRun(a, b);
    HolderOrdered(lib, a, b);
    hide *;
    EmptyValid();
    EmptyListed();
    OrderedRunComplete(Empty(), lib, ops[..3]);
    AfterFour(Empty(), lib, ops);
    HolderLoses(lib, a, b);
  }

  lemma EmptyListed()
    ensures ListedComplete(Empty()) && Empty().tags == map[]
  {
  }

  lemma HolderOrdered(lib: Library, a: Reference, b: Reference)
    requires ValidBuildRef(a) && ValidBuildRef(b)
    ensures var ops := HolderRun(a, b);
      && |ops| == 4 && AllSound(lib, ops) && AllSound(lib, ops[..3])
      && forall i | 0 <= i < 3 :: !ops[..3][i].Prune? && Callable(ops[..3][i]) && GivenInOrder(ops[..3][i])
  {
    FilesInOrder(Layer("file", Raw([1])));
    FilesInOrder(Layer("file", FileManifest(a).data));
    hide InOrderAfter, FileManifest;
  }

  lemma FilesInOrder(file: Layer)
    requires file.mediaType == "file"
    ensures InOrderAfter({}, [file])
  {
    assert !IsListedType("file")
      by { assert "file"[0] == 'f' && MediaTypeManifest[0] == 'a' && MediaTypeIndex[0] == 'a'; }
    FreeInOrder({}, [file]);
    hide InOrderAfter;
  }

  // The store between the operations of the run: only what is tagged, and that
  // inner is listed, matters.
  ghost predicate Holds(s: Store, tags: map<string, Descriptor>, inner: Descriptor) {
    Valid(s) && s.tags == tags && inner.digest in s.listed && s.listed[inner.digest] == inner
  }

  lemma FirstBuilt(lib: Library, a: Reference)
    requires ValidBuildRef(a) && Encoded(FileBuilder(a)).Ok? && Pushes(OneManifest(FileBuilder(a))).Ok?
    ensures var inner := TaggedRoot(OneManifest(FileBuilder(a)), map[]);
      && Holds(Performed(Empty(), lib, Op.StoreInternal(Some(OneManifest(FileBuilder(a))), false, map[])),
               map[BuildLocalTag(a) := inner], inner)
      && inner.digest == Digest(FileManifest(a).data) && inner.mediaType == MediaTypeManifest
  {
    EmptyValid();
    EmptyListed();
    var m := FileBuilder(a);
    assert m.ref == a;
    var inner, pushes := TaggedRoot(OneManifest(m), map[]), BuilderPushes(Encoded(m).value);
    hide Encoded, Pushes, TaggedRoot, BuildLocalTag, BuilderPushes, Valid, Published, Performed, Publishable,
         FileBuilder, ValidBuildRef, ManifestLayer;
    Built(Empty(), lib, m);
    PublishKeeps(Empty(), pushes, inner, BuildLocalTag(a));
    RootListed(Empty(), pushes, inner, BuildLocalTag(a));
  }

  lemma RootListed(s: Store, pushes: seq<Layer>, root: Descriptor, tag: string)
    ensures var s' := Published(s, pushes, root, tag); root.digest in s'.listed && s'.listed[root.digest] == root
  {
    hide PushedAll;
  }

  lemma SecondBuilt(s: Store, lib: Library, m: ManifestBuilder, tags: map<string, Descriptor>, inner: Descriptor)
    requires Encoded(m).Ok? && ValidBuildRef(m.ref) && BuildLocalTag(m.ref) !in tags && Holds(s, tags, inner)
    requires Pushes(OneManifest(m)).Ok? && TaggedRoot(OneManifest(m), map[]).digest != inner.digest
    ensures var outer := TaggedRoot(OneManifest(m), map[]);
      && Holds(Performed(s, lib, Op.StoreInternal(Some(OneManifest(m)), false, map[])),
               tags[BuildLocalTag(m.ref) := outer], inner)
      && outer.digest == Digest(ManifestLayer(Encoded(m).value).data) && outer.mediaType == MediaTypeManifest
  {
    var outer, pushes := TaggedRoot(OneManifest(m), map[]), BuilderPushes(Encoded(m).value);
    hide Encoded, Pushes, TaggedRoot, BuildLocalTag, BuilderPushes, Valid, Published, Performed, Publishable,
         ValidBuildRef, ManifestLayer;
    Built(s, lib, m);
    PublishKeeps(s, pushes, outer, BuildLocalTag(m.ref));
    PublishedListed(s, pushes, outer, BuildLocalTag(m.ref), inner.digest);
  }

  lemma Deleted(s: Store, lib: Library, ref: Reference, tags: map<string, Descriptor>, inner: Descriptor)
    requires Holds(s, tags, inner) && HasFullIdentity(ref) && BuildLocalTag(ref) in tags
    ensures Holds(Performed(s, lib, Op.Delete(ref)), tags - {BuildLocalTag(ref)}, inner)
  {
    DeletePerformed(s, lib, ref);
    UntagKeeps(s, BuildLocalTag(ref));
    assert Located(s, lib, ref) == Ok(BuildLocalTag(ref));
    hide Valid, Performed, BuildLocalTag, HasFullIdentity, Located;
  }

  // Everything about the two builders that their order and contents decide.
  lemma HolderFacts(a: Reference, b: Reference)
    requires ValidBuildRef(a) && ValidBuildRef(b)
    ensures var first, second := FileBuilder(a), HolderBuilder(b, a);
      && Encoded(first).Ok? && Encoded(second).Ok? && second.ref == b
      && Pushes(OneManifest(first)).Ok? && Pushes(OneManifest(second)).Ok?
      && (var inner, outer := TaggedRoot(OneManifest(first), map[]), TaggedRoot(OneManifest(second), map[]);
          && inner.digest in Closure(outer) && Digest(Raw([1])) in Closure(inner) && Digest(Raw([1])) !in Closure(outer)
          && inner.digest != outer.digest)
  {
    var first, second := FileBuilder(a), HolderBuilder(b, a);
    assert second.ref == b;
    FileEncoded(a);
    HolderEncoded(b, a);
    FileManifestIs(a);
    hide *;
    BuilderOk(first);
    BuilderOk(second);
    RootOf(first);
    RootOf(second);
    HolderClosures(a, b, TaggedRoot(OneManifest(second), map[]), TaggedRoot(OneManifest(first), map[]));
  }

  lemma BothBuilt(lib: Library, a: Reference, b: Reference)
    requires ValidBuildRef(a) && ValidBuildRef(b) && BuildLocalTag(a) != BuildLocalTag(b)
    requires Pushes(OneManifest(FileBuilder(a))).Ok? && Pushes(OneManifest(HolderBuilder(b, a))).Ok?
    ensures var inner := TaggedRoot(OneManifest(FileBuilder(a)), map[]);
      var outer := TaggedRoot(OneManifest(HolderBuilder(b, a)), map[]);
      var s1 := Performed(Empty(), lib, Op.StoreInternal(Some(OneManifest(FileBuilder(a))), false, map[]));
      var s2 := Performed(s1, lib, Op.StoreInternal(Some(OneManifest(HolderBuilder(b, a))), false, map[]));
      Holds(s2, map[BuildLocalTag(a) := inner][BuildLocalTag(b) := outer], inner)
  {
    HolderFacts(a, b);
    hide *;
    FirstBuilt(lib, a);
    var inner := TaggedRoot(OneManifest(FileBuilder(a)), map[]);
    var s1 := Performed(Empty(), lib, Op.StoreInternal(Some(OneManifest(FileBuilder(a))), false, map[]));
    SecondBuilt(s1, lib, HolderBuilder(b, a), map[BuildLocalTag(a) := inner], inner);
  }

  lemma HolderLoses(lib: Library, a: Reference, b: Reference)
    requires ValidBuildRef(a) && ValidBuildRef(b) && HasFullIdentity(a) && BuildLocalTag(a) != BuildLocalTag(b)
    ensures var ops := HolderRun(a, b);
      && |ops| == 4 && (forall i | 0 <= i < 4 :: Callable(ops[i]))
      && (var s2 := Performed(Performed(Empty(), lib, ops[0]), lib, ops[1]);
          !ListedComplete(Performed(Performed(s2, lib, ops[2]), lib, ops[3])))
  {
    HolderOps(a, b);
    hide *;
    HolderFacts(a, b);
    BothBuilt(lib, a, b);
    var s1 := Performed(Empty(), lib, Op.StoreInternal(Some(OneManifest(FileBuilder(a))), false, map[]));
    var s2 := Performed(s1, lib, Op.StoreInternal(Some(OneManifest(HolderBuilder(b, a))), false, map[]));
    DeleteThenPrune(s2, lib, a, b, TaggedRoot(OneManifest(FileBuilder(a)), map[]),
                    TaggedRoot(OneManifest(HolderBuilder(b, a)), map[]), Digest(Raw([1])));
  }

  lemma DeleteThenPrune(s: Store, lib: Library, a: Reference, b: Reference, inner: Descriptor, outer: Descriptor,
                        part: Digest)
    requires HasFullIdentity(a) && BuildLocalTag(a) != BuildLocalTag(b)
    requires Holds(s, map[BuildLocalTag(a) := inner][BuildLocalTag(b) := outer], inner)
    requires inner.digest in Closure(outer) && part in Closure(inner) && part !in Closure(outer)
    ensures !ListedComplete(Performed(Performed(s, lib, Op.Delete(a)), lib, Op.Prune))
  {
    var tagA, tagB := BuildLocalTag(a), BuildLocalTag(b);
    assert Callable(Op.Delete(a));
    hide *;
    Deleted(s, lib, a, map[tagA := inner][tagB := outer], inner);
    var s3 := Performed(s, lib, Op.Delete(a));
    OnlySecond(tagA, tagB, inner, outer);
    HoldsIs(s3, map[tagB := outer], inner);
    PrunePerformed(s3, lib);
    HeldLosesLayer(s3, tagB, outer, inner, part);
  }

  lemma OnlySecond<K, V>(a: K, b: K, x: V, y: V)
    requires a != b
    ensures map[a := x][b := y] - {a} == map[b := y] && a in map[a := x][b := y]
  {
  }

  lemma HoldsIs(s: Store, tags: map<string, Descriptor>, inner: Descriptor)
    requires Holds(s, tags, inner)
    ensures Valid(s) && s.tags == tags && inner.digest in s.listed && s.listed[inner.digest] == inner
  {
    hide Valid;
  }

  lemma BuilderOk(m: ManifestBuilder)
    requires Encoded(m).Ok?
    ensures Pushes(OneManifest(m)).Ok?
  {
    hide Encoded;
  }

  lemma RootOf(m: ManifestBuilder)
    requires Encoded(m).Ok? && Pushes(OneManifest(m)).Ok?
    ensures var root := TaggedRoot(OneManifest(m), map[]);
      root.digest == Digest(ManifestLayer(Encoded(m).value).data) && root.mediaType == MediaTypeManifest
  {
    hide Encoded, BuilderPushes;
  }

  lemma FileManifestIs(ref: Reference)
    requires ValidBuildRef(ref)
    ensures Encoded(FileBuilder(ref)).Ok? && FileManifest(ref) == ManifestLayer(Encoded(FileBuilder(ref)).value)
  {
    hide Encoded, ManifestLayer;
    FileEncoded(ref);
  }

  lemma HolderOps(a: Reference, b: Reference)
    requires ValidBuildRef(a)
    ensures |HolderRun(a, b)| == 4
    ensures HolderRun(a, b)[0] == Op.StoreInternal(Some(OneManifest(FileBuilder(a))), false, map[])
    ensures HolderRun(a, b)[1] == Op.StoreInternal(Some(OneManifest(HolderBuilder(b, a))), false, map[])
    ensures HolderRun(a, b)[2] == Op.Delete(a) && HolderRun(a, b)[3] == Op.Prune
    ensures forall i | 0 <= i < 4 :: Callable(HolderRun(a, b)[i])
  {
    hide FileBuilder, HolderBuilder;
  }
}
