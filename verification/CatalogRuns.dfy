/** Runs of catalog operations: what stays stored, whatever the operations and
    their order (local.go, local_multiplatform.go). */
module CatalogRuns {
  import opened Base
  import opened LocalTag
  import opened OciContent
  import opened CatalogStore
  import opened ArtifactBuilders
  import opened CatalogSearch
  import opened Archive
  import opened CatalogChanges

  // An archive that is loaded holds what its artifact reaches, as the archives
  // Save writes do.
  ghost predicate Sound(lib: Library, op: Op) {
    op.Load? && Announced(lib, op.archive).Ok? ==>
      Complete(op.archive.blobs, Announced(lib, op.archive).value.1) && Proper(Announced(lib, op.archive).value.1)
  }

  lemma SavedIsSound(s: Store, lib: Library, found: string, force: bool)
    requires Valid(s) && found in s.tags && InfoForTag(s, lib, found).Ok?
    requires Saved(s, InfoForTag(s, lib, found).value).Ok?
    ensures var op := Op.Load(Saved(s, InfoForTag(s, lib, found).value).value, force);
      Callable(op) && Sound(lib, op)
  {
    var info := InfoForTag(s, lib, found).value;
    var c := Saved(s, info).value;
    var root := s.tags[BuildLocalTag(info.ref)];
    AnnouncedIsInfo(s, lib, found);
    hide InfoForTag, Announced, BuildLocalTag;
    assert Complete(s.blobs, root) && Proper(root) && ContentAddressed(s.blobs);
    ExportIsClosure(root);
    ClosureOfDigest(root, info.annotations, "");
    hide Valid, Closure, Proper, Exported;
  }

  // Every operation that tags an artifact has pushed all of it first.
  lemma ChangesPublishable(s: Store, lib: Library, op: Op)
    requires Callable(op) && ChangeOf(s, lib, op).Publish?
    ensures Publishable(ChangeOf(s, lib, op).pushes, ChangeOf(s, lib, op).root)
  {
    ChangeIs(s, lib, op);
    hide ChangeOf;
    if op.StoreContent? || op.StoreDedup? {
      StorePublishable(WrittenArtifact(op));
      hide Publishable, Refused, WrittenArtifact;
    } else if op.StoreMultiPlatform? {
      MultiPublishable(WriteRef(op.ref), Stamp(WriteRef(op.ref), op.createdAt, op.annotations), op.createdAt, op.pbs);
      hide Publishable, Refused, Stamp, ValidPrefix;
    } else if op.StoreInternal? {
      InternalPublishable(s, op.builder, op.force, op.descAnnotations);
      hide Publishable, InternalChange;
    } else {
      hide Announced, Located, Exists;
    }
  }

  lemma InternalPublishable(s: Store, builder: Option<ArtifactBuilder>, force: bool, descAnnotations: Annotations)
    ensures var c := InternalChange(s, builder, force, descAnnotations); c.Publish? ==> Publishable(c.pushes, c.root)
  {
    if InternalError(s, builder, force).None? {
      InternalOk(s, builder, force);
      PushesPublishable(builder.value, TaggedRoot(builder.value, descAnnotations).annotations);
    }
    hide Publishable, InternalError, Pushes;
  }

  lemma InternalOk(s: Store, builder: Option<ArtifactBuilder>, force: bool)
    requires InternalError(s, builder, force).None?
    ensures builder.Some? && Pushes(builder.value).Ok?
  {
  }

  lemma PerformKeeps(s: Store, lib: Library, op: Op)
    requires Valid(s) && Callable(op) && Sound(lib, op)
    ensures Valid(Performed(s, lib, op))
  {
    var c := ChangeOf(s, lib, op);
    PerformedIs(s, lib, op);
    ApplyIs(s, c);
    hide *;
    if c.Publish? {
      ChangesPublishable(s, lib, op);
      PublishKeeps(s, c.pushes, c.root, c.tag);
    } else if c.Abandon? {
      PushAllKeeps(s, c.pushes);
    } else if c.Untag? {
      UntagKeeps(s, c.tag);
    } else if c.Sweep? {
      PruneExact(s);
    } else {
      ImportKeeps(s, lib, op);
    }
  }

  lemma ImportIs(s: Store, lib: Library, op: Op)
    requires Callable(op) && ChangeOf(s, lib, op).Import?
    ensures op.Load? && Announced(lib, op.archive).Ok? && ContentAddressed(op.archive.blobs)
    ensures var c := ChangeOf(s, lib, op);
      c.archive == op.archive && Announced(lib, op.archive).value == (c.ref, c.root)
  {
    hide Refused, InternalError, Located, Exists, Announced;
  }

  lemma ImportKeeps(s: Store, lib: Library, op: Op)
    requires Valid(s) && Callable(op) && Sound(lib, op) && ChangeOf(s, lib, op).Import?
    ensures var c := ChangeOf(s, lib, op);
      && Valid(Apply(s, c)) && Apply(s, c) == Loaded(s, c.archive, c.ref, c.root)
      && Apply(s, c).tags == s.tags[BuildLocalTag(c.ref) := c.root]
      && Apply(s, c).blobs == s.blobs + c.archive.blobs
  {
    ImportIs(s, lib, op);
    var c := ChangeOf(s, lib, op);
    CompleteImport(s, c.archive, c.root);
    ApplyIs(s, c);
    hide ChangeOf, Apply, Loaded, Announced, Complete, Proper, BuildLocalTag, Valid, Closure;
    LoadExact(s, c.archive, c.ref, c.root);
    LoadedTags(s, c.archive, c.ref, c.root);
  }

  lemma CompleteImport(s: Store, archive: Contents, root: Descriptor)
    requires Complete(archive.blobs, root)
    ensures root.digest in archive.blobs && Complete(s.blobs + archive.blobs, root)
  {
    assert root.digest in Closure(root);
    hide Closure;
  }

  lemma LoadedTags(s: Store, archive: Contents, ref: Reference, root: Descriptor)
    ensures Loaded(s, archive, ref, root).tags == s.tags[BuildLocalTag(ref) := root]
    ensures Loaded(s, archive, ref, root).blobs == s.blobs + archive.blobs
  {
    hide BuildLocalTag;
  }

  ghost predicate AllSound(lib: Library, ops: seq<Op>) {
    forall i | 0 <= i < |ops| :: Callable(ops[i]) && Sound(lib, ops[i])
  }

  lemma SoundTail(lib: Library, ops: seq<Op>)
    requires AllSound(lib, ops) && ops != []
    ensures Callable(ops[0]) && Sound(lib, ops[0]) && AllSound(lib, ops[1..])
  {
    hide Sound, Callable;
  }

  ghost function After(s: Store, lib: Library, ops: seq<Op>): Store
    requires AllSound(lib, ops)
    decreases |ops|
  {
    if ops == [] then s else (SoundTail(lib, ops); After(Performed(s, lib, ops[0]), lib, ops[1..]))
  }

  // Any sequence of operations keeps the store valid.
  lemma {:induction false} RunKeeps(s: Store, lib: Library, ops: seq<Op>)
    requires Valid(s) && AllSound(lib, ops)
    ensures Valid(After(s, lib, ops))
    decreases |ops|
  {
    hide Valid, Performed, AllSound;
    if ops != [] {
      SoundTail(lib, ops);
      PerformKeeps(s, lib, ops[0]);
      RunKeeps(Performed(s, lib, ops[0]), lib, ops[1..]);
    }
  }

  // After any operations on an empty catalog, every tag resolves to a stored
  // blob, and so does everything its artifact reaches, each under its digest.
  lemma EverythingReachableIsStored(lib: Library, ops: seq<Op>, tag: string, d: Digest)
    requires AllSound(lib, ops)
    requires tag in After(Empty(), lib, ops).tags && d in Closure(After(Empty(), lib, ops).tags[tag])
    ensures d in After(Empty(), lib, ops).blobs && After(Empty(), lib, ops).blobs[d] == d.content
  {
    EmptyValid();
    RunKeeps(Empty(), lib, ops);
    hide After, AllSound, Closure, Empty;
    assert Complete(After(Empty(), lib, ops).blobs, After(Empty(), lib, ops).tags[tag]);
  }

  lemma EmptyValid()
    ensures Valid(Empty())
  {
  }

  // ---------------------------------------------------------------------
  // What is left alone

  // The tag an operation writes or removes, if any.
  ghost function Touches(s: Store, lib: Library, op: Op): Option<string>
    requires Callable(op)
  {
    match ChangeOf(s, lib, op)
    case Publish(_, _, tag) => Some(tag)
    case Untag(tag) => Some(tag)
    case Import(_, ref, _) => Some(BuildLocalTag(ref))
    case _ => None
  }

  ghost predicate Untouched(s: Store, lib: Library, ops: seq<Op>, tag: string)
    requires AllSound(lib, ops)
    decreases |ops|
  {
    ops == [] || (SoundTail(lib, ops);
      Touches(s, lib, ops[0]) != Some(tag) && Untouched(Performed(s, lib, ops[0]), lib, ops[1..], tag))
  }

  lemma StepHolds(s: Store, lib: Library, op: Op, tag: string)
    requires Valid(s) && Callable(op) && Sound(lib, op) && tag in s.tags && Touches(s, lib, op) != Some(tag)
    ensures HeldAlike(s, Performed(s, lib, op), tag)
  {
    var c := ChangeOf(s, lib, op);
    PerformedIs(s, lib, op);
    ApplyIs(s, c);
    hide Valid, Publishable, ChangeOf, Published, Pruned, HeldAlike, PushedAll, Untagged, Loaded, Apply, Performed;
    if c.Publish? {
      ChangesPublishable(s, lib, op);
      OthersKept(s, c.pushes, c.root, c.tag, tag);
    } else if c.Abandon? {
      AbandonHolds(s, c.pushes, tag);
    } else if c.Untag? {
      OthersKeptByDelete(s, c.tag, tag);
    } else if c.Sweep? {
      TaggedKeptByPrune(s, tag);
    } else {
      ImportKeeps(s, lib, op);
      ImportIs(s, lib, op);
      MoreBlobsHold(s, Performed(s, lib, op), c.archive.blobs, tag);
    }
  }

  lemma MoreBlobsHold(s: Store, s': Store, more: Blobs, tag: string)
    requires Valid(s) && tag in s.tags && tag in s'.tags && s'.tags[tag] == s.tags[tag]
    requires s'.blobs == s.blobs + more && ContentAddressed(more)
    ensures HeldAlike(s, s', tag)
  {
    assert Complete(s.blobs, s.tags[tag]);
    hide Closure, Proper;
    forall d | d in Closure(s.tags[tag]) ensures d in s.blobs && d in s'.blobs && s'.blobs[d] == s.blobs[d] {
      assert d in s.blobs.Keys;
    }
  }

  lemma AbandonHolds(s: Store, pushes: seq<Layer>, tag: string)
    requires Valid(s) && tag in s.tags
    ensures HeldAlike(s, PushedAll(s, pushes), tag)
  {
    PushAllKeeps(s, pushes);
    hide PushedAll, Closure, DataDigests, Proper;
    assert Complete(s.blobs, s.tags[tag]);
    forall d | d in Closure(s.tags[tag])
      ensures d in s.blobs && d in PushedAll(s, pushes).blobs && PushedAll(s, pushes).blobs[d] == s.blobs[d]
    {
      assert d in PushedAll(s, pushes).blobs.Keys;
    }
  }

  lemma HeldAlikeChain(a: Store, b: Store, c: Store, tag: string)
    requires HeldAlike(a, b, tag) && HeldAlike(b, c, tag)
    ensures HeldAlike(a, c, tag)
  {
    hide Closure;
  }

  lemma HeldAlikeTag(a: Store, b: Store, tag: string)
    requires HeldAlike(a, b, tag)
    ensures tag in b.tags
  {
    hide Closure;
  }

  // However many artifacts are stored, loaded, deleted and pruned around it, an
  // artifact whose tag is not itself written or removed keeps its root and every
  // blob.
  lemma {:induction false} UntouchedStays(s: Store, lib: Library, ops: seq<Op>, tag: string)
    requires Valid(s) && AllSound(lib, ops) && tag in s.tags && Untouched(s, lib, ops, tag)
    ensures HeldAlike(s, After(s, lib, ops), tag)
    decreases |ops|
  {
    hide HeldAlike, Valid, Performed, Touches, AllSound;
    if ops == [] {
      AbandonHolds(s, [], tag);
      assert PushedAll(s, []) == s;
    } else {
      SoundTail(lib, ops);
      var s1 := Performed(s, lib, ops[0]);
      StepHolds(s, lib, ops[0], tag);
      PerformKeeps(s, lib, ops[0]);
      HeldAlikeTag(s, s1, tag);
      UntouchedStays(s1, lib, ops[1..], tag);
      HeldAlikeChain(s, s1, After(s1, lib, ops[1..]), tag);
    }
  }

  // The identity a write stores under, if the operation is one.
  function WrittenRef(op: Op): Option<Reference> {
    match op
    case StoreContent(ref, _, _, _, _, _, _) => Some(ref)
    case StoreDedup(ref, _, _, _, _, _, _, _, _) => Some(ref)
    case StoreMultiPlatform(ref, _, _, _, _) => Some(ref)
    case StoreInternal(builder, _, _) => if builder.Some? then Some(BuilderRef(builder.value)) else None
    case _ => None
  }

  lemma WritesOwnTag(s: Store, lib: Library, op: Op)
    requires Callable(op) && WrittenRef(op).Some? && Touches(s, lib, op).Some?
    ensures Touches(s, lib, op) == Some(BuildLocalTag(WrittenRef(op).value))
  {
    hide Refused, InternalError, Located, Exists, Announced, BuildLocalTag;
  }

  // Writing one identity, in any of the four ways, never replaces the artifact
  // of another.
  lemma OtherIdentityUntouched(s: Store, lib: Library, op: Op, ref: Reference)
    requires Callable(op) && WrittenRef(op).Some? && StorableIdentity(WrittenRef(op).value) && StorableIdentity(ref)
    requires var w := WrittenRef(op).value;
      !(w.kind == ref.kind && w.name == ref.name && w.version == ref.version && w.remote == ref.remote)
    ensures Touches(s, lib, op) != Some(BuildLocalTag(ref))
  {
    if Touches(s, lib, op).Some? { WritesOwnTag(s, lib, op); }
    hide Touches, StorableIdentity, BuildLocalTag;
    if BuildLocalTag(WrittenRef(op).value) == BuildLocalTag(ref) { TagInjective(WrittenRef(op).value, ref); }
  }
}
