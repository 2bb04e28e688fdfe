/** What each catalog operation changes (local.go, local_multiplatform.go): it
    publishes an artifact, abandons what it pushed, removes a tag, prunes, or
    takes an archive in. */
module CatalogChanges {
  import opened Base
  import opened LocalTag
  import opened OciContent
  import opened CatalogStore
  import opened ArtifactBuilders
  import opened CatalogSearch
  import opened Archive

  datatype Op =
    | StoreContent(ref: Reference, content: seq<int>, bundle: seq<int>, annotations: Annotations, force: bool,
                   extra: seq<Layer>, createdAt: string)
    | StoreDedup(ref: Reference, solution: seq<int>, manifest: seq<int>, smallTar: seq<int>, files: seq<seq<int>>,
                 annotations: Annotations, force: bool, extra: seq<Layer>, createdAt: string)
    | StoreMultiPlatform(ref: Reference, pbs: seq<PlatformBinary>, annotations: Annotations, force: bool,
                         createdAt: string)
    | StoreInternal(builder: Option<ArtifactBuilder>, force: bool, descAnnotations: Annotations)
    | Delete(ref: Reference)
    | Prune
    | Load(archive: Contents, force: bool)

  datatype Change = Publish(pushes: seq<Layer>, root: Descriptor, tag: string) | Abandon(pushes: seq<Layer>)
                  | Untag(tag: string) | Sweep | Import(archive: Contents, ref: Reference, root: Descriptor)

  // The source dereferences the version of what it stores. The store accepts an
  // archive's blobs in no fixed order, so of an archive that it refuses in the
  // middle only that is said what the method's contract says.
  ghost predicate Callable(op: Op) {
    match op
    case StoreContent(ref, _, _, _, _, _, _) => ref.version.Some?
    case StoreDedup(ref, _, _, _, _, _, _, _, _) => ref.version.Some?
    case StoreMultiPlatform(ref, _, _, _, _) => ref.version.Some?
    case Load(archive, _) => ContentAddressed(archive.blobs)
    case _ => true
  }

  // The binaries before the first invalid platform.
  function ValidPrefix(pbs: seq<PlatformBinary>): seq<PlatformBinary> {
    if pbs == [] || !ValidPlatform(pbs[0].platform) then [] else [pbs[0]] + ValidPrefix(pbs[1..])
  }

  lemma {:induction false} ValidPrefixIs(pbs: seq<PlatformBinary>, k: nat)
    requires k <= |pbs| && (k < |pbs| ==> !ValidPlatform(pbs[k].platform))
    requires forall i | 0 <= i < k :: ValidPlatform(pbs[i].platform)
    ensures ValidPrefix(pbs) == pbs[..k]
  {
    if k > 0 {
      ValidPrefixIs(pbs[1..], k - 1);
      assert pbs[..k] == [pbs[0]] + pbs[1..][..k - 1];
    }
  }

  // The error storeInternalWith stops with.
  function InternalError(s: Store, builder: Option<ArtifactBuilder>, force: bool): Option<Error> {
    if builder.None? || !Taggable(BuilderRef(builder.value)) then Some(InvalidReference)
    else if !force && BuildLocalTag(BuilderRef(builder.value)) in s.tags
    then Some(AlreadyExists(BuildLocalTag(BuilderRef(builder.value))))
    else
      match Pushes(builder.value)
      case Err(e) => Some(e)
      case Ok(_) => None
  }

  // A write refused changes nothing; otherwise it publishes the artifact.
  ghost function StoreChange(s: Store, lib: Library, ref: Reference, force: bool, a: Artifact): Change
    requires a.layers != []
  {
    if Refused(s, lib, ref, force).Some? then Abandon([])
    else Publish(StorePushes(a), Root(a), BuildLocalTag(ref))
  }

  ghost function MultiChange(s: Store, lib: Library, ref: Reference, pbs: seq<PlatformBinary>, anns: Annotations,
                             force: bool, createdAt: string): Change
    requires ref.version.Some?
  {
    if pbs == [] || Refused(s, lib, ref, force).Some? then Abandon([])
    else if ValidPrefix(pbs) != pbs then Abandon(PlatformPushes(WriteRef(ref), anns, createdAt, ValidPrefix(pbs)))
    else Publish(MultiPushes(WriteRef(ref), anns, createdAt, pbs), MultiRoot(WriteRef(ref), anns, createdAt, pbs),
                 BuildLocalTag(ref))
  }

  ghost function InternalChange(s: Store, builder: Option<ArtifactBuilder>, force: bool,
                                descAnnotations: Annotations): Change {
    if InternalError(s, builder, force).Some? then Abandon([])
    else Publish(Pushes(builder.value).value.0, TaggedRoot(builder.value, descAnnotations),
                 BuildLocalTag(BuilderRef(builder.value)))
  }

  ghost function DeleteChange(s: Store, lib: Library, ref: Reference): Change {
    match Located(s, lib, ref)
    case Ok(tag) => Untag(tag)
    case Err(_) => Abandon([])
  }

  ghost function LoadChange(s: Store, lib: Library, archive: Contents, force: bool): Change {
    match Announced(lib, archive)
    case Err(_) => Abandon([])
    case Ok(pair) =>
      if !force && Exists(s, lib, pair.0) != Ok(false) then Abandon([]) else Import(archive, pair.0, pair.1)
  }

  // The artifact a Store or a StoreDedup writes.
  function WrittenArtifact(op: Op): (a: Artifact)
    requires Callable(op) && (op.StoreContent? || op.StoreDedup?)
    ensures a.layers != []
  {
    match op
    case StoreContent(ref, content, bundle, annotations, _, extra, createdAt) =>
      StoreArtifact(WriteRef(ref), content, bundle, annotations, extra, createdAt)
    case StoreDedup(ref, solution, manifest, smallTar, files, annotations, _, extra, createdAt) =>
      DedupArtifact(WriteRef(ref), solution, manifest, smallTar, files, annotations, extra, createdAt)
  }

  ghost function ChangeOf(s: Store, lib: Library, op: Op): Change
    requires Callable(op)
  {
    match op
    case StoreContent(ref, _, _, _, force, _, _) => StoreChange(s, lib, ref, force, WrittenArtifact(op))
    case StoreDedup(ref, _, _, _, _, _, force, _, _) => StoreChange(s, lib, ref, force, WrittenArtifact(op))
    case StoreMultiPlatform(ref, pbs, annotations, force, createdAt) =>
      MultiChange(s, lib, ref, pbs, Stamp(WriteRef(ref), createdAt, annotations), force, createdAt)
    case StoreInternal(builder, force, descAnnotations) => InternalChange(s, builder, force, descAnnotations)
    case Delete(ref) => DeleteChange(s, lib, ref)
    case Prune => Sweep
    case Load(archive, force) => LoadChange(s, lib, archive, force)
  }

  ghost function Apply(s: Store, c: Change): Store {
    match c
    case Publish(pushes, root, tag) => Published(s, pushes, root, tag)
    case Abandon(pushes) => PushedAll(s, pushes)
    case Untag(tag) => Untagged(s, tag)
    case Sweep => Pruned(s)
    case Import(archive, ref, root) =>
      // Tagging what is not stored fails; the archive's blobs stay.
      if root.digest in s.blobs || root.digest in archive.blobs then Loaded(s, archive, ref, root)
      else s.(blobs := s.blobs + archive.blobs)
  }

  // The store after an operation.
  ghost function Performed(s: Store, lib: Library, op: Op): Store
    requires Callable(op)
  {
    Apply(s, ChangeOf(s, lib, op))
  }

  // Apply and ChangeOf, case by case.
  lemma ApplyIs(s: Store, c: Change)
    ensures c.Publish? ==> Apply(s, c) == Published(s, c.pushes, c.root, c.tag)
    ensures c.Abandon? ==> Apply(s, c) == PushedAll(s, c.pushes)
    ensures c.Untag? ==> Apply(s, c) == Untagged(s, c.tag)
    ensures c.Sweep? ==> Apply(s, c) == Pruned(s)
    ensures c.Import? && (c.root.digest in s.blobs || c.root.digest in c.archive.blobs) ==>
              Apply(s, c) == Loaded(s, c.archive, c.ref, c.root)
  {
    hide Published, PushedAll, Untagged, Pruned, Loaded;
  }

  lemma PerformedIs(s: Store, lib: Library, op: Op)
    requires Callable(op)
    ensures Performed(s, lib, op) == Apply(s, ChangeOf(s, lib, op))
  {
    hide Apply, ChangeOf;
  }

  lemma ChangeIs(s: Store, lib: Library, op: Op)
    requires Callable(op)
    ensures op.StoreContent? ==> ChangeOf(s, lib, op) == StoreChange(s, lib, op.ref, op.force, WrittenArtifact(op))
    ensures op.StoreDedup? ==> ChangeOf(s, lib, op) == StoreChange(s, lib, op.ref, op.force, WrittenArtifact(op))
    ensures op.StoreMultiPlatform? ==>
              ChangeOf(s, lib, op)
              == MultiChange(s, lib, op.ref, op.pbs, Stamp(WriteRef(op.ref), op.createdAt, op.annotations), op.force,
                             op.createdAt)
    ensures op.StoreInternal? ==> ChangeOf(s, lib, op) == InternalChange(s, op.builder, op.force, op.descAnnotations)
    ensures op.Delete? ==> ChangeOf(s, lib, op) == DeleteChange(s, lib, op.ref)
    ensures op.Prune? ==> ChangeOf(s, lib, op) == Sweep
    ensures op.Load? ==> ChangeOf(s, lib, op) == LoadChange(s, lib, op.archive, op.force)
  {
    hide DeleteChange, LoadChange, StoreChange, MultiChange, InternalChange, WrittenArtifact, Stamp;
  }

  // What a Store or a StoreDedup leaves.
  lemma StorePerformed(s: Store, lib: Library, op: Op)
    requires Callable(op) && (op.StoreContent? || op.StoreDedup?)
    ensures Performed(s, lib, op)
            == if Refused(s, lib, op.ref, op.force).Some? then s
               else Published(s, StorePushes(WrittenArtifact(op)), Root(WrittenArtifact(op)), BuildLocalTag(op.ref))
  {
    ChangeIs(s, lib, op);
    PerformedIs(s, lib, op);
    ApplyIs(s, ChangeOf(s, lib, op));
    hide ChangeOf, Apply, Performed, WrittenArtifact, Refused, StorePushes, Root, BuildLocalTag, Published;
    assert PushedAll(s, []) == s;
  }

  // What a Delete leaves.
  lemma DeletePerformed(s: Store, lib: Library, ref: Reference)
    ensures Performed(s, lib, Op.Delete(ref))
            == match Located(s, lib, ref) case Ok(tag) => Untagged(s, tag) case Err(_) => s
  {
    ChangeIs(s, lib, Op.Delete(ref));
    PerformedIs(s, lib, Op.Delete(ref));
    ApplyIs(s, DeleteChange(s, lib, ref));
    hide ChangeOf, Apply, Performed, Located, Untagged;
    assert PushedAll(s, []) == s;
  }

  lemma PrunePerformed(s: Store, lib: Library)
    ensures Performed(s, lib, Op.Prune) == Pruned(s)
  {
    ChangeIs(s, lib, Op.Prune);
    PerformedIs(s, lib, Op.Prune);
    ApplyIs(s, Sweep);
    hide *;
  }
}
