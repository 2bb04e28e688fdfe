/** Saving an artifact to an OCI layout archive and loading it back (local.go:
    Save, Load; oci_tar.go), on the catalog's state. */
module Archive {
  import opened Base
  import opened LocalTag
  import opened OciContent
  import opened CatalogStore
  import opened ArtifactBuilders
  import opened CatalogSearch
  import L = ArtifactLookup

  // A tar entry, by the file it is.
  datatype Entry = LayoutFile(version: string) | IndexFile(manifests: seq<Descriptor>)
                 | BlobFile(digest: Digest, data: Content) | OtherFile

  // What a reader holds; a later file of one name replaces an earlier one.
  datatype Contents = Contents(layout: Option<string>, index: Option<seq<Descriptor>>, blobs: Blobs)

  const LayoutVersion := "1.0.0"

  function ReadEntry(c: Contents, e: Entry): Contents {
    match e
    case LayoutFile(version) => c.(layout := Some(version))
    case IndexFile(manifests) => c.(index := Some(manifests))
    case BlobFile(digest, data) => c.(blobs := c.blobs[digest := data])
    case OtherFile => c
  }

  function Read(entries: seq<Entry>): Contents {
    if entries == [] then Contents(None, None, map[])
    else ReadEntry(Read(entries[..|entries| - 1]), entries[|entries| - 1])
  }

  lemma ReadAppend(entries: seq<Entry>, e: Entry)
    ensures Read(entries + [e]) == ReadEntry(Read(entries), e)
  {
    assert (entries + [e])[..|entries|] == entries;
  }

  // ---------------------------------------------------------------------
  // Save and Load, as functions of the state

  // The archive of the artifact a lookup resolved to.
  ghost function Saved(s: Store, info: ArtifactInfo): Result<Contents, Error> {
    var tag := BuildLocalTag(info.ref);
    if tag !in s.tags then Err(NotFound)
    else
      var desc := s.tags[tag];
      Ok(Contents(Some(LayoutVersion), Some([desc.(annotations := info.annotations, platform := "")]),
                  Kept(s.blobs, Exported(desc))))
  }

  // The artifact Save resolves a name and a version text to: of the solutions of
  // that name, from any origin.
  ghost function Resolved(s: Store, lib: Library, name: string, version: string, preReleases: bool,
                          listing: seq<string>,
                          sort: seq<L.Info> -> seq<L.Info>): Result<ArtifactInfo, Error>
  {
    if version != "" && Canonical(lib, version).None? then Err(InvalidVersion)
    else
      match L.Find(SaveQuery(lib, name, version), false, preReleases, Scan(s, lib, listing), sort)
      case Err(e) => Err(FromFind(e))
      case Ok(found) => if found.tag in s.tags then InfoForTag(s, lib, found.tag) else Err(NotFound)
  }

  function SaveQuery(lib: Library, name: string, version: string): L.Query {
    QueryFromRef(lib, Reference(KindSolution, name,
                                if version == "" then None else Canonical(lib, version), "", "", false))
  }

  function FromFind(e: L.FindError): Error {
    match e
    case InvalidQuery => InvalidQuery
    case NotFound => NotFound
    case Ambiguous => Ambiguous
    case Unavailable => NotFound
  }

  // What Save resolves to is stored; without a version it is, among the stored
  // solutions of the name (the stable ones if there are any, and none other were
  // asked for), one of highest precedence, and they all share one origin.
  lemma ResolvedIsLatest(s: Store, lib: Library, name: string, version: string, preReleases: bool, listing: seq<string>,
                         sort: seq<L.Info> -> seq<L.Info>)
    requires Elems(listing) == s.tags.Keys && L.Sorts(sort)
             && Resolved(s, lib, name, version, preReleases, listing, sort).Ok?
    ensures var q := SaveQuery(lib, name, version);
      var info := Resolved(s, lib, name, version, preReleases, listing, sort).value;
      exists tag :: MatchesTag(s, lib, q, tag) && InfoForTag(s, lib, tag) == Ok(info)
                    && (version == "" ==> HighestStored(s, lib, q, preReleases, tag))
  {
    var q := SaveQuery(lib, name, version);
    var all := Scan(s, lib, listing);
    var found := L.Find(q, false, preReleases, all, sort).value;
    L.FoundMatches(q, false, preReleases, all, sort);
    ScanElems(s, lib, listing);
    hide L.Find, Scan, InfoForTag, L.Matches;
    assert MatchesTag(s, lib, q, found.tag);
    if version == "" {
      L.FindValid(q, false, preReleases, all, sort);
      L.LatestIsHighest(q, preReleases, all, sort);
      LatestAmongStored(s, lib, q, preReleases, listing, found);
    }
  }

  // tag's artifact can be chosen, and no other that can be is newer.
  ghost predicate HighestStored(s: Store, lib: Library, q: L.Query, preReleases: bool, tag: string) {
    && CanBeChosen(s, lib, q, preReleases, tag)
    && (forall t | CanBeChosen(s, lib, q, preReleases, t) :: !L.Newer(StoredInfo(s, lib, t), StoredInfo(s, lib, tag)))
    && forall t | MatchesTag(s, lib, q, t) :: StoredInfo(s, lib, t).remote == StoredInfo(s, lib, tag).remote
  }

  function StoredInfo(s: Store, lib: Library, tag: string): L.Info
    requires tag in s.tags && InfoForTag(s, lib, tag).Ok?
  {
    Candidate(lib, tag, InfoForTag(s, lib, tag).value)
  }

  ghost predicate CanBeChosen(s: Store, lib: Library, q: L.Query, preReleases: bool, tag: string) {
    && MatchesTag(s, lib, q, tag)
    && (preReleases || L.Stable(StoredInfo(s, lib, tag))
        || forall t | MatchesTag(s, lib, q, t) :: !L.Stable(StoredInfo(s, lib, t)))
  }

  lemma LatestAmongStored(s: Store, lib: Library, q: L.Query, preReleases: bool, listing: seq<string>, found: L.Info)
    requires Elems(listing) == s.tags.Keys
    requires L.Eligible(q, preReleases, Scan(s, lib, listing), found)
    requires forall a | L.Eligible(q, preReleases, Scan(s, lib, listing), a) :: !L.Newer(a, found)
    requires forall a, b | a in Scan(s, lib, listing) && b in Scan(s, lib, listing)
               && L.Matches(q, a) && L.Matches(q, b) ::
               a.remote == b.remote
    ensures HighestStored(s, lib, q, preReleases, found.tag)
  {
    var all := Scan(s, lib, listing);
    ScanElems(s, lib, listing);
    hide Scan, InfoForTag, L.Matches, L.Newer, L.Stable;
    assert MatchesTag(s, lib, q, found.tag) && StoredInfo(s, lib, found.tag) == found;
    forall t | MatchesTag(s, lib, q, t)
      ensures StoredInfo(s, lib, t) in all && StoredInfo(s, lib, t).remote == found.remote
    {
      assert t in Elems(listing);
    }
    forall t | CanBeChosen(s, lib, q, preReleases, t) ensures L.Eligible(q, preReleases, all, StoredInfo(s, lib, t)) {
      assert StoredInfo(s, lib, t) in all;
      forall b | b in all && L.Matches(q, b) && !(preReleases || L.Stable(StoredInfo(s, lib, t))) ensures !L.Stable(b) {
        assert MatchesTag(s, lib, q, b.tag) && StoredInfo(s, lib, b.tag) == b;
      }
    }
    forall t | MatchesTag(s, lib, q, t) && !(preReleases || L.Stable(found)) ensures !L.Stable(StoredInfo(s, lib, t)) {
      assert StoredInfo(s, lib, t) in all;
    }
  }

  // The reference an archive announces, if it can be loaded at all.
  function Announced(lib: Library, c: Contents): Result<(Reference, Descriptor), Error> {
    if c.layout != Some(LayoutVersion) || c.index.None? || c.index.value == [] then Err(InvalidArchive)
    else
      var desc := c.index.value[0];
      match RefFromAnnotations(lib, desc.annotations)
      case Err(e) => Err(e)
      case Ok(ref) => Ok((ref, desc))
  }

  ghost function Loaded(s: Store, c: Contents, ref: Reference, desc: Descriptor): Store {
    Tagged(s.(blobs := s.blobs + c.blobs), desc, BuildLocalTag(ref))
  }

  // Loading keeps the catalog valid exactly when the archive brings, or the
  // catalog has, everything the artifact reaches.
  lemma LoadExact(s: Store, c: Contents, ref: Reference, desc: Descriptor)
    requires Valid(s) && ContentAddressed(c.blobs) && desc.digest in s.blobs.Keys + c.blobs.Keys
    ensures Valid(Loaded(s, c, ref, desc)) <==> Complete(s.blobs + c.blobs, desc) && Proper(desc)
  {
    var mid := s.(blobs := s.blobs + c.blobs);
    var s' := Loaded(s, c, ref, desc);
    MoreBlobsValid(s, c.blobs);
    if Complete(mid.blobs, desc) && Proper(desc) { TagKeeps(mid, desc, BuildLocalTag(ref)); }
    hide Closure, Proper;
    assert BuildLocalTag(ref) in s'.tags && s'.tags[BuildLocalTag(ref)] == desc;
  }

  lemma MoreBlobsValid(s: Store, more: Blobs)
    requires Valid(s) && ContentAddressed(more)
    ensures Valid(s.(blobs := s.blobs + more))
  {
    hide Closure, Proper;
    var s' := s.(blobs := s.blobs + more);
    forall t | t in s'.tags ensures Complete(s'.blobs, s'.tags[t]) { assert Complete(s.blobs, s.tags[t]); }
  }

  // Saving an artifact and loading the archive into an empty catalog gives the
  // same reference, the same root digest, and exactly the blobs the artifact
  // reaches, each with the same content.
  lemma SaveLoad(s: Store, lib: Library, found: string)
    requires Valid(s) && found in s.tags && InfoForTag(s, lib, found).Ok?
    requires Saved(s, InfoForTag(s, lib, found).value).Ok?
    ensures var info := InfoForTag(s, lib, found).value;
      var c := Saved(s, info).value;
      var root := s.tags[BuildLocalTag(info.ref)];
      && Announced(lib, c).Ok? && Announced(lib, c).value.0 == info.ref
      && Announced(lib, c).value.1.digest == root.digest
      && (var s' := Loaded(Empty(), c, info.ref, Announced(lib, c).value.1);
          && Valid(s') && s'.tags.Keys == {BuildLocalTag(info.ref)}
          && s'.blobs.Keys == Closure(root)
          && forall d | d in s'.blobs :: d in s.blobs && s'.blobs[d] == s.blobs[d])
  {
    var info := InfoForTag(s, lib, found).value;
    var c := Saved(s, info).value;
    var tag := BuildLocalTag(info.ref);
    var root := s.tags[tag];
    AnnouncedIsInfo(s, lib, found);
    SavedBlobs(s, info);
    hide InfoForTag, Announced, RefFromAnnotations, BuildLocalTag, Closure, Proper, Valid, Saved;
    LoadSaved(s, c, info.ref, root, root.(annotations := info.annotations, platform := ""));
  }

  // An archive saved holds the closure of its artifact, and nothing else.
  lemma SavedBlobs(s: Store, info: ArtifactInfo)
    requires Valid(s) && Saved(s, info).Ok?
    ensures var root := s.tags[BuildLocalTag(info.ref)]; var c := Saved(s, info).value;
      && BuildLocalTag(info.ref) in s.tags && Proper(root) && c.blobs.Keys == Closure(root)
      && forall d | d in c.blobs :: d in s.blobs && c.blobs[d] == s.blobs[d] == d.content
  {
    var root := s.tags[BuildLocalTag(info.ref)];
    assert Complete(s.blobs, root) && Proper(root) && ContentAddressed(s.blobs);
    ExportIsClosure(root);
    hide Closure, Proper, Exported, Valid, BuildLocalTag;
  }

  lemma LoadSaved(s: Store, c: Contents, ref: Reference, root: Descriptor, desc: Descriptor)
    requires Proper(root) && desc == root.(annotations := desc.annotations, platform := "")
    requires c.blobs.Keys == Closure(root)
    requires forall d | d in c.blobs :: d in s.blobs && c.blobs[d] == s.blobs[d] == d.content
    ensures var s' := Loaded(Empty(), c, ref, desc);
      && Valid(s') && s'.tags.Keys == {BuildLocalTag(ref)} && s'.blobs.Keys == Closure(root)
      && forall d | d in s'.blobs :: d in s.blobs && s'.blobs[d] == s.blobs[d]
  {
    ClosureOfDigest(root, desc.annotations, "");
    assert Valid(Empty()) && Empty().blobs + c.blobs == c.blobs;
    hide Closure, Proper, BuildLocalTag, Valid;
    LoadExact(Empty(), c, ref, desc);
  }

  lemma AnnouncedIsInfo(s: Store, lib: Library, found: string)
    requires found in s.tags && InfoForTag(s, lib, found).Ok? && Saved(s, InfoForTag(s, lib, found).value).Ok?
    ensures var info := InfoForTag(s, lib, found).value;
      Announced(lib, Saved(s, info).value)
      == Ok((info.ref, s.tags[BuildLocalTag(info.ref)].(annotations := info.annotations, platform := "")))
  {
  }

  // Saving again what was loaded gives the same archive, when the artifact is
  // stored under the tag its annotations name.
  lemma SaveLoadSave(s: Store, lib: Library, tag: string)
    requires Valid(s) && tag in s.tags && InfoForTag(s, lib, tag).Ok?
    requires BuildLocalTag(InfoForTag(s, lib, tag).value.ref) == tag
    ensures var info := InfoForTag(s, lib, tag).value;
      && Saved(s, info).Ok? && Announced(lib, Saved(s, info).value).Ok?
      && (var s' := Loaded(Empty(), Saved(s, info).value, info.ref, Announced(lib, Saved(s, info).value).value.1);
          && tag in s'.tags && InfoForTag(s', lib, tag) == Ok(info) && Saved(s', info) == Saved(s, info))
  {
    var info := InfoForTag(s, lib, tag).value;
    var root := s.tags[tag];
    var desc := root.(annotations := info.annotations, platform := "");
    AnnouncedIsInfo(s, lib, tag);
    assert Complete(s.blobs, root) && Proper(root) && ContentAddressed(s.blobs);
    ExportIsClosure(root);
    ClosureOfDigest(root, info.annotations, "");
    ExportIsClosure(desc);
    hide Closure, Proper, Exported, Announced, Valid;
    LoadedSame(s, lib, tag, desc);
  }

  lemma LoadedSame(s: Store, lib: Library, tag: string, desc: Descriptor)
    requires tag in s.tags && InfoForTag(s, lib, tag).Ok?
    requires desc == s.tags[tag].(annotations := InfoForTag(s, lib, tag).value.annotations, platform := "")
    requires s.tags[tag].digest in Exported(s.tags[tag]) && Exported(desc) == Exported(s.tags[tag])
    requires BuildLocalTag(InfoForTag(s, lib, tag).value.ref) == tag
    ensures var info := InfoForTag(s, lib, tag).value;
      && Saved(s, info).Ok?
      && (var s' := Loaded(Empty(), Saved(s, info).value, info.ref, desc);
          && tag in s'.tags && InfoForTag(s', lib, tag) == Ok(info) && Saved(s', info) == Saved(s, info))
  {
    hide Exported, BuildLocalTag, RefFromAnnotations, BlobAnnotations;
    var info := InfoForTag(s, lib, tag).value;
    var root := s.tags[tag];
    var c := Saved(s, info).value;
    var s' := Loaded(Empty(), c, info.ref, desc);
    assert s'.tags[tag] == desc && s'.blobs == c.blobs == Kept(s.blobs, Exported(root));
    assert root.digest in s'.blobs && s'.blobs[root.digest] == s.blobs[root.digest];
    assert Kept(s'.blobs, Exported(desc)) == c.blobs;
    var anns := BlobAnnotations(s.blobs[root.digest]).value;
    assert anns + (anns + root.annotations) == anns + root.annotations;
  }

  // The reference of an artifact whose annotations were stamped for its tag, as
  // storeInternalWith does, is the reference it was stored under.
  lemma ProvenanceReadsBack(lib: Library, ref: Reference, anns: Annotations)
    requires ref.name != "" && ref.version.Some? && ref.version.value != ""
    requires Canonical(lib, ref.version.value) == ref.version
    ensures RefFromAnnotations(lib, LocalProvenance(ref, anns)).Ok?
    ensures var back := RefFromAnnotations(lib, LocalProvenance(ref, anns)).value;
      back == ref.(digest := "", built := ref.remote == "") && BuildLocalTag(back) == BuildLocalTag(ref)
  {
    DistinctKeys();
    assert LocalProvenance(ref, anns).Keys >= {AnnotationArtifactType, AnnotationArtifactName, AnnotationVersion};
  }
}
