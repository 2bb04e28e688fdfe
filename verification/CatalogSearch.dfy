/** Finding stored artifacts by what their annotations say (local.go: existsLocked,
    infoForTag, refFromAnnotations, scanByAnnotation, locateForDelete;
    local_tag.go: queryFromRef). */
module CatalogSearch {
  import opened Base
  import Semver
  import opened LocalTag
  import opened OciContent
  import opened CatalogStore
  import opened ArtifactBuilders
  import L = ArtifactLookup

  // The version library's parser and printer, the reading of a version selector
  // other than "" and "latest", and the text of a digest.
  datatype Library = Library(parse: string -> Option<Semver.Version>, text: Semver.Version -> string,
                             select: string -> L.Selector, digestText: Digest -> string)

  datatype ArtifactInfo = ArtifactInfo(ref: Reference, digest: Digest, annotations: Annotations)

  function Canonical(lib: Library, version: string): Option<string> {
    match lib.parse(version)
    case None => None
    case Some(v) => Some(lib.text(v))
  }

  function RefFromAnnotations(lib: Library, anns: Annotations): Result<Reference, Error> {
    var kind, name, version, remote := Value(anns, AnnotationArtifactType), Value(anns, AnnotationArtifactName),
                                       Value(anns, AnnotationVersion), Value(anns, AnnotationSourceCanonical);
    if name == "" then Err(InvalidReference)
    else if version == "" then Ok(Reference(kind, name, None, "", remote, remote == ""))
    else
      match Canonical(lib, version)
      case None => Err(InvalidReference)
      case Some(v) => Ok(Reference(kind, name, Some(v), "", remote, remote == ""))
  }

  // The "annotations" of a blob decoded as a manifest; None if it is no JSON.
  function BlobAnnotations(content: Content): Option<Annotations> {
    match content
    case Raw(_) => None
    case Config(_, _, _, _, _, anns) => Some(anns)
    case Manifest(_, _, anns) => Some(anns)
    case Index(_, anns) => Some(anns)
  }

  // The descriptor's annotations take precedence.
  function InfoForTag(s: Store, lib: Library, tag: string): Result<ArtifactInfo, Error>
    requires tag in s.tags
  {
    var desc := s.tags[tag];
    if desc.digest !in s.blobs then Err(MissingBlob)
    else
      match BlobAnnotations(s.blobs[desc.digest])
      case None => Err(InvalidReference)
      case Some(anns) =>
        var merged := anns + desc.annotations;
        match RefFromAnnotations(lib, merged)
        case Err(e) => Err(e)
        case Ok(ref) => Ok(ArtifactInfo(ref, desc.digest, merged))
  }

  // What a query is matched against.
  function Candidate(lib: Library, tag: string, info: ArtifactInfo): L.Info {
    var version := Value(info.annotations, AnnotationVersion);
    L.Info(info.ref.name, info.ref.kind, if version == "" then None else lib.parse(version),
           lib.digestText(info.digest), info.ref.remote, tag)
  }

  function Selected(lib: Library, version: string): L.Selector {
    if version == "" || version == "latest" then L.Open else lib.select(version)
  }

  function QueryFromRef(lib: Library, ref: Reference): L.Query {
    L.Query(ref.name, ref.kind, if ref.version.Some? then Selected(lib, ref.version.value) else L.Open, ref.digest,
            if ref.remote != "" then L.RemoteSource(ref.remote) else if ref.built then L.BuiltSource else L.AnySource)
  }

  predicate MatchesTag(s: Store, lib: Library, q: L.Query, tag: string) {
    tag in s.tags && InfoForTag(s, lib, tag).Ok? && L.Matches(q, Candidate(lib, tag, InfoForTag(s, lib, tag).value))
  }

  // The tags whose artifacts match.
  function SearchTags(s: Store, lib: Library, q: L.Query): set<string> {
    set t | t in s.tags && MatchesTag(s, lib, q, t)
  }

  // The artifacts a lookup sees, in listing order.
  function Scan(s: Store, lib: Library, listing: seq<string>): seq<L.Info> {
    if listing == [] then []
    else
      var t := listing[|listing| - 1];
      Scan(s, lib, listing[..|listing| - 1])
      + (if t in s.tags && InfoForTag(s, lib, t).Ok? then [Candidate(lib, t, InfoForTag(s, lib, t).value)] else [])
  }

  lemma {:induction false} ScanElems(s: Store, lib: Library, listing: seq<string>)
    ensures forall a :: a in Scan(s, lib, listing) <==>
              a.tag in listing && a.tag in s.tags && InfoForTag(s, lib, a.tag).Ok?
              && a == Candidate(lib, a.tag, InfoForTag(s, lib, a.tag).value)
  {
    if listing != [] {
      var init, t := listing[..|listing| - 1], listing[|listing| - 1];
      ScanElems(s, lib, init);
      assert listing == init + [t];
      forall info ensures Candidate(lib, t, info).tag == t { CandidateTag(lib, t, info); }
      hide InfoForTag, Candidate;
    }
  }

  lemma CandidateTag(lib: Library, tag: string, info: ArtifactInfo)
    ensures Candidate(lib, tag, info).tag == tag
  {
  }

  // A lookup over any listing of all tags considers exactly the tags a search
  // finds.
  lemma ScanIsSearch(s: Store, lib: Library, q: L.Query, listing: seq<string>)
    requires Elems(listing) == s.tags.Keys
    ensures forall t :: t in SearchTags(s, lib, q) <==>
              exists a :: a in Scan(s, lib, listing) && L.Matches(q, a) && a.tag == t
  {
    ScanElems(s, lib, listing);
    hide InfoForTag, L.Matches;
    forall t | t in SearchTags(s, lib, q)
      ensures exists a :: a in Scan(s, lib, listing) && L.Matches(q, a) && a.tag == t
    {
      assert t in Elems(listing);
      assert Candidate(lib, t, InfoForTag(s, lib, t).value) in Scan(s, lib, listing);
    }
  }

  // existsLocked
  function Exists(s: Store, lib: Library, ref: Reference): Result<bool, Error> {
    if HasFullIdentity(ref) then Ok(BuildLocalTag(ref) in s.tags)
    else if !L.ValidQuery(QueryFromRef(lib, ref)) then Err(InvalidQuery)
    else Ok(SearchTags(s, lib, QueryFromRef(lib, ref)) != {})
  }

  // The error a write stops with before it pushes anything.
  function Refused(s: Store, lib: Library, ref: Reference, force: bool): Option<Error> {
    if force then None
    else
      match Exists(s, lib, WriteRef(ref))
      case Err(e) => Some(e)
      case Ok(found) => if found then Some(AlreadyExists(BuildLocalTag(ref))) else None
  }

  // locateForDelete: the one tag a reference designates.
  ghost function Located(s: Store, lib: Library, ref: Reference): Result<string, Error> {
    if HasFullIdentity(ref) then
      if BuildLocalTag(ref) in s.tags then Ok(BuildLocalTag(ref)) else Err(NotFound)
    else if !L.ValidQuery(QueryFromRef(lib, ref)) then Err(InvalidQuery)
    else OnlyOne(SearchTags(s, lib, QueryFromRef(lib, ref)))
  }

  ghost function OnlyOne(tags: set<string>): (r: Result<string, Error>)
    ensures r.Ok? ==> tags == {r.value}
    ensures r.Ok? <==> |tags| == 1
  {
    if |tags| == 0 then Err(NotFound)
    else if |tags| == 1 then
      var t :| t in tags;
      assert |tags - {t}| == 0;
      assert tags == {t};
      Ok(t)
    else Err(Ambiguous)
  }

  // A reference whose identity is complete designates its own tag or nothing;
  // any other one a tag whose annotations match it, and no other tag's do.
  lemma LocatedMatches(s: Store, lib: Library, ref: Reference)
    requires Located(s, lib, ref).Ok?
    ensures Located(s, lib, ref).value in s.tags
    ensures HasFullIdentity(ref) ==> Located(s, lib, ref).value == BuildLocalTag(ref)
    ensures !HasFullIdentity(ref) ==>
              forall t :: MatchesTag(s, lib, QueryFromRef(lib, ref), t) <==> t == Located(s, lib, ref).value
  {
    var q := QueryFromRef(lib, ref);
    hide MatchesTag, HasFullIdentity, QueryFromRef;
    if !HasFullIdentity(ref) {
      forall t ensures MatchesTag(s, lib, q, t) <==> t in SearchTags(s, lib, q) { MatchesInTags(s, lib, q, t); }
    }
  }

  lemma MatchesInTags(s: Store, lib: Library, q: L.Query, t: string)
    ensures MatchesTag(s, lib, q, t) <==> t in SearchTags(s, lib, q)
  {
  }
}
