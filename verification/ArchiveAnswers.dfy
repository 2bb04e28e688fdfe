/** Which artifact Save takes out of the catalog and which reference Load puts one
    under, on the annotations (local.go: Save, Load, refFromAnnotations). */
module ArchiveAnswers {
  import opened Base
  import opened OciContent
  import opened CatalogStore
  import opened LocalTag
  import opened ArtifactBuilders
  import opened CatalogSearch
  import opened Archive
  import opened ArtifactAnswers
  import opened CatalogAnswers
  import L = ArtifactLookup

  // ---------------------------------------------------------------------
  // Save

  // Annotations an artifact can be listed by.
  ghost predicate Readable(lib: Library, anns: Annotations) {
    var version := Value(anns, "org.opencontainers.image.version");
    Value(anns, "dev.scafctl.artifact.name") != "" && (version == "" || lib.parse(version).Some?)
  }

  // What a lookup is told of an artifact known by anns.
  ghost function Listed(s: Store, lib: Library, tag: string, anns: Annotations): L.Info
    requires tag in s.tags
  {
    var version := Value(anns, "org.opencontainers.image.version");
    L.Info(Value(anns, "dev.scafctl.artifact.name"), Value(anns, "dev.scafctl.artifact.type"),
           if version == "" then None else lib.parse(version), lib.digestText(s.tags[tag].digest),
           Value(anns, "dev.scafctl.source.canonical"), tag)
  }

  ghost predicate IsListed(s: Store, lib: Library, a: L.Info, anns: Annotations) {
    KnownBy(s, a.tag, anns) && Readable(lib, anns) && a == Listed(s, lib, a.tag, anns)
  }

  // The solutions of a name, of a version or of any.
  ghost function Asked(lib: Library, name: string, version: string): Reference {
    Reference("solution", name, if version == "" then None else Canonical(lib, version), "", "", false)
  }

  // a is the artifact stored under its tag, and the reference fits it.
  ghost predicate Stored(s: Store, lib: Library, ref: Reference, a: L.Info) {
    exists anns :: IsListed(s, lib, a, anns) && Named(lib, ref, anns, s.tags[a.tag].digest)
  }

  lemma ScanAnswers(s: Store, lib: Library, ref: Reference, listing: seq<string>, a: L.Info)
    requires Elems(listing) == s.tags.Keys && ref.name != ""
    ensures a in Scan(s, lib, listing) && Fits(QueryFromRef(lib, ref), a) <==> Stored(s, lib, ref, a)
  {
    ScanElems(s, lib, listing);
    assert a.tag in listing <==> a.tag in Elems(listing);
    if a.tag in s.tags {
      InfoIs(s, lib, a.tag);
      NamedNeeds(lib, ref, s, a.tag);
      if InfoForTag(s, lib, a.tag).Ok? {
        CandidateFits(lib, ref, a.tag, InfoForTag(s, lib, a.tag).value);
        ListedIs(s, lib, a.tag);
      }
      hide InfoForTag, Scan, Fits, Candidate, QueryFromRef, KnownBy, Named, Listed;
    }
  }

  lemma ListedIs(s: Store, lib: Library, tag: string)
    requires tag in s.tags && InfoForTag(s, lib, tag).Ok?
    ensures var info := InfoForTag(s, lib, tag).value;
      Candidate(lib, tag, info) == Listed(s, lib, tag, info.annotations)
  {
  }

  // What may be saved when no version is given: a pre-release only if it was
  // asked for, or nothing else is stored.
  ghost predicate MaySave(s: Store, lib: Library, ref: Reference, preReleases: bool, a: L.Info) {
    && Stored(s, lib, ref, a)
    && (preReleases || !PreRelease(a) || forall b | Stored(s, lib, ref, b) :: PreRelease(b))
  }

  // The artifact info stands for a, and its reference reads a's annotations.
  ghost predicate Describes(s: Store, lib: Library, info: ArtifactInfo, a: L.Info) {
    var version := Value(info.annotations, "org.opencontainers.image.version");
    && IsListed(s, lib, a, info.annotations) && info.digest == s.tags[a.tag].digest
    && info.ref == Reference(a.kind, a.name, if version == "" then None else Canonical(lib, version), "", a.remote,
                             a.remote == "")
  }

  // Which solution Save takes, in every case: a version must be one and the
  // query well formed; nothing is found exactly if nothing stored fits, and the
  // answer is ambiguous exactly if what fits came from different origins; what is
  // taken fits, and without a version nothing that may be saved is above it.
  lemma ResolvedExactly(s: Store, lib: Library, name: string, version: string, preReleases: bool,
                        listing: seq<string>, sort: seq<L.Info> -> seq<L.Info>)
    requires Elems(listing) == s.tags.Keys && L.Sorts(sort)
    ensures var r, ref := Resolved(s, lib, name, version, preReleases, listing, sort), Asked(lib, name, version);
      && (r == Err(InvalidVersion) <==> version != "" && lib.parse(version).None?)
      && (r != Err(InvalidVersion) ==>
            && (r == Err(InvalidQuery) <==> !Searchable(lib, ref))
            && (Searchable(lib, ref) ==>
                  && (r == Err(NotFound) <==> forall a :: !Stored(s, lib, ref, a))
                  && (r == Err(Ambiguous) <==>
                        exists a, b :: Stored(s, lib, ref, a) && Stored(s, lib, ref, b) && a.remote != b.remote)
                  && (r.Err? ==> r.error == NotFound || r.error == Ambiguous)))
      && (r.Ok? ==>
            exists a :: Stored(s, lib, ref, a) && Describes(s, lib, r.value, a)
                        && (version == "" ==>
                              MaySave(s, lib, ref, preReleases, a)
                              && forall b | MaySave(s, lib, ref, preReleases, b) :: NotAbove(b, a)))
  {
    if version == "" || lib.parse(version).Some? {
      ResolvedIs(s, lib, name, version, preReleases, listing, sort);
      FoundCases(s, lib, name, version, preReleases, listing, sort);
      if name != "" { FoundStored(s, lib, name, version, preReleases, listing, sort); }
    }
    hide Scan, QueryFromRef, Searchable, Stored, Describes, MaySave, NotAbove, L.Find, InfoForTag, Asked;
  }

  lemma ResolvedIs(s: Store, lib: Library, name: string, version: string, preReleases: bool, listing: seq<string>,
                   sort: seq<L.Info> -> seq<L.Info>)
    requires version == "" || lib.parse(version).Some?
    ensures Resolved(s, lib, name, version, preReleases, listing, sort)
            == match L.Find(QueryFromRef(lib, Asked(lib, name, version)), false, preReleases, Scan(s, lib, listing),
                            sort)
               case Err(e) => Err(FromFind(e))
               case Ok(found) => if found.tag in s.tags then InfoForTag(s, lib, found.tag) else Err(NotFound)
  {
    hide Scan, L.Find, InfoForTag, FromFind;
    assert QueryFromRef(lib, Asked(lib, name, version)) == SaveQuery(lib, name, version);
  }

  lemma FoundCases(s: Store, lib: Library, name: string, version: string, preReleases: bool, listing: seq<string>,
                   sort: seq<L.Info> -> seq<L.Info>)
    requires Elems(listing) == s.tags.Keys && L.Sorts(sort)
    ensures var ref := Asked(lib, name, version);
      var f := L.Find(QueryFromRef(lib, ref), false, preReleases, Scan(s, lib, listing), sort);
      && (f == Err(L.InvalidQuery) <==> !Searchable(lib, ref))
      && (Searchable(lib, ref) ==>
            && name != "" && (f == Err(L.NotFound) <==> forall a :: !Stored(s, lib, ref, a))
            && (f == Err(L.Ambiguous) <==>
                  exists a, b :: Stored(s, lib, ref, a) && Stored(s, lib, ref, b) && a.remote != b.remote)
            && (f.Err? ==> f.error == L.NotFound || f.error == L.Ambiguous))
  {
    var ref := Asked(lib, name, version);
    var q, all := QueryFromRef(lib, ref), Scan(s, lib, listing);
    assert q.source == L.AnySource && ref.name == name;
    SearchableIs(lib, ref);
    WellAskedIs(q);
    FindExactly(q, false, preReleases, all, sort);
    assert Searchable(lib, ref) ==> name != "";
    hide *;
    if name != "" {
      forall a ensures a in all && Fits(q, a) <==> Stored(s, lib, ref, a) { ScanAnswers(s, lib, ref, listing, a); }
    }
  }

  lemma FoundStored(s: Store, lib: Library, name: string, version: string, preReleases: bool, listing: seq<string>,
                    sort: seq<L.Info> -> seq<L.Info>)
    requires Elems(listing) == s.tags.Keys && L.Sorts(sort) && name != ""
    ensures var ref := Asked(lib, name, version); var q := QueryFromRef(lib, ref);
      var f := L.Find(q, false, preReleases, Scan(s, lib, listing), sort);
      f.Ok? ==>
        && f.value.tag in s.tags && InfoForTag(s, lib, f.value.tag).Ok?
        && Stored(s, lib, ref, f.value) && Describes(s, lib, InfoForTag(s, lib, f.value.tag).value, f.value)
        && (version == "" ==>
              MaySave(s, lib, ref, preReleases, f.value)
              && forall b | MaySave(s, lib, ref, preReleases, b) :: NotAbove(b, f.value))
  {
    var ref := Asked(lib, name, version);
    var q, all := QueryFromRef(lib, ref), Scan(s, lib, listing);
    var f := L.Find(q, false, preReleases, all, sort);
    assert version == "" ==> q.selector == L.Open && q.digest == "";
    FindExactly(q, false, preReleases, all, sort);
    if f.Ok? {
      ScanElems(s, lib, listing);
      hide Scan, QueryFromRef, L.Find, NotAbove, InfoForTag, Candidate, Stored, Describes, Fits;
      DescribesIs(s, lib, f.value.tag);
      forall a ensures a in all && Fits(q, a) <==> Stored(s, lib, ref, a) { ScanAnswers(s, lib, ref, listing, a); }
    }
  }

  lemma DescribesIs(s: Store, lib: Library, tag: string)
    requires tag in s.tags && InfoForTag(s, lib, tag).Ok?
    ensures var info := InfoForTag(s, lib, tag).value; Describes(s, lib, info, Candidate(lib, tag, info))
  {
  }

  // ---------------------------------------------------------------------
  // Load

  // The archive announces desc under ref: its layout is version 1.0.0, desc is
  // the first manifest of its index, and ref what its annotations say.
  ghost predicate Announces(lib: Library, c: Contents, ref: Reference, desc: Descriptor) {
    var version := Value(desc.annotations, "org.opencontainers.image.version");
    && c.layout == Some("1.0.0") && c.index.Some? && |c.index.value| > 0 && desc == c.index.value[0]
    && Readable(lib, desc.annotations)
    && ref.name == Value(desc.annotations, "dev.scafctl.artifact.name")
    && ref.kind == Value(desc.annotations, "dev.scafctl.artifact.type")
    && ref.version == (if version == "" then None else Canonical(lib, version)) && ref.digest == ""
    && ref.remote == Value(desc.annotations, "dev.scafctl.source.canonical") && (ref.built <==> ref.remote == "")
  }

  lemma AnnouncedExactly(lib: Library, c: Contents, ref: Reference, desc: Descriptor)
    ensures Announced(lib, c) == Ok((ref, desc)) <==> Announces(lib, c, ref, desc)
  {
  }
}
