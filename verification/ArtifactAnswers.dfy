/** What a lookup answers, in the fields of the artifacts themselves (local.go:
    findLocked; artifact_query.go; remote_find.go). */
module ArtifactAnswers {
  import opened Base
  import opened Semver
  import opened ArtifactLookup

  // ---------------------------------------------------------------------
  // Versions

  // Item 11 of Semantic Versioning 2.0.0: major, minor and patch decide in this
  // order, a pre-release is lower than its release, numbers compare as numbers
  // and are lower than words, and more fields are higher than fewer.
  lemma PrecedenceRules(a: Version, b: Version, p: seq<Identifier>, x: Identifier, y: Identifier, r: seq<Identifier>,
                        s: seq<Identifier>)
    ensures a.major < b.major ==> !Le(b, a)
    ensures a.major == b.major && a.minor < b.minor ==> !Le(b, a)
    ensures a.major == b.major && a.minor == b.minor && a.patch < b.patch ==> !Le(b, a)
    ensures b.pre == [] && a == b.(pre := [x] + r) ==> !Le(b, a)
    ensures y.Numeric? && x.Numeric? && x.n < y.n ==> !Le(a.(pre := p + [y] + s), a.(pre := p + [x] + r))
    ensures x.Numeric? && y.Alphanumeric? ==> !Le(a.(pre := p + [y] + s), a.(pre := p + [x] + r))
    ensures x.Alphanumeric? && y.Alphanumeric? && StrLe(x.text, y.text) && x != y ==>
              !Le(a.(pre := p + [y] + s), a.(pre := p + [x] + r))
    ensures p != [] ==> !Le(a.(pre := p + [x] + r), a.(pre := p))
  {
    if x.Alphanumeric? && y.Alphanumeric? && StrLe(x.text, y.text) && StrLe(y.text, x.text) {
      StrLeAntisymmetric(x.text, y.text);
    }
    CommonPrefix(p, x, y, r, s);
    assert p + [x] + r == p + ([x] + r);
  }

  lemma {:induction false} CommonPrefix(p: seq<Identifier>, x: Identifier, y: Identifier, r: seq<Identifier>,
                                        s: seq<Identifier>)
    ensures x != y ==> (PreLe(p + [y] + s, p + [x] + r) <==> IdLe(y, x))
    ensures !PreLe(p + [x] + r, p)
  {
    if p != [] {
      CommonPrefix(p[1..], x, y, r, s);
      assert (p + [y] + s)[1..] == p[1..] + [y] + s && (p + [x] + r)[1..] == p[1..] + [x] + r;
      assert (p + [y] + s)[0] == p[0] && (p + [x] + r)[0] == p[0];
    } else {
      assert p + [y] + s == [y] + s && p + [x] + r == [x] + r;
    }
  }

  // ---------------------------------------------------------------------
  // What answers a query

  ghost predicate VersionFits(s: Selector, v: Option<Version>) {
    match s
    case Open => true
    case Exact(w) => v.Some? && Le(w, v.value) && Le(v.value, w)
    case Constraint(check) => v.Some? && check(v.value)
    case Unparsable => false
  }

  ghost predicate Fits(q: Query, a: Info) {
    && a.name == q.name && a.kind == q.kind && VersionFits(q.selector, a.version)
    && (q.digest == "" || a.digest == q.digest)
    && (q.source == BuiltSource ==> a.remote == "")
    && (q.source.RemoteSource? ==> a.remote == q.source.remote)
  }

  lemma FitsMatches(q: Query, a: Info)
    ensures Matches(q, a) <==> Fits(q, a)
  {
    if q.selector.Exact? && a.version.Some? {
      Precedence(q.selector.version, a.version.value, a.version.value);
      hide Le;
    }
  }

  // A query names an artifact and its kind, a remote source its origin; a digest
  // is "sha256:" and 64 hexadecimal digits.
  ghost predicate WellAsked(q: Query) {
    && q.name != "" && q.kind != "" && !q.selector.Unparsable? && q.source != RemoteSource("")
    && (q.digest == ""
        || (|q.digest| == 71 && q.digest[..7] == "sha256:"
            && forall i | 7 <= i < 71 :: '0' <= q.digest[i] <= '9' || 'a' <= q.digest[i] <= 'f'))
  }

  lemma WellAskedIs(q: Query)
    ensures WellAsked(q) <==> ValidQuery(q)
  {
  }

  // b's version is not above a's.
  ghost predicate NotAbove(b: Info, a: Info) {
    b.version.Some? ==> a.version.Some? && Le(b.version.value, a.version.value)
  }

  lemma NotAboveIs(b: Info, a: Info)
    ensures NotAbove(b, a) <==> !Newer(b, a)
  {
    hide Le;
  }

  ghost predicate PreRelease(a: Info) {
    a.version.Some? && a.version.value.pre != []
  }

  // What may answer: anything that fits; if the latest version is asked for and
  // pre-releases are not, a pre-release only where nothing else fits.
  ghost predicate MayAnswer(q: Query, strict: bool, preReleases: bool, all: seq<Info>, a: Info) {
    && a in all && Fits(q, a)
    && (strict || q.digest != "" || q.selector != Open || preReleases || !PreRelease(a)
        || forall b | b in all && Fits(q, b) :: PreRelease(b))
  }

  ghost predicate OnlyFit(q: Query, all: seq<Info>, i: nat) {
    i < |all| && Fits(q, all[i]) && forall j | 0 <= j < |all| && Fits(q, all[j]) :: j == i
  }

  // How many fit.
  ghost function CountFits(q: Query, all: seq<Info>): nat {
    if all == [] then 0 else CountFits(q, all[..|all| - 1]) + (if Fits(q, all[|all| - 1]) then 1 else 0)
  }

  lemma {:induction false} MatchingCount(q: Query, all: seq<Info>)
    ensures |Matching(q, all)| == CountFits(q, all)
  {
    if all != [] {
      MatchingCount(q, all[..|all| - 1]);
      FitsMatches(q, all[|all| - 1]);
      hide Fits, Matches;
    }
  }

  lemma {:induction false} NoneFits(q: Query, all: seq<Info>)
    ensures CountFits(q, all) == 0 <==> forall j | 0 <= j < |all| :: !Fits(q, all[j])
  {
    hide Fits;
    if all != [] {
      var init := all[..|all| - 1];
      NoneFits(q, init);
      assert forall j | 0 <= j < |init| :: init[j] == all[j];
    }
  }

  lemma {:induction false} OneFits(q: Query, all: seq<Info>)
    ensures CountFits(q, all) == 1 <==> exists i :: OnlyFit(q, all, i)
  {
    hide Fits;
    if all != [] {
      var init, n := all[..|all| - 1], |all| - 1;
      OneFits(q, init);
      NoneFits(q, init);
      assert forall j | 0 <= j < n :: init[j] == all[j];
      if Fits(q, all[n]) {
        if CountFits(q, init) == 0 { assert OnlyFit(q, all, n); }
        if i :| OnlyFit(q, all, i) { assert i == n; }
      } else {
        forall i: nat ensures OnlyFit(q, init, i) <==> OnlyFit(q, all, i) {}
        if i :| OnlyFit(q, init, i) { assert OnlyFit(q, all, i); }
        if i :| OnlyFit(q, all, i) { assert OnlyFit(q, init, i); }
      }
    }
  }

  // The answer of a lookup in the local catalog, in every case: malformed
  // queries are refused; nothing is found exactly if nothing fits; a strict
  // lookup succeeds exactly if one artifact fits, a lookup with a source exactly
  // if any does, and one without exactly if all that fit share one origin. What
  // is found fits, and none that may answer is above it.
  lemma FindExactly(q: Query, strict: bool, preReleases: bool, all: seq<Info>, sort: seq<Info> -> seq<Info>)
    requires Sorts(sort)
    ensures var r := Find(q, strict, preReleases, all, sort);
      && (r == Err(InvalidQuery) <==> !WellAsked(q))
      && (WellAsked(q) ==>
            && (r == Err(NotFound) <==> forall a | a in all :: !Fits(q, a))
            && (strict ==> (r.Ok? <==> exists i :: OnlyFit(q, all, i)))
            && (!strict && q.source != AnySource ==> (r.Ok? <==> exists a :: a in all && Fits(q, a)))
            && (!strict && q.source == AnySource ==>
                  (r.Ok? <==>
                     (exists a :: a in all && Fits(q, a))
                     && forall a, b | a in all && b in all && Fits(q, a) && Fits(q, b) :: a.remote == b.remote))
            && (r.Err? ==> r.error == NotFound || r.error == Ambiguous))
      && (r.Ok? ==> MayAnswer(q, strict, preReleases, all, r.value)
                    && forall b | MayAnswer(q, strict, preReleases, all, b) :: NotAbove(b, r.value))
  {
    WellAskedIs(q);
    MatchingCount(q, all);
    OneFits(q, all);
    forall a ensures a in Matching(q, all) <==> a in all && Fits(q, a) {
      MatchingElems(q, all);
      FitsMatches(q, a);
    }
    hide *;
    if WellAsked(q) {
      FindValue(q, strict, preReleases, all, sort);
      MayAnswerIs(q, strict, preReleases, all);
      BestFirst(q, strict, preReleases, all, sort);
      FindCases(q, strict, preReleases, all, sort);
    } else {
      FindInvalid(q, strict, preReleases, all, sort);
    }
  }

  // The artifacts the head is taken from.
  ghost function Chosen(q: Query, strict: bool, preReleases: bool, all: seq<Info>): seq<Info> {
    if !strict && WantsLatest(q) then Candidates(Matching(q, all), preReleases) else Matching(q, all)
  }

  // The lookup, with the checks that cannot matter left out.
  lemma FindValue(q: Query, strict: bool, preReleases: bool, all: seq<Info>, sort: seq<Info> -> seq<Info>)
    requires ValidQuery(q) && Sorts(sort)
    ensures var m, chosen := Matching(q, all), Chosen(q, strict, preReleases, all);
      && (m == [] <==> chosen == []) && |sort(chosen)| == |chosen|
      && Find(q, strict, preReleases, all, sort)
         == if m == [] then Err(NotFound)
            else if strict then (if |m| == 1 then Ok(sort(chosen)[0]) else Err(Ambiguous))
            else if q.source.AnySource? && !OneOrigin(m) then Err(Ambiguous)
            else Ok(sort(chosen)[0])
  {
    FindIs(q, strict, preReleases, all, sort);
    ChosenSorted(q, strict, preReleases, all, sort);
    hide *;
    var chosen := Chosen(q, strict, preReleases, all);
    if |chosen| == 1 { OnlyOneIn(chosen, sort(chosen)); }
  }

  lemma OnlyOneIn(s: seq<Info>, r: seq<Info>)
    requires |s| == |r| == 1 && r[0] in s
    ensures r[0] == s[0]
  {
  }

  lemma FindIs(q: Query, strict: bool, preReleases: bool, all: seq<Info>, sort: seq<Info> -> seq<Info>)
    requires ValidQuery(q)
    ensures var m, chosen := Matching(q, all), Chosen(q, strict, preReleases, all);
      Find(q, strict, preReleases, all, sort)
      == if !strict && WantsLatest(q) && q.source.AnySource? && !OneOrigin(m) then Err(Ambiguous)
         else if |chosen| == 0 then Err(NotFound)
         else if |chosen| == 1 then Ok(chosen[0])
         else if strict then Err(Ambiguous)
         else if q.source.AnySource? && !OneOrigin(sort(chosen)) then Err(Ambiguous)
         else if sort(chosen) == [] then Err(NotFound) else Ok(sort(chosen)[0])
  {
    hide Matching, Candidates, OneOrigin, ValidQuery, WantsLatest;
  }

  lemma ChosenSorted(q: Query, strict: bool, preReleases: bool, all: seq<Info>, sort: seq<Info> -> seq<Info>)
    requires Sorts(sort)
    ensures var m, chosen := Matching(q, all), Chosen(q, strict, preReleases, all);
      && (m == [] <==> chosen == []) && |sort(chosen)| == |chosen|
      && (OneOrigin(sort(chosen)) <==> OneOrigin(chosen)) && (OneOrigin(m) ==> OneOrigin(chosen))
      && (chosen != [] ==> sort(chosen)[0] in chosen)
      && (strict || !WantsLatest(q) ==> chosen == m) && (|m| == 1 ==> |chosen| == 1 && OneOrigin(m))
      && (|chosen| == 1 ==> OneOrigin(chosen)) && (m == [] ==> OneOrigin(m))
  {
    var m, chosen := Matching(q, all), Chosen(q, strict, preReleases, all);
    EmptyCandidates(m, preReleases);
    CandidatesSub(m, preReleases);
    assert NewestFirst(chosen, sort(chosen));
    assert forall a | a in chosen :: a in m;
    FewerCandidates(m, preReleases);
    hide Matching, Candidates, NewestFirst, Sorts, Newer, WantsLatest, OneOrigin;
    SortedHead(chosen, sort(chosen));
    OriginOfPart(m, chosen);
    OriginOfOne(m);
    OriginOfOne(chosen);
  }

  lemma OriginOfPart(s: seq<Info>, t: seq<Info>)
    requires forall a | a in t :: a in s
    ensures OneOrigin(s) ==> OneOrigin(t)
  {
  }

  lemma OriginOfOne(s: seq<Info>)
    ensures |s| <= 1 ==> OneOrigin(s)
  {
  }

  lemma FewerCandidates(m: seq<Info>, preReleases: bool)
    ensures |m| == 1 ==> |Candidates(m, preReleases)| == 1
  {
    if |m| == 1 { assert m[..0] == [] && StableOnly(m[..0]) == []; }
  }

  lemma EmptyCandidates(m: seq<Info>, preReleases: bool)
    ensures Candidates(m, preReleases) == [] <==> m == []
  {
  }

  lemma MayAnswerIs(q: Query, strict: bool, preReleases: bool, all: seq<Info>)
    ensures forall a :: MayAnswer(q, strict, preReleases, all, a) <==> a in Chosen(q, strict, preReleases, all)
  {
    forall a ensures MayAnswer(q, strict, preReleases, all, a) <==> a in Chosen(q, strict, preReleases, all) {
      MatchingElems(q, all);
      CandidatesAreEligible(q, preReleases, all);
      forall b ensures Matches(q, b) <==> Fits(q, b) { FitsMatches(q, b); }
      hide Matching, Candidates, Matches, Fits;
    }
  }

  lemma BestFirst(q: Query, strict: bool, preReleases: bool, all: seq<Info>, sort: seq<Info> -> seq<Info>)
    requires Sorts(sort)
    ensures var chosen := Chosen(q, strict, preReleases, all);
      chosen != [] ==> |sort(chosen)| > 0 && sort(chosen)[0] in chosen
                       && forall b | b in chosen :: NotAbove(b, sort(chosen)[0])
  {
    var chosen := Chosen(q, strict, preReleases, all);
    assert NewestFirst(chosen, sort(chosen));
    SortedHead(chosen, sort(chosen));
    forall b | b in chosen && chosen != [] ensures NotAbove(b, sort(chosen)[0]) { NotAboveIs(b, sort(chosen)[0]); }
    hide Chosen, Newer, NewestFirst, NotAbove, Sorts;
  }

  lemma FindCases(q: Query, strict: bool, preReleases: bool, all: seq<Info>, sort: seq<Info> -> seq<Info>)
    requires var m, chosen := Matching(q, all), Chosen(q, strict, preReleases, all);
      var r := Find(q, strict, preReleases, all, sort);
      && (m == [] <==> chosen == []) && |sort(chosen)| == |chosen|
      && r == (if m == [] then Err(NotFound)
               else if strict then (if |m| == 1 then Ok(sort(chosen)[0]) else Err(Ambiguous))
               else if q.source.AnySource? && !OneOrigin(m) then Err(Ambiguous)
               else Ok(sort(chosen)[0]))
    requires forall a :: a in Matching(q, all) <==> a in all && Fits(q, a)
    requires |Matching(q, all)| == 1 <==> exists i :: OnlyFit(q, all, i)
    ensures var r := Find(q, strict, preReleases, all, sort);
      && (r == Err(NotFound) <==> forall a | a in all :: !Fits(q, a))
      && (strict ==> (r.Ok? <==> exists i :: OnlyFit(q, all, i)))
      && (!strict && q.source != AnySource ==> (r.Ok? <==> exists a :: a in all && Fits(q, a)))
      && (!strict && q.source == AnySource ==>
            (r.Ok? <==> (exists a :: a in all && Fits(q, a))
                        && forall a, b | a in all && b in all && Fits(q, a) && Fits(q, b) :: a.remote == b.remote))
      && (r.Err? ==> r.error == NotFound || r.error == Ambiguous)
      && (r.Ok? ==> Chosen(q, strict, preReleases, all) != []
                    && r.value == sort(Chosen(q, strict, preReleases, all))[0])
  {
    var m := Matching(q, all);
    if m != [] { assert m[0] in m; }
    OriginsAgree(q, all);
    hide Matching, Chosen, Find, Fits, OnlyFit, OneOrigin;
  }

  lemma OriginsAgree(q: Query, all: seq<Info>)
    requires forall a :: a in Matching(q, all) <==> a in all && Fits(q, a)
    ensures OneOrigin(Matching(q, all)) <==>
              forall a, b | a in all && b in all && Fits(q, a) && Fits(q, b) :: a.remote == b.remote
  {
    hide Matching, Fits;
  }

  lemma FindInvalid(q: Query, strict: bool, preReleases: bool, all: seq<Info>, sort: seq<Info> -> seq<Info>)
    requires !ValidQuery(q)
    ensures Find(q, strict, preReleases, all, sort) == Err(InvalidQuery)
  {
    hide ValidQuery;
  }

  // ---------------------------------------------------------------------
  // A remote catalog

  // The versions of a repository that may be resolved for a query.
  ghost predicate MayResolve(q: Query, preReleases: bool, versions: seq<Version>, v: Version) {
    && v in versions && VersionFits(q.selector, Some(v))
    && (q.digest != "" || q.selector != Open || preReleases || v.pre == []
        || forall w | w in versions && VersionFits(q.selector, Some(w)) :: w.pre != [])
  }

  // v resolves, and not to the digest asked for.
  ghost predicate PassedOver(q: Query, resolve: Version -> Result<Info, FindError>, v: Version) {
    q.digest != "" && resolve(v).Ok? && resolve(v).value.digest != q.digest
  }

  lemma {:induction false} FirstAt(q: Query, cs: seq<Version>, resolve: Version -> Result<Info, FindError>)
    returns (i: nat)
    ensures i <= |cs| && forall j | 0 <= j < i :: PassedOver(q, resolve, cs[j])
    ensures FirstResolved(q, cs, resolve) == if i < |cs| then resolve(cs[i]) else Err(NotFound)
    ensures i < |cs| ==> !PassedOver(q, resolve, cs[i])
  {
    if cs == [] || !PassedOver(q, resolve, cs[0]) {
      i := 0;
    } else {
      var k := FirstAt(q, cs[1..], resolve);
      i := k + 1;
      forall j | 0 <= j < i ensures PassedOver(q, resolve, cs[j]) {
        if j > 0 { assert cs[j] == cs[1..][j - 1]; }
      }
    }
  }

  lemma MayResolveIs(q: Query, preReleases: bool, versions: seq<Version>, sort: seq<Version> -> seq<Version>)
    requires SortsVersions(sort)
    ensures var cs := VersionCandidates(q, preReleases, versions, sort);
      && (forall v :: MayResolve(q, preReleases, versions, v) <==> v in cs)
      && forall i, j | 0 <= i < j < |cs| :: Le(cs[j], cs[i])
  {
    var fit := Accepted(q, versions);
    var chosen := if WantsLatest(q) then LatestVersions(fit, preReleases) else fit;
    ResolvableChosen(q, preReleases, versions);
    assert HighestFirst(chosen, sort(chosen));
    hide MayResolve, Accepted, LatestVersions, Le, WantsLatest, SortsVersions;
    SameVersions(chosen, sort(chosen));
  }

  lemma ResolvableChosen(q: Query, preReleases: bool, versions: seq<Version>)
    ensures var fit := Accepted(q, versions);
      var chosen := if WantsLatest(q) then LatestVersions(fit, preReleases) else fit;
      forall v :: MayResolve(q, preReleases, versions, v) <==> v in chosen
  {
    var fit := Accepted(q, versions);
    AcceptedElems(q, versions);
    forall w ensures w in fit <==> w in versions && VersionFits(q.selector, Some(w)) { SelectorIs(q.selector, w); }
    hide Satisfies, VersionFits, Accepted;
    if StableVersions(fit) != [] { assert StableVersions(fit)[0] in StableVersions(fit); }
  }

  lemma SameVersions(s: seq<Version>, r: seq<Version>)
    requires HighestFirst(s, r)
    ensures forall v :: v in r <==> v in s
    ensures forall i, j | 0 <= i < j < |r| :: Le(r[j], r[i])
  {
    hide Le;
    assert forall v :: v in r <==> v in multiset(r);
    assert forall v :: v in s <==> v in multiset(s);
  }

  lemma SelectorIs(s: Selector, v: Version)
    ensures Satisfies(s, Some(v)) <==> VersionFits(s, Some(v))
  {
    if s.Exact? {
      Precedence(s.version, v, v);
      hide Le;
    }
  }

  // The answer of a remote lookup that is well asked and served: what the first
  // version in descending order resolves to that fails or has the digest asked
  // for; every higher one that may be resolved has another digest.
  lemma RemoteExactly(q: Query, preReleases: bool, versions: seq<Version>, sort: seq<Version> -> seq<Version>,
                      resolve: Version -> Result<Info, FindError>)
    requires SortsVersions(sort)
    ensures var r := FirstResolved(q, VersionCandidates(q, preReleases, versions, sort), resolve);
      || (r == Err(NotFound) && forall w | MayResolve(q, preReleases, versions, w) :: PassedOver(q, resolve, w))
      || exists v :: MayResolve(q, preReleases, versions, v) && r == resolve(v) && !PassedOver(q, resolve, v)
                     && forall w | MayResolve(q, preReleases, versions, w) && !Le(w, v) :: PassedOver(q, resolve, w)
  {
    var cs := VersionCandidates(q, preReleases, versions, sort);
    MayResolveIs(q, preReleases, versions, sort);
    var i := FirstAt(q, cs, resolve);
    hide VersionCandidates, MayResolve, PassedOver, FirstResolved, Le;
    if i < |cs| {
      assert MayResolve(q, preReleases, versions, cs[i]);
      forall w | MayResolve(q, preReleases, versions, w) && !Le(w, cs[i]) ensures PassedOver(q, resolve, w) {
        var j :| 0 <= j < |cs| && cs[j] == w;
        PrecedenceReflexive(w);
      }
    }
  }
}
