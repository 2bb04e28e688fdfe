/** Choosing one artifact for a query, in the local catalog (local.go:
    findLocked; artifact_query.go; catalog.go) and in a remote one
    (remote_find.go). */
module ArtifactLookup {
  import opened Base
  import opened Semver

  // remote "" marks an artifact built here; tag is what it is stored under.
  datatype Info = Info(name: string, kind: string, version: Option<Version>, digest: string,
                       remote: string, tag: string)

  datatype Source = AnySource | BuiltSource | RemoteSource(remote: string)

  // A version selector as parsed; a constraint is the test it stands for.
  datatype Selector = Open | Exact(version: Version) | Constraint(check: Version -> bool) | Unparsable

  datatype Query = Query(name: string, kind: string, selector: Selector, digest: string, source: Source)

  datatype FindError = InvalidQuery | NotFound | Ambiguous | Unavailable

  predicate IsValidDigest(d: string) {
    |d| == 71 && d[..7] == "sha256:" && forall i | 7 <= i < 71 :: '0' <= d[i] <= '9' || 'a' <= d[i] <= 'f'
  }

  predicate ValidQuery(q: Query) {
    && q.name != "" && q.kind != "" && (q.source.RemoteSource? ==> q.source.remote != "")
    && (q.digest != "" ==> IsValidDigest(q.digest)) && !q.selector.Unparsable?
  }

  predicate WantsLatest(q: Query) {
    q.digest == "" && q.selector.Open?
  }

  predicate Satisfies(s: Selector, v: Option<Version>) {
    match s
    case Open => true
    case Exact(w) => v.Some? && SamePrecedence(w, v.value)
    case Constraint(check) => v.Some? && check(v.value)
    case Unparsable => false
  }

  // ArtifactQuery.matches
  predicate Matches(q: Query, a: Info) {
    && a.name == q.name && a.kind == q.kind
    && (match q.source
        case AnySource => true
        case BuiltSource => a.remote == ""
        case RemoteSource(remote) => a.remote == remote)
    && (q.digest != "" ==> a.digest == q.digest)
    && Satisfies(q.selector, a.version)
  }

  ghost function Matching(q: Query, all: seq<Info>): seq<Info> {
    if all == [] then []
    else Matching(q, all[..|all| - 1]) + (if Matches(q, all[|all| - 1]) then [all[|all| - 1]] else [])
  }

  // ---------------------------------------------------------------------
  // Newest first

  // sortByVersionDesc's comparator: no version sorts last.
  predicate Newer(a: Info, b: Info) {
    a.version.Some? && (b.version.None? || GreaterThan(a.version.value, b.version.value))
  }

  // The comparator is the strict weak order that sorting needs.
  lemma NewerIsOrder(a: Info, b: Info, c: Info)
    ensures !Newer(a, a) && !(Newer(a, b) && Newer(b, a))
    ensures Newer(a, b) && Newer(b, c) ==> Newer(a, c)
    ensures !Newer(a, b) && !Newer(b, c) ==> !Newer(a, c)
  {
    hide Le;
    if a.version.Some? {
      PrecedenceReflexive(a.version.value);
      if b.version.Some? {
        Precedence(a.version.value, b.version.value, b.version.value);
        if c.version.Some? {
          Precedence(a.version.value, b.version.value, c.version.value);
          Precedence(a.version.value, c.version.value, b.version.value);
          Precedence(c.version.value, b.version.value, a.version.value);
          Precedence(b.version.value, c.version.value, c.version.value);
          Precedence(a.version.value, c.version.value, c.version.value);
        }
      }
    }
  }

  // What a sort by that comparator may return; ties may come in any order.
  ghost predicate NewestFirst(s: seq<Info>, r: seq<Info>) {
    multiset(r) == multiset(s) && forall i, j | 0 <= i < j < |r| :: !Newer(r[j], r[i])
  }

  ghost predicate Sorts(sort: seq<Info> -> seq<Info>) {
    forall s :: NewestFirst(s, sort(s))
  }

  // There is such a sort.
  function Insert(a: Info, s: seq<Info>): (r: seq<Info>)
    ensures multiset(r) == multiset(s) + multiset{a}
  {
    if s == [] then [a]
    else if !Newer(s[0], a) then [a] + s
    else
      assert s == [s[0]] + s[1..];
      [s[0]] + Insert(a, s[1..])
  }

  function SortByVersionDesc(s: seq<Info>): (r: seq<Info>)
    ensures multiset(r) == multiset(s)
  {
    if s == [] then []
    else
      assert s == [s[0]] + s[1..];
      Insert(s[0], SortByVersionDesc(s[1..]))
  }

  lemma {:induction false} InsertSorted(a: Info, s: seq<Info>)
    requires forall i, j | 0 <= i < j < |s| :: !Newer(s[j], s[i])
    ensures forall i, j | 0 <= i < j < |Insert(a, s)| :: !Newer(Insert(a, s)[j], Insert(a, s)[i])
  {
    hide Newer;
    if s == [] {
    } else if !Newer(s[0], a) {
      forall j | 0 <= j < |s| ensures !Newer(s[j], a) {
        NewerIsOrder(s[j], s[0], a);
        NewerIsOrder(s[j], s[j], a);
      }
    } else {
      InsertSorted(a, s[1..]);
      var r := Insert(a, s[1..]);
      forall j | 0 <= j < |r| ensures !Newer(r[j], s[0]) {
        assert r[j] in multiset(r);
        NewerIsOrder(s[0], a, a);
        if r[j] != a {
          assert r[j] in s[1..];
        }
      }
    }
  }

  lemma {:induction false} SortByVersionDescSorts(s: seq<Info>)
    ensures NewestFirst(s, SortByVersionDesc(s))
  {
    if s != [] {
      SortByVersionDescSorts(s[1..]);
      InsertSorted(s[0], SortByVersionDesc(s[1..]));
    }
  }

  // ---------------------------------------------------------------------
  // Candidates and ambiguity

  predicate Stable(a: Info) {
    a.version.None? || !IsPreRelease(a.version.value)
  }

  function StableOnly(s: seq<Info>): (r: seq<Info>)
    ensures forall a :: a in r <==> a in s && Stable(a)
  {
    if s == [] then []
    else
      assert s == s[..|s| - 1] + [s[|s| - 1]];
      StableOnly(s[..|s| - 1]) + (if Stable(s[|s| - 1]) then [s[|s| - 1]] else [])
  }

  function Candidates(s: seq<Info>, preReleases: bool): seq<Info> {
    if preReleases || StableOnly(s) == [] then s else StableOnly(s)
  }

  method LatestCandidates(s: seq<Info>, preReleases: bool) returns (r: seq<Info>)
    ensures r == Candidates(s, preReleases)
  {
    if preReleases {
      return s;
    }
    r := [];
    for i := 0 to |s|
      invariant r == StableOnly(s[..i])
    {
      assert s[..i + 1][..i] == s[..i];
      if Stable(s[i]) {
        r := r + [s[i]];
      }
    }
    assert s[..|s|] == s;
    if r == [] {
      r := s;
    }
  }

  ghost predicate OneOrigin(s: seq<Info>) {
    forall a, b | a in s && b in s :: a.remote == b.remote
  }

  // checkAmbiguity finds nothing exactly when all matches share one origin.
  method CheckAmbiguity(s: seq<Info>) returns (ok: bool)
    ensures ok <==> OneOrigin(s)
  {
    var remotes: set<string> := {};
    var built := false;
    for i := 0 to |s|
      invariant forall r :: r in remotes <==> r != "" && exists k :: 0 <= k < i && s[k].remote == r
      invariant built <==> exists k :: 0 <= k < i && s[k].remote == ""
    {
      if s[i].remote == "" {
        built := true;
      } else {
        remotes := remotes + {s[i].remote};
      }
    }
    if built && |remotes| > 0 {
      TwoOrigins(s, remotes, true);
      return false;
    }
    if |remotes| > 1 {
      TwoOrigins(s, remotes, built);
      return false;
    }
    forall a, b | a in s && b in s ensures a.remote == b.remote {
      var i :| 0 <= i < |s| && s[i] == a;
      var j :| 0 <= j < |s| && s[j] == b;
      assert a.remote in remotes || a.remote == "";
      assert b.remote in remotes || b.remote == "";
      if !built && a.remote != b.remote {
        SubsetCard({a.remote, b.remote}, remotes);
      }
    }
    ok := true;
  }

  lemma TwoOrigins(s: seq<Info>, remotes: set<string>, built: bool)
    requires forall r :: r in remotes <==> r != "" && exists k :: 0 <= k < |s| && s[k].remote == r
    requires built <==> exists k :: 0 <= k < |s| && s[k].remote == ""
    requires (built && |remotes| > 0) || |remotes| > 1
    ensures !OneOrigin(s)
  {
    var r :| r in remotes;
    var i :| 0 <= i < |s| && s[i].remote == r;
    var other :| other != r && exists k :: 0 <= k < |s| && s[k].remote == other by {
      if built {
        assert "" != r;
      } else {
        if forall x :: x in remotes ==> x == r { SubsetCard(remotes, {r}); }
      }
    }
    var j :| 0 <= j < |s| && s[j].remote == other;
    assert s[i] in s && s[j] in s;
  }

  // ---------------------------------------------------------------------
  // Local lookup

  // findLocked. all: what the catalog stores, in any order.
  method FindLocked(q: Query, strict: bool, preReleases: bool, all: seq<Info>, sort: seq<Info> -> seq<Info>)
    returns (r: Result<Info, FindError>)
    ensures r == Find(q, strict, preReleases, all, sort)
  {
    if !ValidQuery(q) {
      return Err(InvalidQuery);
    }
    var artifacts := FindByAnnotation(q, all);
    if !strict && WantsLatest(q) {
      if q.source.AnySource? {
        var ok := CheckAmbiguity(artifacts);
        if !ok {
          return Err(Ambiguous);
        }
      }
      artifacts := LatestCandidates(artifacts, preReleases);
    }
    if |artifacts| == 0 {
      return Err(NotFound);
    }
    if |artifacts| == 1 {
      return Ok(artifacts[0]);
    }
    artifacts := sort(artifacts);
    if strict {
      return Err(Ambiguous);
    }
    if !q.source.AnySource? {
      return Head(artifacts);
    }
    var ok := CheckAmbiguity(artifacts);
    if !ok {
      return Err(Ambiguous);
    }
    return Head(artifacts);
  }

  function Head(s: seq<Info>): Result<Info, FindError> {
    if s == [] then Err(NotFound) else Ok(s[0])
  }

  method FindByAnnotation(q: Query, all: seq<Info>) returns (r: seq<Info>)
    ensures r == Matching(q, all)
  {
    r := [];
    for i := 0 to |all|
      invariant r == Matching(q, all[..i])
    {
      assert all[..i + 1][..i] == all[..i];
      if Matches(q, all[i]) {
        r := r + [all[i]];
      }
    }
    assert all[..|all|] == all;
  }

  ghost function Find(q: Query, strict: bool, preReleases: bool, all: seq<Info>, sort: seq<Info> -> seq<Info>):
    Result<Info, FindError>
  {
    if !ValidQuery(q) then Err(InvalidQuery)
    else
      var matches := Matching(q, all);
      var latest := !strict && WantsLatest(q);
      if latest && q.source.AnySource? && !OneOrigin(matches) then Err(Ambiguous)
      else
        var artifacts := if latest then Candidates(matches, preReleases) else matches;
        if |artifacts| == 0 then Err(NotFound)
        else if |artifacts| == 1 then Ok(artifacts[0])
        else if strict then Err(Ambiguous)
        else if q.source.AnySource? && !OneOrigin(sort(artifacts)) then Err(Ambiguous)
        else Head(sort(artifacts))
  }

  lemma {:induction false} MatchingElems(q: Query, all: seq<Info>)
    ensures forall a :: a in Matching(q, all) <==> a in all && Matches(q, a)
  {
    if all != [] {
      MatchingElems(q, all[..|all| - 1]);
      assert all == all[..|all| - 1] + [all[|all| - 1]];
      hide Matches;
    }
  }

  lemma SameElems(s: seq<Info>, r: seq<Info>)
    requires multiset(r) == multiset(s)
    ensures |r| == |s| && forall a :: a in r <==> a in s
  {
    assert |multiset(r)| == |multiset(s)|;
    assert forall a :: a in r <==> a in multiset(r);
    assert forall a :: a in s <==> a in multiset(s);
  }

  // What can be chosen: matches; only stable ones if there are any and
  // pre-releases were not asked for.
  ghost predicate Eligible(q: Query, preReleases: bool, all: seq<Info>, a: Info) {
    && a in all && Matches(q, a)
    && (preReleases || Stable(a) || forall b | b in all && Matches(q, b) :: !Stable(b))
  }

  lemma CandidatesAreEligible(q: Query, preReleases: bool, all: seq<Info>)
    ensures forall a :: a in Candidates(Matching(q, all), preReleases) <==> Eligible(q, preReleases, all, a)
    ensures Candidates(Matching(q, all), preReleases) == [] <==> forall a | a in all :: !Matches(q, a)
  {
    var matches := Matching(q, all);
    MatchingElems(q, all);
    hide Matching, Matches, Stable;
    forall a ensures a in Candidates(matches, preReleases) <==> Eligible(q, preReleases, all, a) {
      if StableOnly(matches) == [] {
        forall b | b in all && Matches(q, b)
          ensures !Stable(b)
        {
          assert b in matches && b !in StableOnly(matches);
        }
      } else {
        var b := StableOnly(matches)[0];
        assert b in StableOnly(matches);
      }
    }
    if matches != [] { assert matches[0] in matches; }
    assert Candidates(matches, preReleases) == [] <==> matches == [];
  }

  // A lookup for the latest version finds a highest one among the eligible, and
  // with no source selector only if every match has the same origin: whatever
  // the order the catalog lists in, and however the sort breaks ties.
  lemma LatestIsHighest(q: Query, preReleases: bool, all: seq<Info>, sort: seq<Info> -> seq<Info>)
    requires ValidQuery(q) && WantsLatest(q) && Sorts(sort)
    ensures Find(q, false, preReleases, all, sort).Ok? <==>
              && (exists a :: a in all && Matches(q, a))
              && (q.source.AnySource? ==>
                    forall a, b | a in all && b in all && Matches(q, a) && Matches(q, b) :: a.remote == b.remote)
    ensures Find(q, false, preReleases, all, sort).Ok? ==>
              var found := Find(q, false, preReleases, all, sort).value;
              && Eligible(q, preReleases, all, found)
              && forall a | Eligible(q, preReleases, all, a) :: !Newer(a, found)
  {
    MatchingElems(q, all);
    CandidatesAreEligible(q, preReleases, all);
    CandidatesSorted(Matching(q, all), preReleases, sort);
    FindLatest(q, preReleases, all, sort);
    hide Find, Matching, Matches, Candidates, Newer, Eligible, ValidQuery, WantsLatest;
  }

  // A lookup for the latest version takes the first of the sorted candidates.
  lemma FindLatest(q: Query, preReleases: bool, all: seq<Info>, sort: seq<Info> -> seq<Info>)
    requires ValidQuery(q) && WantsLatest(q) && Sorts(sort)
    ensures var artifacts := Candidates(Matching(q, all), preReleases);
      && (artifacts != [] ==> sort(artifacts) != [])
      && Find(q, false, preReleases, all, sort)
         == if q.source.AnySource? && !OneOrigin(Matching(q, all)) then Err(Ambiguous)
            else if artifacts == [] then Err(NotFound)
            else Ok(sort(artifacts)[0])
  {
    var artifacts := Candidates(Matching(q, all), preReleases);
    CandidatesSorted(Matching(q, all), preReleases, sort);
    hide Matching, Candidates, Newer, OneOrigin, ValidQuery;
    if |artifacts| == 1 { assert sort(artifacts)[0] == artifacts[0]; }
  }

  // What the sort puts first among the candidates.
  lemma CandidatesSorted(matching: seq<Info>, preReleases: bool, sort: seq<Info> -> seq<Info>)
    requires Sorts(sort)
    ensures var artifacts := Candidates(matching, preReleases); var r := sort(artifacts);
      && |r| == |artifacts| && (OneOrigin(r) <==> OneOrigin(artifacts))
      && (OneOrigin(matching) ==> OneOrigin(artifacts))
      && (artifacts != [] ==> r[0] in artifacts && forall a | a in artifacts :: !Newer(a, r[0]))
  {
    var artifacts := Candidates(matching, preReleases);
    CandidatesSub(matching, preReleases);
    hide Candidates;
    assert NewestFirst(artifacts, sort(artifacts));
    hide Newer;
    SortedHead(artifacts, sort(artifacts));
  }

  lemma CandidatesSub(s: seq<Info>, preReleases: bool)
    ensures forall a | a in Candidates(s, preReleases) :: a in s
  {
  }

  lemma SortedHead(s: seq<Info>, r: seq<Info>)
    requires NewestFirst(s, r)
    ensures |r| == |s| && (OneOrigin(r) <==> OneOrigin(s))
    ensures s != [] ==> r[0] in s && forall a | a in s :: !Newer(a, r[0])
  {
    SameElems(s, r);
    hide Newer;
    if s != [] {
      assert r[0] in r;
      forall a | a in s ensures !Newer(a, r[0]) {
        var k :| 0 <= k < |r| && r[k] == a;
        NewerIsOrder(r[0], r[0], r[0]);
      }
    }
  }

  lemma FindValid(q: Query, strict: bool, preReleases: bool, all: seq<Info>, sort: seq<Info> -> seq<Info>)
    ensures Find(q, strict, preReleases, all, sort).Ok? ==> ValidQuery(q)
  {
  }

  // Whatever a lookup finds is one of the matches.
  lemma FoundMatches(q: Query, strict: bool, preReleases: bool, all: seq<Info>, sort: seq<Info> -> seq<Info>)
    requires Sorts(sort) && Find(q, strict, preReleases, all, sort).Ok?
    ensures var found := Find(q, strict, preReleases, all, sort).value; found in all && Matches(q, found)
  {
    MatchingElems(q, all);
    var matches := Matching(q, all);
    CandidatesSub(matches, preReleases);
    var artifacts := if !strict && WantsLatest(q) then Candidates(matches, preReleases) else matches;
    hide Matching, Matches, Candidates;
    assert NewestFirst(artifacts, sort(artifacts));
    SortedHead(artifacts, sort(artifacts));
    if |artifacts| == 1 { assert artifacts[0] in artifacts; }
  }

  // Any successful lookup without a source selector has one origin only.
  lemma LocalSuccessOneOrigin(q: Query, strict: bool, preReleases: bool, all: seq<Info>, sort: seq<Info> -> seq<Info>)
    requires Sorts(sort) && q.source.AnySource? && Find(q, strict, preReleases, all, sort).Ok?
    ensures forall a, b | a in all && b in all && Matches(q, a) && Matches(q, b) :: a.remote == b.remote
  {
    MatchingElems(q, all);
    var matches := Matching(q, all);
    hide Matching, Matches;
    assert NewestFirst(matches, sort(matches));
    SortedHead(matches, sort(matches));
    assert OneOrigin(matches);
  }

  // ---------------------------------------------------------------------
  // Remote lookup

  ghost function Accepted(q: Query, versions: seq<Version>): seq<Version> {
    if versions == [] then []
    else
      Accepted(q, versions[..|versions| - 1])
      + (if Satisfies(q.selector, Some(versions[|versions| - 1])) then [versions[|versions| - 1]] else [])
  }

  function StableVersions(s: seq<Version>): (r: seq<Version>)
    ensures forall v :: v in r <==> v in s && !IsPreRelease(v)
  {
    if s == [] then []
    else
      assert s == s[..|s| - 1] + [s[|s| - 1]];
      StableVersions(s[..|s| - 1]) + (if !IsPreRelease(s[|s| - 1]) then [s[|s| - 1]] else [])
  }

  function LatestVersions(s: seq<Version>, preReleases: bool): seq<Version> {
    if preReleases || StableVersions(s) == [] then s else StableVersions(s)
  }

  // What sorting versions in reverse may return.
  ghost predicate HighestFirst(s: seq<Version>, r: seq<Version>) {
    multiset(r) == multiset(s) && forall i, j | 0 <= i < j < |r| :: Le(r[j], r[i])
  }

  ghost predicate SortsVersions(sort: seq<Version> -> seq<Version>) {
    forall s :: HighestFirst(s, sort(s))
  }

  ghost function VersionCandidates(q: Query, preReleases: bool, versions: seq<Version>,
                                   sort: seq<Version> -> seq<Version>): seq<Version> {
    var matched := Accepted(q, versions);
    sort(if WantsLatest(q) then LatestVersions(matched, preReleases) else matched)
  }

  method CollectCandidates(q: Query, preReleases: bool, versions: seq<Version>, sort: seq<Version> -> seq<Version>)
    returns (r: seq<Version>)
    ensures r == VersionCandidates(q, preReleases, versions, sort)
  {
    var matched := [];
    for i := 0 to |versions|
      invariant matched == Accepted(q, versions[..i])
    {
      assert versions[..i + 1][..i] == versions[..i];
      if Satisfies(q.selector, Some(versions[i])) {
        matched := matched + [versions[i]];
      }
    }
    assert versions[..|versions|] == versions;
    if WantsLatest(q) {
      matched := LatestVersions(matched, preReleases);
    }
    r := sort(matched);
  }

  predicate ServesSource(canonicalID: string, s: Source) {
    match s
    case AnySource => true
    case RemoteSource(remote) => remote == canonicalID
    case BuiltSource => false
  }

  // RemoteCatalog.Find, given the repository's versions and what resolving each
  // yields.
  method FindRemote(q: Query, preReleases: bool, canonicalID: string, versions: seq<Version>,
                    sort: seq<Version> -> seq<Version>, resolve: Version -> Result<Info, FindError>)
    returns (r: Result<Info, FindError>)
    ensures !ValidQuery(q) ==> r == Err(InvalidQuery)
    ensures ValidQuery(q) && q.source != AnySource && q.source != RemoteSource(canonicalID) ==> r == Err(NotFound)
    ensures ValidQuery(q) && (q.source == AnySource || q.source == RemoteSource(canonicalID)) ==>
              r == FirstResolved(q, VersionCandidates(q, preReleases, versions, sort), resolve)
  {
    if !ValidQuery(q) {
      return Err(InvalidQuery);
    }
    if !ServesSource(canonicalID, q.source) {
      return Err(NotFound);
    }
    var candidates := CollectCandidates(q, preReleases, versions, sort);
    for i := 0 to |candidates|
      invariant FirstResolved(q, candidates, resolve) == FirstResolved(q, candidates[i..], resolve)
    {
      var info := resolve(candidates[i]);
      assert candidates[i..][1..] == candidates[i + 1..];
      if info.Err? {
        return info;
      }
      if q.digest == "" || info.value.digest == q.digest {
        return info;
      }
    }
    r := Err(NotFound);
  }

  // The first candidate whose resolution fails or has the digest asked for.
  function FirstResolved(q: Query, candidates: seq<Version>, resolve: Version -> Result<Info, FindError>):
    Result<Info, FindError>
  {
    if candidates == [] then Err(NotFound)
    else
      var info := resolve(candidates[0]);
      if info.Err? || q.digest == "" || info.value.digest == q.digest then info
      else FirstResolved(q, candidates[1..], resolve)
  }

  lemma {:induction false} AcceptedElems(q: Query, versions: seq<Version>)
    ensures forall v :: v in Accepted(q, versions) <==> v in versions && Satisfies(q.selector, Some(v))
  {
    if versions != [] {
      AcceptedElems(q, versions[..|versions| - 1]);
      assert versions == versions[..|versions| - 1] + [versions[|versions| - 1]];
      hide Satisfies;
    }
  }

  ghost predicate EligibleVersion(preReleases: bool, versions: seq<Version>, v: Version) {
    v in versions && (preReleases || !IsPreRelease(v) || forall w | w in versions :: IsPreRelease(w))
  }

  // For an open version the remote lookup resolves a highest eligible version,
  // and nothing else.
  lemma RemoteLatestIsHighest(q: Query, preReleases: bool, versions: seq<Version>, sort: seq<Version> -> seq<Version>,
                              resolve: Version -> Result<Info, FindError>)
    requires WantsLatest(q) && SortsVersions(sort)
    ensures var cs := VersionCandidates(q, preReleases, versions, sort);
      && (cs == [] <==> versions == [])
      && (cs != [] ==>
            && FirstResolved(q, cs, resolve) == resolve(cs[0])
            && EligibleVersion(preReleases, versions, cs[0])
            && forall v | EligibleVersion(preReleases, versions, v) :: Le(v, cs[0]))
  {
    AcceptedElems(q, versions);
    var matched := LatestVersions(Accepted(q, versions), preReleases);
    var cs := VersionCandidates(q, preReleases, versions, sort);
    LatestVersionsEligible(versions, Accepted(q, versions), preReleases);
    assert HighestFirst(matched, sort(matched));
    HighestHead(matched, cs);
    hide EligibleVersion, HighestFirst, Le, LatestVersions, Accepted;
    if versions != [] { assert versions[0] in versions; }
  }

  lemma LatestVersionsEligible(versions: seq<Version>, matched: seq<Version>, preReleases: bool)
    requires forall v :: v in matched <==> v in versions
    ensures forall v :: v in LatestVersions(matched, preReleases) <==> EligibleVersion(preReleases, versions, v)
    ensures LatestVersions(matched, preReleases) == [] <==> versions == []
  {
    if versions != [] { assert versions[0] in matched; }
    if matched != [] { assert matched[0] in versions; }
    forall v ensures v in LatestVersions(matched, preReleases) <==> EligibleVersion(preReleases, versions, v) {
      if StableVersions(matched) == [] {
        forall w | w in versions ensures IsPreRelease(w) { assert w !in StableVersions(matched); }
      } else {
        assert StableVersions(matched)[0] in StableVersions(matched);
      }
    }
  }

  lemma HighestHead(s: seq<Version>, r: seq<Version>)
    requires HighestFirst(s, r)
    ensures |r| == |s| && (s != [] ==> r[0] in s && forall v | v in s :: Le(v, r[0]))
  {
    hide Le;
    assert |multiset(r)| == |multiset(s)|;
    if s != [] {
      assert r[0] in multiset(r);
      forall v | v in s ensures Le(v, r[0]) {
        assert v in multiset(s);
        var k :| 0 <= k < |r| && r[k] == v;
        PrecedenceReflexive(v);
      }
    }
  }

  // Asked for the latest version of artifacts that carry the same versions, the
  // two catalogs agree up to build metadata.
  lemma LocalAndRemoteAgree(q: Query, preReleases: bool, all: seq<Info>, versions: seq<Version>,
                            sort: seq<Info> -> seq<Info>, sortVersions: seq<Version> -> seq<Version>)
    requires ValidQuery(q) && WantsLatest(q) && Sorts(sort) && SortsVersions(sortVersions)
    requires forall a | a in all && Matches(q, a) :: a.version.Some? && a.version.value in versions
    requires forall v | v in versions :: exists a :: a in all && Matches(q, a) && a.version == Some(v)
    requires Find(q, false, preReleases, all, sort).Ok?
    ensures var cs := VersionCandidates(q, preReleases, versions, sortVersions);
      && cs != [] && Find(q, false, preReleases, all, sort).value.version.Some?
      && SamePrecedence(Find(q, false, preReleases, all, sort).value.version.value, cs[0])
  {
    var found := Find(q, false, preReleases, all, sort).value;
    var cs := VersionCandidates(q, preReleases, versions, sortVersions);
    LatestIsHighest(q, preReleases, all, sort);
    RemoteLatestIsHighest(q, preReleases, versions, sortVersions, _ => Err(NotFound));
    assert EligibleVersion(preReleases, versions, found.version.value) by {
      EligibleAlike(q, preReleases, all, versions, found);
    }
    var a :| a in all && Matches(q, a) && a.version == Some(cs[0]);
    EligibleAlike(q, preReleases, all, versions, a);
    hide Find, VersionCandidates, Eligible, EligibleVersion, Matches, Le;
    assert !Newer(a, found);
    Precedence(found.version.value, cs[0], cs[0]);
  }

  lemma EligibleAlike(q: Query, preReleases: bool, all: seq<Info>, versions: seq<Version>, a: Info)
    requires forall a | a in all && Matches(q, a) :: a.version.Some? && a.version.value in versions
    requires forall v | v in versions :: exists a :: a in all && Matches(q, a) && a.version == Some(v)
    requires a in all && Matches(q, a)
    ensures Eligible(q, preReleases, all, a) <==> EligibleVersion(preReleases, versions, a.version.value)
  {
    hide Matches;
    if !preReleases && IsPreRelease(a.version.value) {
      if v :| v in versions && !IsPreRelease(v) {
        var b :| b in all && Matches(q, b) && b.version == Some(v);
        assert Stable(b);
      }
      if b :| b in all && Matches(q, b) && Stable(b) {
        assert b.version.value in versions;
      }
    }
  }
}
