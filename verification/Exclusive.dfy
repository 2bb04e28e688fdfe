/** Splitting phases so that mutually exclusive actions never share one
    (graph.go, splitPhasesForExclusive and splitPhaseForExclusive). */
module Exclusive {
  import opened Base
  import opened Digraph
  import opened Phases

  // Exclusion is declared on one side and holds on both.
  ghost predicate Conflict(excl: Deps, a: Name, b: Name) {
    b in Succ(excl, a) || a in Succ(excl, b)
  }

  ghost function Neighbours(phase: seq<Name>, excl: Deps, a: Name): set<Name> {
    set b | b in phase && Conflict(excl, a, b)
  }

  // No two distinct actions of the group exclude each other.
  ghost predicate Compatible(excl: Deps, group: seq<Name>) {
    forall a, b | a in group && b in group && a != b :: !Conflict(excl, a, b)
  }

  // Every element of s is in exactly one of the groups, once.
  ghost predicate Partition(s: seq<Name>, groups: seq<seq<Name>>) {
    && (forall i | 0 <= i < |groups| :: Distinct(groups[i]) && groups[i] != [])
    && (forall i, a | 0 <= i < |groups| && a in groups[i] :: a in s)
    && (forall a | a in s :: InSome(groups, a))
    && (forall i, j, a | 0 <= i < |groups| && 0 <= j < |groups| && a in groups[i] && a in groups[j] :: i == j)
  }

  ghost predicate InSome(groups: seq<seq<Name>>, a: Name) {
    exists i :: 0 <= i < |groups| && a in groups[i]
  }

  ghost predicate SplitOf(phase: seq<Name>, excl: Deps, subs: seq<seq<Name>>) {
    && Partition(phase, subs)
    && (forall i | 0 <= i < |subs| :: Compatible(excl, subs[i]))
    && (forall i | 0 <= i < |subs| && Sorted(phase) :: Sorted(subs[i]))
    && (phase != [] ==> FewSubPhases(phase, excl, |subs|))
    && FirstFit(phase, excl, subs)
  }

  // Each name is in the first sub-phase that holds no earlier name in conflict
  // with it.
  ghost predicate FirstFit(phase: seq<Name>, excl: Deps, subs: seq<seq<Name>>) {
    forall c, d, a | 0 <= d < c < |subs| && a in subs[c] :: BarredFrom(phase, excl, subs[d], a)
  }

  ghost predicate BarredFrom(phase: seq<Name>, excl: Deps, group: seq<Name>, a: Name) {
    exists b :: b in group && Bars(phase, excl, b, a)
  }

  ghost predicate Bars(phase: seq<Name>, excl: Deps, b: Name, a: Name) {
    Conflict(excl, a, b) && exists i, j :: 0 <= i < j < |phase| && phase[i] == b && phase[j] == a
  }

  // At most one sub-phase more than the largest number of conflicting others.
  ghost predicate FewSubPhases(phase: seq<Name>, excl: Deps, count: nat) {
    exists a :: a in phase && count <= |Neighbours(phase, excl, a) - {a}| + 1
  }

  // ---------------------------------------------------------------------
  // The conflict graph

  ghost predicate ConflictGraph(phase: seq<Name>, excl: Deps, conflicts: map<Name, set<Name>>) {
    && conflicts.Keys == Elems(phase)
    && forall a | a in conflicts :: conflicts[a] == Neighbours(phase, excl, a)
  }

  function Record(phase: seq<Name>, conflicts: map<Name, set<Name>>, name: Name, other: Name): map<Name, set<Name>>
    requires name in conflicts && (other in phase ==> other in conflicts)
  {
    if other in phase then
      var once := conflicts[name := conflicts[name] + {other}];
      once[other := once[other] + {name}]
    else conflicts
  }

  lemma RecordGraph(phase: seq<Name>, seen: Deps, conflicts: map<Name, set<Name>>, name: Name, other: Name)
    requires ConflictGraph(phase, seen, conflicts) && name in phase
    ensures ConflictGraph(phase, AddDep(seen, name, other), Record(phase, conflicts, name, other))
  {
    var seen' := AddDep(seen, name, other);
    var after := Record(phase, conflicts, name, other);
    forall a | a in after ensures after[a] == Neighbours(phase, seen', a) {
      forall b ensures b in after[a] <==> b in Neighbours(phase, seen', a) {
        assert b in conflicts[a] <==> b in Neighbours(phase, seen, a);
        assert b in Succ(seen', a) <==> b in Succ(seen, a) || (a == name && b == other);
        assert a in Succ(seen', b) <==> a in Succ(seen, b) || (b == name && a == other);
      }
    }
  }

  method RecordAll(phase: seq<Name>, name: Name, list: seq<Name>, conflicts0: map<Name, set<Name>>, ghost seen0: Deps)
    returns (conflicts: map<Name, set<Name>>, ghost seen: Deps)
    requires name in phase && Succ(seen0, name) == [] && ConflictGraph(phase, seen0, conflicts0)
    ensures ConflictGraph(phase, seen, conflicts)
    ensures SeenUpTo(seen, seen0, name, list)
  {
    conflicts, seen := conflicts0, seen0;
    var i := 0;
    assert SeenUpTo(seen, seen0, name, list[..i]);
    hide SeenUpTo, Neighbours, AddDep;
    while i < |list|
      invariant 0 <= i <= |list|
      invariant SeenUpTo(seen, seen0, name, list[..i])
      invariant ConflictGraph(phase, seen, conflicts)
    {
      RecordGraph(phase, seen, conflicts, name, list[i]);
      SeenNext(seen, seen0, name, list, i);
      conflicts := Record(phase, conflicts, name, list[i]);
      seen := AddDep(seen, name, list[i]);
      i := i + 1;
    }
    assert list[..i] == list;
  }

  ghost predicate SeenPrefix(phase: seq<Name>, excl: Deps, i: nat, seen: Deps)
    requires i <= |phase|
  {
    forall a :: Succ(seen, a) == if a in phase[..i] then Succ(excl, a) else []
  }

  lemma SeenPrefixNext(phase: seq<Name>, excl: Deps, i: nat, seen0: Deps, seen: Deps)
    requires i < |phase| && SeenPrefix(phase, excl, i, seen0)
    requires SeenUpTo(seen, seen0, phase[i], Succ(excl, phase[i]))
    ensures SeenPrefix(phase, excl, i + 1, seen)
  {
    assert phase[..i + 1] == phase[..i] + [phase[i]];
    forall a ensures Succ(seen, a) == if a in phase[..i + 1] then Succ(excl, a) else [] {
      assert Succ(seen, a) == if a == phase[i] then Succ(excl, phase[i]) else Succ(seen0, a);
      assert Succ(seen0, a) == if a in phase[..i] then Succ(excl, a) else [];
    }
  }

  lemma SeenAll(phase: seq<Name>, excl: Deps, seen: Deps, conflicts: map<Name, set<Name>>)
    requires SeenPrefix(phase, excl, |phase|, seen) && ConflictGraph(phase, seen, conflicts)
    ensures ConflictGraph(phase, excl, conflicts)
  {
    assert phase[..|phase|] == phase;
    forall a | a in phase ensures Neighbours(phase, seen, a) == Neighbours(phase, excl, a) {
      forall b | b in phase ensures Conflict(seen, a, b) <==> Conflict(excl, a, b) {
        assert Succ(seen, a) == Succ(excl, a) && Succ(seen, b) == Succ(excl, b);
      }
    }
  }

  method BuildConflicts(phase: seq<Name>, excl: Deps) returns (conflicts: map<Name, set<Name>>)
    requires Distinct(phase)
    ensures ConflictGraph(phase, excl, conflicts)
  {
    conflicts := map a | a in phase :: {};
    ghost var seen: Deps := map[];
    assert conflicts.Keys == Elems(phase);
    assert SeenPrefix(phase, excl, 0, seen) && ConflictGraph(phase, seen, conflicts);
    hide ConflictGraph, SeenUpTo;
    var i := 0;
    while i < |phase|
      invariant 0 <= i <= |phase|
      invariant SeenPrefix(phase, excl, i, seen)
      invariant ConflictGraph(phase, seen, conflicts)
    {
      assert Succ(seen, phase[i]) == [];
      ghost var seen0 := seen;
      conflicts, seen := RecordAll(phase, phase[i], Succ(excl, phase[i]), conflicts, seen);
      SeenPrefixNext(phase, excl, i, seen0, seen);
      i := i + 1;
    }
    SeenAll(phase, excl, seen, conflicts);
  }

  // ---------------------------------------------------------------------
  // Greedy colouring

  ghost function Range(n: nat): set<nat> {
    if n == 0 then {} else Range(n - 1) + {n - 1}
  }

  lemma {:induction false} RangeCard(n: nat)
    ensures |Range(n)| == n
    ensures forall i: nat :: i in Range(n) <==> i < n
  {
    if n > 0 {
      RangeCard(n - 1);
    }
  }

  method FirstFree(used: set<nat>) returns (c: nat)
    ensures c !in used && forall d: nat | d < c :: d in used
  {
    c := 0;
    while c in used
      invariant forall d: nat | d < c :: d in used
      decreases |used| - c
    {
      RangeCard(c + 1);
      SubsetCard(Range(c + 1), used);
      c := c + 1;
    }
  }

  // Colours given so far: conflicting names differ, and each name's colour is
  // the least one its earlier neighbours left free.
  ghost predicate Greedy(done: seq<Name>, conflicts: map<Name, set<Name>>, color: map<Name, nat>) {
    && color.Keys == Elems(done) && Elems(done) <= conflicts.Keys
    && (forall a, b | a in color && b in color && a != b && b in conflicts[a] :: color[a] != color[b])
    && (forall i, c: nat | 0 <= i < |done| && c < color[done[i]] :: Blocked(done, conflicts, color, i, c))
  }

  ghost predicate Blocked(done: seq<Name>, conflicts: map<Name, set<Name>>, color: map<Name, nat>, i: nat, c: nat)
    requires i < |done| && done[i] in conflicts
  {
    exists j :: 0 <= j < i && done[j] in color && BlocksAt(conflicts, color, done[j], done[i], c)
  }

  ghost predicate BlocksAt(conflicts: map<Name, set<Name>>, color: map<Name, nat>, b: Name, a: Name, c: nat)
    requires a in conflicts && b in color
  {
    b in conflicts[a] && b != a && color[b] == c
  }

  ghost predicate Symmetric(conflicts: map<Name, set<Name>>) {
    forall a, b | a in conflicts && b in conflicts :: b in conflicts[a] <==> a in conflicts[b]
  }

  ghost predicate Taken(conflicts: map<Name, set<Name>>, color: map<Name, nat>, a: Name, c: nat)
    requires a in conflicts
  {
    exists b :: b in conflicts[a] && b in color && color[b] == c
  }

  lemma GreedyNext(done: seq<Name>, conflicts: map<Name, set<Name>>, color: map<Name, nat>, name: Name, c: nat)
    requires Greedy(done, conflicts, color) && Symmetric(conflicts)
    requires name in conflicts && name !in color
    requires forall b | b in conflicts[name] && b in color :: color[b] != c
    requires forall d: nat | d < c :: Taken(conflicts, color, name, d)
    ensures Greedy(done + [name], conflicts, color[name := c])
  {
    var done', color' := done + [name], color[name := c];
    assert Elems(done') == Elems(done) + {name};
    forall i, d: nat | 0 <= i < |done'| && d < color'[done'[i]] ensures Blocked(done', conflicts, color', i, d) {
      if i < |done| {
        assert done'[i] == done[i] && done[i] in Elems(done);
        EarlierStays(done, conflicts, color, name, c, i, d);
      } else {
        assert Taken(conflicts, color, name, d);
        var b :| b in conflicts[name] && b in color && color[b] == d;
        assert b in Elems(done);
        var j :| 0 <= j < |done| && done[j] == b;
        assert done'[j] == b && BlocksAt(conflicts, color', done'[j], done'[i], d);
      }
    }
  }

  lemma EarlierStays(done: seq<Name>, conflicts: map<Name, set<Name>>, color: map<Name, nat>, name: Name, c: nat,
                     i: nat, d: nat)
    requires Greedy(done, conflicts, color) && name !in color && i < |done| && d < color[done[i]]
    ensures Blocked(done + [name], conflicts, color[name := c], i, d)
  {
    var done', color' := done + [name], color[name := c];
    assert Blocked(done, conflicts, color, i, d);
    var j :| 0 <= j < i && done[j] in color && BlocksAt(conflicts, color, done[j], done[i], d);
    assert done'[j] == done[j] && done'[i] == done[i];
    assert BlocksAt(conflicts, color', done'[j], done'[i], d);
  }

  // The colours of the neighbours coloured so far. The source starts every
  // colour at -1 and skips negative ones; here such names have no entry.
  method CollectUsed(neighbours: set<Name>, color: map<Name, nat>) returns (used: set<nat>)
    ensures forall c :: c in used <==> exists b :: b in neighbours && b in color && color[b] == c
  {
    used := {};
    var todo := neighbours;
    while todo != {}
      invariant todo <= neighbours
      invariant forall c :: c in used <==> exists b :: b in neighbours && b !in todo && b in color && color[b] == c
    {
      var b :| b in todo;
      ghost var before, todo0 := used, todo;
      todo := todo - {b};
      if b in color { used := used + {color[b]}; }
      forall c ensures c in used <==> exists x :: x in neighbours && x !in todo && x in color && color[x] == c {
        if c in before {
          var x :| x in neighbours && x !in todo0 && x in color && color[x] == c;
          assert x !in todo;
        }
      }
    }
  }

  lemma LowerBlocked(conflicts: map<Name, set<Name>>, color: map<Name, nat>, name: Name, used: set<nat>, c: nat)
    requires name in conflicts && forall d: nat | d < c :: d in used
    requires forall d :: d in used <==> exists b :: b in conflicts[name] && b in color && color[b] == d
    ensures forall d: nat | d < c :: Taken(conflicts, color, name, d)
  {
    forall d: nat | d < c ensures Taken(conflicts, color, name, d) {
      assert d in used;
    }
  }

  lemma NoneColored(conflicts: map<Name, set<Name>>)
    ensures Greedy([], conflicts, map[])
  {
  }

  method ColorPhase(phase: seq<Name>, conflicts: map<Name, set<Name>>) returns (color: map<Name, nat>, maxColor: int)
    requires Distinct(phase) && conflicts.Keys == Elems(phase) && Symmetric(conflicts)
    ensures Greedy(phase, conflicts, color)
    ensures forall a | a in phase :: color[a] <= maxColor
    ensures if phase == [] then maxColor == -1 else exists a :: a in phase && color[a] == maxColor
  {
    color := map[];
    maxColor := -1;
    var i := 0;
    NoneColored(conflicts);
    hide Greedy, Blocked, Symmetric;
    while i < |phase|
      invariant 0 <= i <= |phase|
      invariant color.Keys == Elems(phase[..i])
      invariant Greedy(phase[..i], conflicts, color)
      invariant forall a | a in color :: color[a] <= maxColor
      invariant if i == 0 then maxColor == -1 else exists a :: a in color && color[a] == maxColor
    {
      var name := phase[i];
      assert name in Elems(phase) && name !in phase[..i];
      var used := CollectUsed(conflicts[name], color);
      var c := FirstFree(used);
      LowerBlocked(conflicts, color, name, used, c);
      GreedyNext(phase[..i], conflicts, color, name, c);
      assert phase[..i + 1] == phase[..i] + [name];
      ghost var color0 := color;
      color := color[name := c];
      if c > maxColor {
        maxColor := c;
        assert color[name] == maxColor;
      } else {
        ghost var a :| a in color0 && color0[a] == maxColor;
        assert a in color && color[a] == maxColor;
      }
      i := i + 1;
    }
    assert phase[..i] == phase;
  }

  // ---------------------------------------------------------------------
  // Sub-phases

  ghost function WithColor(phase: seq<Name>, color: map<Name, nat>, c: nat): seq<Name>
    requires Elems(phase) <= color.Keys
  {
    if phase == [] then []
    else
      var last := phase[|phase| - 1];
      assert last in Elems(phase);
      var rest := WithColor(phase[..|phase| - 1], color, c);
      if color[last] == c then rest + [last] else rest
  }

  lemma {:induction false} WithColorElems(phase: seq<Name>, color: map<Name, nat>, c: nat)
    requires Elems(phase) <= color.Keys
    ensures forall a :: a in WithColor(phase, color, c) <==> a in phase && color[a] == c
    ensures Distinct(phase) ==> Distinct(WithColor(phase, color, c))
  {
    if phase != [] {
      var init := phase[..|phase| - 1];
      assert phase == init + [phase[|phase| - 1]];
      assert Elems(init) <= Elems(phase);
      WithColorElems(init, color, c);
    }
  }

  lemma {:induction false} WithColorSorted(phase: seq<Name>, color: map<Name, nat>, c: nat)
    requires Elems(phase) <= color.Keys && Sorted(phase)
    ensures Sorted(WithColor(phase, color, c))
  {
    if phase != [] {
      var init, last := phase[..|phase| - 1], phase[|phase| - 1];
      assert Elems(init) <= Elems(phase);
      WithColorSorted(init, color, c);
      WithColorElems(init, color, c);
      var rest := WithColor(init, color, c);
      forall i | 0 <= i < |rest| ensures StrLe(rest[i], last) {
        assert rest[i] in init;
        var k :| 0 <= k < |init| && init[k] == rest[i];
        assert StrLe(phase[k], phase[|phase| - 1]);
      }
    }
  }

  method GroupByColor(phase: seq<Name>, color: map<Name, nat>, count: nat) returns (subs: seq<seq<Name>>)
    requires Elems(phase) <= color.Keys && forall a | a in phase :: color[a] < count
    ensures |subs| == count
    ensures forall c | 0 <= c < count :: subs[c] == WithColor(phase, color, c)
  {
    subs := seq(count, _ => []);
    var i := 0;
    while i < |phase|
      invariant 0 <= i <= |phase| && |subs| == count
      invariant Elems(phase[..i]) <= Elems(phase)
      invariant forall c | 0 <= c < count :: subs[c] == WithColor(phase[..i], color, c)
    {
      var name := phase[i];
      assert name in Elems(phase);
      assert phase[..i + 1][..i] == phase[..i];
      assert Elems(phase[..i + 1]) <= Elems(phase);
      subs := subs[color[name] := subs[color[name]] + [name]];
      i := i + 1;
    }
    assert phase[..i] == phase;
  }

  lemma GroupsSplit(phase: seq<Name>, excl: Deps, conflicts: map<Name, set<Name>>,
                    color: map<Name, nat>, subs: seq<seq<Name>>, top: Name)
    requires phase != [] && Distinct(phase)
    requires ConflictGraph(phase, excl, conflicts) && Greedy(phase, conflicts, color)
    requires top in phase && color[top] == |subs| - 1
    requires forall a | a in phase :: color[a] < |subs|
    requires forall c | 0 <= c < |subs| :: subs[c] == WithColor(phase, color, c)
    ensures SplitOf(phase, excl, subs)
  {
    assert Elems(phase) <= color.Keys;
    assert forall a | a in phase :: a in color && color[a] < |subs|;
    hide *;
    forall c | 0 <= c < |subs| ensures SubPhaseAt(phase, excl, color, subs, c) {
      OneColor(phase, excl, conflicts, color, subs, c);
    }
    SubPhasesByColor(phase, excl, color, subs);
    FewColors(phase, excl, conflicts, color, top);
    FitsFirst(phase, excl, conflicts, color, subs);
    SplitFrom(phase, excl, color, subs, top);
  }

  ghost predicate SubPhaseAt(phase: seq<Name>, excl: Deps, color: map<Name, nat>, subs: seq<seq<Name>>, c: nat) {
    && c < |subs| && Distinct(subs[c]) && Compatible(excl, subs[c]) && (Sorted(phase) ==> Sorted(subs[c]))
    && forall a :: a in subs[c] <==> a in phase && a in color && color[a] == c
  }

  lemma OneColor(phase: seq<Name>, excl: Deps, conflicts: map<Name, set<Name>>, color: map<Name, nat>,
                 subs: seq<seq<Name>>, c: nat)
    requires Distinct(phase) && ConflictGraph(phase, excl, conflicts) && Greedy(phase, conflicts, color)
    requires Elems(phase) <= color.Keys && c < |subs| && subs[c] == WithColor(phase, color, c)
    ensures SubPhaseAt(phase, excl, color, subs, c)
  {
    WithColorElems(phase, color, c);
    if Sorted(phase) { WithColorSorted(phase, color, c); }
    SameColorCompatible(phase, excl, conflicts, color, subs[c], c);
    hide WithColor, Greedy, ConflictGraph, Compatible, Sorted, Distinct;
  }

  lemma SubPhasesByColor(phase: seq<Name>, excl: Deps, color: map<Name, nat>, subs: seq<seq<Name>>)
    requires forall c | 0 <= c < |subs| :: SubPhaseAt(phase, excl, color, subs, c)
    requires forall a | a in phase :: a in color && color[a] < |subs|
    ensures ByColor(phase, color, subs)
  {
    hide Distinct, Compatible, Sorted;
    forall c, a | 0 <= c < |subs| ensures a in subs[c] <==> a in phase && a in color && color[a] == c {
      assert SubPhaseAt(phase, excl, color, subs, c);
    }
  }

  lemma SplitFrom(phase: seq<Name>, excl: Deps, color: map<Name, nat>, subs: seq<seq<Name>>, top: Name)
    requires forall c | 0 <= c < |subs| :: SubPhaseAt(phase, excl, color, subs, c)
    requires ByColor(phase, color, subs) && FirstFit(phase, excl, subs)
    requires top in phase && top in color && color[top] == |subs| - 1
    requires color[top] <= |Neighbours(phase, excl, top) - {top}|
    ensures SplitOf(phase, excl, subs)
  {
    ColorPartition(phase, excl, color, subs, top);
    assert FewSubPhases(phase, excl, |subs|) by { hide Neighbours, Distinct; }
    hide *;
    forall c | 0 <= c < |subs| ensures Compatible(excl, subs[c]) && (Sorted(phase) ==> Sorted(subs[c])) {
      SubPhaseFacts(phase, excl, color, subs, c);
    }
    SplitParts(phase, excl, subs);
  }

  lemma SubPhaseFacts(phase: seq<Name>, excl: Deps, color: map<Name, nat>, subs: seq<seq<Name>>, c: nat)
    requires SubPhaseAt(phase, excl, color, subs, c)
    ensures c < |subs| && Distinct(subs[c]) && Compatible(excl, subs[c]) && (Sorted(phase) ==> Sorted(subs[c]))
  {
    hide Distinct, Compatible, Sorted;
  }

  lemma SplitParts(phase: seq<Name>, excl: Deps, subs: seq<seq<Name>>)
    requires Partition(phase, subs) && FirstFit(phase, excl, subs) && FewSubPhases(phase, excl, |subs|)
    requires forall c | 0 <= c < |subs| :: Compatible(excl, subs[c]) && (Sorted(phase) ==> Sorted(subs[c]))
    ensures SplitOf(phase, excl, subs)
  {
    hide Partition, FirstFit, FewSubPhases, Compatible, Sorted;
  }

  lemma ColorPartition(phase: seq<Name>, excl: Deps, color: map<Name, nat>, subs: seq<seq<Name>>, top: Name)
    requires forall c | 0 <= c < |subs| :: SubPhaseAt(phase, excl, color, subs, c)
    requires ByColor(phase, color, subs) && FirstFit(phase, excl, subs)
    requires top in phase && top in color && color[top] == |subs| - 1
    ensures Partition(phase, subs)
  {
    AllColored(phase, color, subs);
    hide *;
    forall c | 0 <= c < |subs| ensures Distinct(subs[c]) && subs[c] != [] {
      NoColorEmpty(phase, excl, color, subs, top, c);
      SubPhaseFacts(phase, excl, color, subs, c);
    }
    forall i, a | 0 <= i < |subs| && a in subs[i] ensures a in phase { ItsColor(phase, color, subs, i, a); }
    forall i, j, a | 0 <= i < |subs| && 0 <= j < |subs| && a in subs[i] && a in subs[j] ensures i == j {
      ItsColor(phase, color, subs, i, a);
      ItsColor(phase, color, subs, j, a);
    }
    PartitionParts(phase, subs);
  }

  lemma ItsColor(phase: seq<Name>, color: map<Name, nat>, subs: seq<seq<Name>>, c: nat, a: Name)
    requires ByColor(phase, color, subs) && c < |subs| && a in subs[c]
    ensures a in phase && a in color && color[a] == c
  {
  }

  lemma PartitionParts(phase: seq<Name>, subs: seq<seq<Name>>)
    requires forall c | 0 <= c < |subs| :: Distinct(subs[c]) && subs[c] != []
    requires forall i, a | 0 <= i < |subs| && a in subs[i] :: a in phase
    requires forall a | a in phase :: InSome(subs, a)
    requires forall i, j, a | 0 <= i < |subs| && 0 <= j < |subs| && a in subs[i] && a in subs[j] :: i == j
    ensures Partition(phase, subs)
  {
    hide Distinct, InSome;
  }

  ghost predicate ByColor(phase: seq<Name>, color: map<Name, nat>, subs: seq<seq<Name>>) {
    && (forall a | a in phase :: a in color && color[a] < |subs|)
    && forall c, a | 0 <= c < |subs| :: a in subs[c] <==> a in phase && color[a] == c
  }

  lemma FitsFirst(phase: seq<Name>, excl: Deps, conflicts: map<Name, set<Name>>, color: map<Name, nat>,
                  subs: seq<seq<Name>>)
    requires ConflictGraph(phase, excl, conflicts) && Greedy(phase, conflicts, color) && ByColor(phase, color, subs)
    ensures FirstFit(phase, excl, subs)
  {
    hide Greedy, ConflictGraph, Bars;
    forall c, d, a | 0 <= d < c < |subs| && a in subs[c] ensures BarredFrom(phase, excl, subs[d], a) {
      var b := Barred(phase, excl, conflicts, color, a, d);
      assert b in subs[d];
    }
  }

  lemma NoColorEmpty(phase: seq<Name>, excl: Deps, color: map<Name, nat>, subs: seq<seq<Name>>, top: Name, c: nat)
    requires ByColor(phase, color, subs) && FirstFit(phase, excl, subs) && c < |subs|
    requires top in phase && color[top] == |subs| - 1
    ensures subs[c] != []
  {
    assert top in subs[|subs| - 1];
    hide Bars;
  }

  lemma AllColored(phase: seq<Name>, color: map<Name, nat>, subs: seq<seq<Name>>)
    requires ByColor(phase, color, subs)
    ensures forall a | a in phase :: InSome(subs, a)
  {
    forall a | a in phase ensures InSome(subs, a) {
      assert a in subs[color[a]];
    }
  }

  lemma SameColorCompatible(phase: seq<Name>, excl: Deps, conflicts: map<Name, set<Name>>, color: map<Name, nat>,
                            sub: seq<Name>, c: nat)
    requires ConflictGraph(phase, excl, conflicts) && Greedy(phase, conflicts, color)
    requires forall a :: a in sub <==> a in phase && a in color && color[a] == c
    ensures Compatible(excl, sub)
  {
    forall a, b | a in sub && b in sub && a != b ensures !Conflict(excl, a, b) {
      assert a in conflicts && b in color && color[a] == color[b];
      assert b !in conflicts[a];
    }
  }

  // What bars a name from a lower colour.
  lemma Barred(phase: seq<Name>, excl: Deps, conflicts: map<Name, set<Name>>, color: map<Name, nat>, a: Name, d: nat)
    returns (b: Name)
    requires ConflictGraph(phase, excl, conflicts) && Greedy(phase, conflicts, color)
    requires a in phase && a in color && d < color[a]
    ensures b in phase && b in color && color[b] == d && b != a && Bars(phase, excl, b, a) && b in conflicts[a]
  {
    var i :| 0 <= i < |phase| && phase[i] == a;
    assert Blocked(phase, conflicts, color, i, d);
    var j :| 0 <= j < i && phase[j] in color && BlocksAt(conflicts, color, phase[j], phase[i], d);
    b := phase[j];
  }

  // A name of colour c has a different neighbour of each smaller colour.
  lemma FewColors(phase: seq<Name>, excl: Deps, conflicts: map<Name, set<Name>>, color: map<Name, nat>, top: Name)
    requires ConflictGraph(phase, excl, conflicts) && Greedy(phase, conflicts, color) && top in phase
    ensures color[top] <= |Neighbours(phase, excl, top) - {top}|
  {
    NeighbourColors(Neighbours(phase, excl, top) - {top}, color);
    var seen := ColorsOf(Neighbours(phase, excl, top) - {top}, color);
    forall d: nat | d < color[top] ensures d in seen {
      var b := Barred(phase, excl, conflicts, color, top, d);
      assert b in Neighbours(phase, excl, top) - {top};
    }
    RangeCard(color[top]);
    SubsetCard(Range(color[top]), seen);
  }

  ghost function ColorsOf(names: set<Name>, color: map<Name, nat>): set<nat> {
    set b | b in names && b in color :: color[b]
  }

  lemma {:induction false} NeighbourColors(names: set<Name>, color: map<Name, nat>)
    ensures |ColorsOf(names, color)| <= |names|
    decreases |names|
  {
    if names != {} {
      var b :| b in names;
      var rest := names - {b};
      NeighbourColors(rest, color);
      var here := if b in color then {color[b]} else {};
      assert ColorsOf(names, color) == ColorsOf(rest, color) + here;
    }
  }

  lemma WholePhaseSplit(phase: seq<Name>, excl: Deps)
    requires phase != [] && Distinct(phase) && Compatible(excl, phase)
    ensures SplitOf(phase, excl, [phase])
  {
    assert forall a | a in phase :: a in [phase][0];
    assert forall a | a in phase :: InSome([phase], a);
    assert phase[0] in phase;
    assert FewSubPhases(phase, excl, 1);
  }

  method SplitPhase(phase: seq<Name>, excl: Deps) returns (subs: seq<seq<Name>>)
    requires Distinct(phase)
    ensures SplitOf(phase, excl, subs)
  {
    if |phase| == 0 {
      return [];
    }
    if |phase| == 1 {
      WholePhaseSplit(phase, excl);
      return [phase];
    }
    var conflicts := BuildConflicts(phase, excl);
    var hasConflicts := exists a | a in conflicts :: |conflicts[a]| > 0;
    if !hasConflicts {
      forall a, b | a in phase && b in phase && a != b ensures !Conflict(excl, a, b) {
        assert a in conflicts && |conflicts[a]| == 0;
        assert b !in Neighbours(phase, excl, a);
      }
      WholePhaseSplit(phase, excl);
      return [phase];
    }
    var color, maxColor := ColorPhase(phase, conflicts);
    ghost var top :| top in phase && color[top] == maxColor;
    subs := GroupByColor(phase, color, maxColor + 1);
    GroupsSplit(phase, excl, conflicts, color, subs, top);
  }

  // ---------------------------------------------------------------------
  // The whole order of a section

  // Groups of actions in running order: each action once, dependencies in
  // strictly earlier groups, no exclusion inside a group, and in no group later
  // than levels and exclusions demand.
  ghost predicate ExecutionOrder(actions: set<Name>, r: Rel, excl: Deps, order: seq<seq<Name>>) {
    && (forall i | 0 <= i < |order| :: GroupOk(actions, excl, order[i]))
    && (forall a | a in actions :: InSome(order, a))
    && (forall i, j, a | 0 <= i < |order| && 0 <= j < |order| && a in order[i] && a in order[j] :: i == j)
    && (forall i, j, a, b | 0 <= i < |order| && 0 <= j < |order| && a in order[i] && b in order[j]
          && (a, b) in r :: j < i)
    && exists levels :: ByLevels(r, excl, order, levels)
  }

  // Each group comes from one level of the relation, levels in order; a name is
  // in the first group of its level that holds no smaller name in conflict.
  ghost predicate ByLevels(r: Rel, excl: Deps, order: seq<seq<Name>>, levels: seq<nat>) {
    && |levels| == |order|
    && (forall i, a | 0 <= i < |order| && a in order[i] :: Level(r, a, levels[i]))
    && (forall i, j | 0 <= i < j < |order| :: levels[i] <= levels[j])
    && (forall i | 0 <= i < |order| :: Sorted(order[i]))
    && (forall i, j, a | 0 <= i < j < |order| && levels[i] == levels[j] && a in order[j] ::
          Displaced(excl, order[i], a))
  }

  // The group holds a smaller name in conflict with a.
  ghost predicate Displaced(excl: Deps, group: seq<Name>, a: Name) {
    exists b :: b in group && Conflict(excl, a, b) && StrLe(b, a)
  }

  ghost predicate GroupOk(actions: set<Name>, excl: Deps, group: seq<Name>) {
    && group != [] && Distinct(group) && Compatible(excl, group)
    && forall a | a in group :: a in actions
  }

  // Where each group of the order comes from: phases in order.
  ghost predicate FromPhases(phases: seq<seq<Name>>, excl: Deps, order: seq<seq<Name>>, origin: seq<nat>) {
    && |origin| == |order|
    && (forall i | 0 <= i < |order| ::
          && origin[i] < |phases| && order[i] != [] && Distinct(order[i]) && Compatible(excl, order[i])
          && forall a | a in order[i] :: a in phases[origin[i]])
    && (forall i, j | 0 <= i < j < |order| :: origin[i] <= origin[j])
    && (forall i, j, a | 0 <= i < |order| && 0 <= j < |order| && origin[i] == origin[j]
          && a in order[i] && a in order[j] :: i == j)
  }

  // The groups of one phase are sorted, and filled first to last.
  ghost predicate FilledFirst(phases: seq<seq<Name>>, excl: Deps, order: seq<seq<Name>>, origin: seq<nat>) {
    && |origin| == |order|
    && (forall i | 0 <= i < |order| :: origin[i] < |phases| && Sorted(order[i]))
    && (forall i, j, a | 0 <= i < j < |order| && origin[i] == origin[j] && a in order[j] ::
          BarredFrom(phases[origin[i]], excl, order[i], a))
    && (forall i, j | 0 <= i < j < |order| :: origin[i] <= origin[j])
  }

  ghost predicate Covered(phases: seq<seq<Name>>, order: seq<seq<Name>>) {
    forall k, a | 0 <= k < |phases| && a in phases[k] :: InSome(order, a)
  }

  lemma FromPhasesNext(phases: seq<seq<Name>>, k: nat, excl: Deps, order: seq<seq<Name>>,
                       origin: seq<nat>, subs: seq<seq<Name>>)
    requires k < |phases| && FromPhases(phases[..k], excl, order, origin) && SplitOf(phases[k], excl, subs)
    ensures FromPhases(phases[..k + 1], excl, order + subs, origin + seq(|subs|, _ => k))
  {
    var order', origin' := order + subs, origin + seq(|subs|, _ => k);
    forall i | 0 <= i < |order'|
      ensures origin'[i] <= k && order'[i] != [] && Distinct(order'[i]) && Compatible(excl, order'[i])
      ensures forall a | a in order'[i] :: a in phases[..k + 1][origin'[i]]
      ensures i < |order| <==> origin'[i] < k
    {
      if i < |order| { assert order'[i] == order[i] && phases[..k][origin[i]] == phases[..k + 1][origin[i]]; }
    }
    forall i, j, a | 0 <= i < |order'| && 0 <= j < |order'| && origin'[i] == origin'[j]
      && a in order'[i] && a in order'[j] ensures i == j
    {
      if i < |order| {
        assert order[i] == order'[i] && order[j] == order'[j];
      } else {
        assert subs[i - |order|] == order'[i] && subs[j - |order|] == order'[j];
      }
    }
  }

  lemma FilledNext(phases: seq<seq<Name>>, k: nat, excl: Deps, order: seq<seq<Name>>,
                   origin: seq<nat>, subs: seq<seq<Name>>)
    requires k < |phases| && FilledFirst(phases[..k], excl, order, origin) && SplitOf(phases[k], excl, subs)
    requires Sorted(phases[k])
    ensures FilledFirst(phases[..k + 1], excl, order + subs, origin + seq(|subs|, _ => k))
  {
    var order', origin' := order + subs, origin + seq(|subs|, _ => k);
    hide Sorted, Partition, FewSubPhases, Compatible, BarredFrom;
    forall i | 0 <= i < |order'| ensures origin'[i] <= k && Sorted(order'[i]) && (i < |order| <==> origin'[i] < k) {
      if i < |order| { assert order'[i] == order[i]; } else { assert order'[i] == subs[i - |order|]; }
    }
    forall i, j, a | 0 <= i < j < |order'| && origin'[i] == origin'[j] && a in order'[j]
      ensures BarredFrom(phases[..k + 1][origin'[i]], excl, order'[i], a)
    {
      if j < |order| {
        assert order'[i] == order[i] && order'[j] == order[j] && phases[..k][origin[i]] == phases[..k + 1][origin[i]];
      } else {
        assert order'[i] == subs[i - |order|] && order'[j] == subs[j - |order|];
      }
    }
  }

  lemma CoveredNext(phases: seq<seq<Name>>, k: nat, excl: Deps, order: seq<seq<Name>>, subs: seq<seq<Name>>)
    requires k < |phases| && Covered(phases[..k], order) && SplitOf(phases[k], excl, subs)
    ensures Covered(phases[..k + 1], order + subs)
  {
    forall l, a | 0 <= l < k + 1 && a in phases[l] ensures InSome(order + subs, a) {
      if l < k {
        assert phases[..k][l] == phases[l] && InSome(order, a);
        var i :| 0 <= i < |order| && a in order[i];
        assert a in (order + subs)[i];
      } else {
        var i :| 0 <= i < |subs| && a in subs[i];
        assert a in (order + subs)[|order| + i];
      }
    }
  }

  method SplitPhases(phases: seq<seq<Name>>, excl: Deps) returns (order: seq<seq<Name>>, ghost origin: seq<nat>)
    requires forall k | 0 <= k < |phases| :: Distinct(phases[k]) && Sorted(phases[k])
    ensures FromPhases(phases, excl, order, origin) && Covered(phases, order)
    ensures FilledFirst(phases, excl, order, origin)
  {
    order, origin := [], [];
    assert FromPhases(phases[..0], excl, order, origin) && Covered(phases[..0], order);
    assert FilledFirst(phases[..0], excl, order, origin);
    hide FromPhases, Covered, SplitOf, FilledFirst, Sorted;
    var k := 0;
    while k < |phases|
      invariant 0 <= k <= |phases|
      invariant FromPhases(phases[..k], excl, order, origin)
      invariant Covered(phases[..k], order)
      invariant FilledFirst(phases[..k], excl, order, origin)
    {
      var subs := SplitPhase(phases[k], excl);
      FromPhasesNext(phases, k, excl, order, origin, subs);
      CoveredNext(phases, k, excl, order, subs);
      FilledNext(phases, k, excl, order, origin, subs);
      order, origin := order + subs, origin + seq(|subs|, _ => k);
      k := k + 1;
    }
    assert phases[..k] == phases;
  }

  lemma EarlierOrigin(origin: seq<nat>, i: nat, j: nat)
    requires i < |origin| && j < |origin| && origin[j] < origin[i]
    requires forall i, j | 0 <= i < j < |origin| :: origin[i] <= origin[j]
    ensures j < i
  {
  }

  lemma OrderFromPhases(actions: set<Name>, r: Rel, excl: Deps, phases: seq<seq<Name>>,
                        order: seq<seq<Name>>, origin: seq<nat>)
    requires PhasesOf(actions, r, phases)
    requires FromPhases(phases, excl, order, origin) && Covered(phases, order)
    requires FilledFirst(phases, excl, order, origin)
    ensures ExecutionOrder(actions, r, excl, order)
  {
    forall a | a in actions ensures InSome(order, a) {
      var k := PhaseAt(actions, r, phases, a);
    }
    forall i, a | 0 <= i < |order| && a in order[i] ensures a in actions && Level(r, a, origin[i]) {
      assert a in phases[origin[i]];
      assert IsPhase(actions, r, origin[i], phases[origin[i]]);
    }
    LevelsFilled(actions, r, excl, phases, order, origin);
    hide FilledFirst, PhasesOf, Level, ByLevels, Covered;
    forall i, j, a | 0 <= i < |order| && 0 <= j < |order| && a in order[i] && a in order[j] ensures i == j {
      LevelUnique(r, a, origin[i], origin[j]);
    }
    forall i, j, a, b | 0 <= i < |order| && 0 <= j < |order| && a in order[i] && b in order[j]
      && (a, b) in r ensures j < i
    {
      LevelDrops(r, a, b, origin[i], origin[j]);
      EarlierOrigin(origin, i, j);
    }
  }

  lemma LevelsFilled(actions: set<Name>, r: Rel, excl: Deps, phases: seq<seq<Name>>, order: seq<seq<Name>>,
                     origin: seq<nat>)
    requires PhasesOf(actions, r, phases) && FilledFirst(phases, excl, order, origin)
    requires forall i, a | 0 <= i < |order| && a in order[i] :: Level(r, a, origin[i])
    ensures ByLevels(r, excl, order, origin)
  {
    hide Level;
    forall i, j, a | 0 <= i < j < |order| && origin[i] == origin[j] && a in order[j]
      ensures Displaced(excl, order[i], a)
    {
      assert BarredFrom(phases[origin[i]], excl, order[i], a);
      var b :| b in order[i] && Bars(phases[origin[i]], excl, b, a);
      assert IsPhase(actions, r, origin[i], phases[origin[i]]);
      assert StrLe(b, a);
    }
  }

  // From a section's dependencies to its running order, as in BuildGraph.
  method ComputeOrder(actions: set<Name>, deps: Deps, excl: Deps) returns (res: Result<seq<seq<Name>>, string>)
    requires deps.Keys <= actions
    ensures res.Err? <==> Cyclic(SectionRel(actions, deps))
    ensures res.Ok? ==> ExecutionOrder(actions, SectionRel(actions, deps), excl, res.value)
  {
    var phases := ComputeExecutionPhases(actions, deps);
    if phases.Err? {
      return phases;
    }
    assert forall k | 0 <= k < |phases.value| :: IsPhase(actions, SectionRel(actions, deps), k, phases.value[k]);
    var order, origin := SplitPhases(phases.value, excl);
    OrderFromPhases(actions, SectionRel(actions, deps), excl, phases.value, order, origin);
    return Ok(order);
  }
}
