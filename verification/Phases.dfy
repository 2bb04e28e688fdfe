/** Level-by-level topological sorting of a section (graph.go,
    computeExecutionPhases). */
module Phases {
  import opened Base
  import opened Digraph
  import CycleCheck

  // The in-section dependency relation.
  ghost function SectionRel(actions: set<Name>, deps: Deps): Rel {
    Within(actions, EdgesOf(deps))
  }

  // The phases are the levels: a name's phase index is the length of its
  // longest dependency chain; each phase is sorted, and no phase is empty.
  ghost predicate PhasesOf(actions: set<Name>, r: Rel, phases: seq<seq<Name>>) {
    && PhasesSoFar(actions, r, phases)
    && (forall a | a in actions :: !HasWalk(r, a, |phases|))
  }

  ghost predicate PhasesSoFar(actions: set<Name>, r: Rel, phases: seq<seq<Name>>) {
    forall k | 0 <= k < |phases| :: IsPhase(actions, r, k, phases[k])
  }

  ghost predicate IsPhase(actions: set<Name>, r: Rel, k: nat, phase: seq<Name>) {
    && (forall a :: a in phase <==> a in actions && Level(r, a, k))
    && phase != [] && Distinct(phase) && Sorted(phase)
  }

  lemma AddPhase(actions: set<Name>, r: Rel, phases: seq<seq<Name>>, phase: seq<Name>)
    requires PhasesSoFar(actions, r, phases) && IsPhase(actions, r, |phases|, phase)
    ensures PhasesSoFar(actions, r, phases + [phase])
  {
  }

  lemma PhaseAt(actions: set<Name>, r: Rel, phases: seq<seq<Name>>, a: Name) returns (k: nat)
    requires PhasesOf(actions, r, phases) && a in actions
    ensures k < |phases| && a in phases[k]
    ensures Level(r, a, k)
    ensures forall j | 0 <= j < |phases| && a in phases[j] :: j == k
  {
    k := 0;
    while HasWalk(r, a, k + 1)
      invariant k < |phases| && HasWalk(r, a, k)
      decreases |phases| - k
    {
      k := k + 1;
      PhaseBound(actions, r, phases, a, k);
    }
    forall j | 0 <= j < |phases| && a in phases[j] ensures j == k { LevelUnique(r, a, j, k); }
  }

  lemma PhaseBound(actions: set<Name>, r: Rel, phases: seq<seq<Name>>, a: Name, k: nat)
    requires PhasesOf(actions, r, phases) && a in actions && HasWalk(r, a, k)
    ensures k < |phases|
  {
    if |phases| <= k { HasWalkShorter(r, a, |phases|, k); }
  }

  // The conditions leave one answer, so map order cannot show.
  lemma PhasesUnique(actions: set<Name>, r: Rel, p: seq<seq<Name>>, q: seq<seq<Name>>)
    requires PhasesOf(actions, r, p) && PhasesOf(actions, r, q)
    ensures p == q
  {
    PhasesNoLonger(actions, r, p, q);
    PhasesNoLonger(actions, r, q, p);
    forall k | 0 <= k < |p| ensures p[k] == q[k] {
      forall a ensures a in p[k] <==> a in q[k] {
        assert a in p[k] <==> a in actions && Level(r, a, k);
        assert a in q[k] <==> a in actions && Level(r, a, k);
      }
      assert Elems(p[k]) == Elems(q[k]);
      DistinctMultiset(p[k]);
      DistinctMultiset(q[k]);
      SortedUnique(p[k], q[k]);
    }
  }

  lemma PhasesNoLonger(actions: set<Name>, r: Rel, p: seq<seq<Name>>, q: seq<seq<Name>>)
    requires PhasesOf(actions, r, p) && PhasesOf(actions, r, q)
    ensures |p| <= |q|
  {
    if |p| > 0 {
      var a := p[|p| - 1][0];
      assert a in p[|p| - 1];
      PhaseBound(actions, r, q, a, |p| - 1);
    }
  }

  // If a transitively depends on b, a's phase comes strictly later.
  lemma DependencyLater(actions: set<Name>, r: Rel, phases: seq<seq<Name>>, w: seq<Name>, i: nat, j: nat)
    requires PhasesOf(actions, r, phases) && !Cyclic(r)
    requires Walk(r, w) && |w| > 1
    requires i < |phases| && j < |phases| && w[0] in phases[i] && w[|w| - 1] in phases[j]
    ensures j < i
  {
    LevelDropsAlongWalk(r, w, i, j);
  }

  // ---------------------------------------------------------------------
  // In-degrees

  ghost function Occurs(s: seq<Name>, x: Name): nat {
    if s == [] then 0
    else (if s[|s| - 1] == x then 1 else 0) + Occurs(s[..|s| - 1], x)
  }

  lemma OccursSnoc(s: seq<Name>, y: Name, x: Name)
    ensures Occurs(s + [y], x) == Occurs(s, x) + (if x == y then 1 else 0)
  {
    assert (s + [y])[..|s|] == s;
  }

  // The entries of ds that are still live.
  ghost function Waiting(ds: seq<Name>, live: set<Name>): nat {
    if ds == [] then 0
    else (if ds[|ds| - 1] in live then 1 else 0) + Waiting(ds[..|ds| - 1], live)
  }

  lemma {:induction false} WaitingRemove(ds: seq<Name>, live: set<Name>, x: Name)
    requires x in live
    ensures Waiting(ds, live) == Waiting(ds, live - {x}) + Occurs(ds, x)
  {
    if ds != [] {
      WaitingRemove(ds[..|ds| - 1], live, x);
    }
  }

  lemma {:induction false} WaitingZero(ds: seq<Name>, live: set<Name>)
    ensures Waiting(ds, live) == 0 <==> forall d | d in ds :: d !in live
  {
    if ds != [] {
      WaitingZero(ds[..|ds| - 1], live);
      assert ds == ds[..|ds| - 1] + [ds[|ds| - 1]];
    }
  }

  ghost predicate Counted(deps: Deps, live: set<Name>, inDegree: map<Name, int>) {
    && inDegree.Keys == live
    && forall n | n in live :: inDegree[n] == Waiting(Succ(deps, n), live)
  }

  // dependents is the converse of the in-section part of deps, with multiplicity.
  ghost predicate Mirrored(actions: set<Name>, deps: Deps, dependents: Deps) {
    forall d, n :: MirroredAt(actions, deps, dependents, d, n)
  }

  ghost predicate MirroredAt(actions: set<Name>, deps: Deps, dependents: Deps, d: Name, n: Name) {
    Occurs(Succ(dependents, d), n) == if d in actions then Occurs(Succ(deps, n), d) else 0
  }

  function AddDep(deps: Deps, name: Name, dep: Name): Deps {
    deps[name := Succ(deps, name) + [dep]]
  }

  lemma CountedAdd(deps: Deps, actions: set<Name>, inDegree: map<Name, int>, name: Name, dep: Name)
    requires Counted(deps, actions, inDegree) && name in actions
    ensures Counted(AddDep(deps, name, dep), actions,
                    if dep in actions then inDegree[name := inDegree[name] + 1] else inDegree)
  {
    var ds := Succ(deps, name) + [dep];
    assert ds[..|ds| - 1] == Succ(deps, name);
  }

  lemma MirroredAdd(deps: Deps, actions: set<Name>, dependents: Deps, name: Name, dep: Name)
    requires Mirrored(actions, deps, dependents)
    ensures Mirrored(actions, AddDep(deps, name, dep),
                     if dep in actions then AddDep(dependents, dep, name) else dependents)
  {
    var dependents' := if dep in actions then AddDep(dependents, dep, name) else dependents;
    forall d, n ensures MirroredAt(actions, AddDep(deps, name, dep), dependents', d, n) {
      assert MirroredAt(actions, deps, dependents, d, n);
      OccursAdd(deps, name, dep, n, d);
      OccursAdd(dependents, dep, name, d, n);
      hide Occurs, Succ, AddDep;
    }
  }

  // How often x occurs in a list of a table with one more entry.
  lemma OccursAdd(deps: Deps, name: Name, dep: Name, n: Name, x: Name)
    ensures Occurs(Succ(AddDep(deps, name, dep), n), x)
            == Occurs(Succ(deps, n), x) + (if n == name && x == dep then 1 else 0)
  {
    OccursSnoc(Succ(deps, name), dep, x);
    hide Occurs;
  }

  // Both tables reflect the adjacency lists seen so far.
  ghost predicate Tally(actions: set<Name>, seen: Deps, inDegree: map<Name, int>, dependents: Deps) {
    && Counted(seen, actions, inDegree)
    && Mirrored(actions, seen, dependents)
  }

  // What has been seen: name's list up to here, the other lists as before.
  ghost predicate SeenUpTo(seen: Deps, seen0: Deps, name: Name, list: seq<Name>) {
    forall a :: Succ(seen, a) == if a == name then list else Succ(seen0, a)
  }

  lemma SeenNext(seen: Deps, seen0: Deps, name: Name, list: seq<Name>, i: nat)
    requires i < |list| && SeenUpTo(seen, seen0, name, list[..i])
    ensures SeenUpTo(AddDep(seen, name, list[i]), seen0, name, list[..i + 1])
  {
    assert list[..i + 1] == list[..i] + [list[i]];
    var next := AddDep(seen, name, list[i]);
    forall a ensures Succ(next, a) == if a == name then list[..i + 1] else Succ(seen0, a) {
      assert Succ(seen, a) == if a == name then list[..i] else Succ(seen0, a);
    }
  }

  // Record one dependency of name.
  method CountDep(actions: set<Name>, name: Name, dep: Name,
                  inDegree0: map<Name, int>, dependents0: Deps, ghost seen: Deps)
    returns (inDegree: map<Name, int>, dependents: Deps)
    requires name in actions && Tally(actions, seen, inDegree0, dependents0)
    ensures Tally(actions, AddDep(seen, name, dep), inDegree, dependents)
  {
    CountedAdd(seen, actions, inDegree0, name, dep);
    MirroredAdd(seen, actions, dependents0, name, dep);
    inDegree, dependents := inDegree0, dependents0;
    assert name in inDegree;
    hide Counted, Mirrored;
    if dep in actions {
      inDegree := inDegree[name := inDegree[name] + 1];
      dependents := AddDep(dependents, dep, name);
    }
  }

  method CountDeps(actions: set<Name>, name: Name, list: seq<Name>,
                   inDegree0: map<Name, int>, dependents0: Deps, ghost seen0: Deps)
    returns (inDegree: map<Name, int>, dependents: Deps, ghost seen: Deps)
    requires name in actions && Succ(seen0, name) == []
    requires Tally(actions, seen0, inDegree0, dependents0)
    ensures Tally(actions, seen, inDegree, dependents)
    ensures SeenUpTo(seen, seen0, name, list)
  {
    inDegree, dependents, seen := inDegree0, dependents0, seen0;
    var i := 0;
    assert SeenUpTo(seen, seen0, name, list[..i]);
    hide *;
    while i < |list|
      invariant 0 <= i <= |list|
      invariant SeenUpTo(seen, seen0, name, list[..i])
      invariant Tally(actions, seen, inDegree, dependents)
    {
      inDegree, dependents := CountDep(actions, name, list[i], inDegree, dependents, seen);
      SeenNext(seen, seen0, name, list, i);
      seen := AddDep(seen, name, list[i]);
      i := i + 1;
    }
    assert list[..i] == list;
  }

  // Count in-section dependencies and record dependents.
  method BuildInDegrees(actions: set<Name>, deps: Deps)
    returns (inDegree: map<Name, int>, dependents: Deps)
    requires deps.Keys <= actions
    ensures Tally(actions, deps, inDegree, dependents)
  {
    inDegree := map a | a in actions :: 0;
    dependents := map[];
    ghost var seen: Deps := map[];
    var todo := deps.Keys;
    while todo != {}
      invariant todo <= deps.Keys
      invariant forall a :: Succ(seen, a) == if a in todo then [] else Succ(deps, a)
      invariant Tally(actions, seen, inDegree, dependents)
    {
      var name :| name in todo;
      todo := todo - {name};
      inDegree, dependents, seen := CountDeps(actions, name, deps[name], inDegree, dependents, seen);
    }
    SameSucc(actions, seen, deps, inDegree, dependents);
  }

  lemma SameSucc(actions: set<Name>, seen: Deps, deps: Deps, inDegree: map<Name, int>, dependents: Deps)
    requires Counted(seen, actions, inDegree) && Mirrored(actions, seen, dependents)
    requires forall a :: Succ(seen, a) == Succ(deps, a)
    ensures Counted(deps, actions, inDegree) && Mirrored(actions, deps, dependents)
  {
    forall d, n ensures MirroredAt(actions, deps, dependents, d, n) {
      assert MirroredAt(actions, seen, dependents, d, n);
    }
  }

  method ZeroInDegree(inDegree: map<Name, int>) returns (phase: seq<Name>)
    ensures Distinct(phase)
    ensures forall n :: n in phase <==> n in inDegree && inDegree[n] == 0
  {
    phase := [];
    var todo := inDegree.Keys;
    while todo != {}
      invariant todo <= inDegree.Keys && Distinct(phase)
      invariant forall n :: n in phase <==> n in inDegree && n !in todo && inDegree[n] == 0
    {
      var name :| name in todo;
      todo := todo - {name};
      if inDegree[name] == 0 { phase := phase + [name]; }
    }
  }

  // Remove one name: its dependents wait for one entry less.
  method RemoveName(name: Name, inDegree0: map<Name, int>, dependents: Deps,
                    ghost deps: Deps, ghost actions: set<Name>)
    returns (inDegree: map<Name, int>)
    requires name in inDegree0 && inDegree0.Keys <= actions
    requires Counted(deps, inDegree0.Keys, inDegree0) && Mirrored(actions, deps, dependents)
    ensures Counted(deps, inDegree0.Keys - {name}, inDegree)
  {
    inDegree := inDegree0 - {name};
    var list := Succ(dependents, name);
    NoneOccurs(list);
    var i := 0;
    while i < |list|
      invariant 0 <= i <= |list|
      invariant inDegree.Keys == inDegree0.Keys - {name}
      invariant forall n | n in inDegree :: inDegree[n] == inDegree0[n] - Occurs(list[..i], n)
    {
      hide *;
      OneMoreOccurs(list, i);
      if list[i] in inDegree {
        inDegree := inDegree[list[i] := inDegree[list[i]] - 1];
      }
      i := i + 1;
    }
    assert list[..i] == list;
    hide *;
    RemovedCounted(name, inDegree0, inDegree, dependents, deps, actions);
  }

  lemma OneMoreOccurs(list: seq<Name>, i: nat)
    requires i < |list|
    ensures forall n :: Occurs(list[..i + 1], n) == Occurs(list[..i], n) + (if n == list[i] then 1 else 0)
  {
    assert list[..i + 1] == list[..i] + [list[i]];
    hide Occurs;
    forall n ensures Occurs(list[..i + 1], n) == Occurs(list[..i], n) + (if n == list[i] then 1 else 0) {
      OccursSnoc(list[..i], list[i], n);
    }
  }

  lemma NoneOccurs(list: seq<Name>)
    ensures forall n :: Occurs(list[..0], n) == 0
  {
  }

  lemma RemovedCounted(name: Name, inDegree0: map<Name, int>, inDegree: map<Name, int>, dependents: Deps,
                       deps: Deps, actions: set<Name>)
    requires name in inDegree0 && inDegree0.Keys <= actions
    requires Counted(deps, inDegree0.Keys, inDegree0) && Mirrored(actions, deps, dependents)
    requires inDegree.Keys == inDegree0.Keys - {name}
    requires forall n | n in inDegree :: inDegree[n] == inDegree0[n] - Occurs(Succ(dependents, name), n)
    ensures Counted(deps, inDegree0.Keys - {name}, inDegree)
  {
    hide Waiting, Occurs, Succ;
    forall n | n in inDegree ensures inDegree[n] == Waiting(Succ(deps, n), inDegree0.Keys - {name}) {
      WaitingRemove(Succ(deps, n), inDegree0.Keys, name);
      assert MirroredAt(actions, deps, dependents, name, n);
    }
  }

  method RemovePhase(phase: seq<Name>, inDegree0: map<Name, int>, dependents: Deps,
                     ghost deps: Deps, ghost actions: set<Name>)
    returns (inDegree: map<Name, int>)
    requires Distinct(phase) && Elems(phase) <= inDegree0.Keys <= actions
    requires Counted(deps, inDegree0.Keys, inDegree0) && Mirrored(actions, deps, dependents)
    ensures Counted(deps, inDegree0.Keys - Elems(phase), inDegree)
  {
    inDegree := inDegree0;
    var i := 0;
    while i < |phase|
      invariant 0 <= i <= |phase|
      invariant Counted(deps, inDegree0.Keys - Elems(phase[..i]), inDegree)
    {
      assert phase[i] in Elems(phase);
      assert Elems(phase[..i + 1]) == Elems(phase[..i]) + {phase[i]};
      inDegree := RemoveName(phase[i], inDegree, dependents, deps, actions);
      assert inDegree.Keys == inDegree0.Keys - Elems(phase[..i + 1]);
      i := i + 1;
    }
    assert phase[..i] == phase;
  }

  // ---------------------------------------------------------------------
  // Levels and rounds

  // What is left before round k: the names with a chain of k steps.
  ghost function Remaining(actions: set<Name>, r: Rel, k: nat): set<Name> {
    set a | a in actions && HasWalk(r, a, k)
  }

  lemma ReadyIsLevel(actions: set<Name>, deps: Deps, k: nat, inDegree: map<Name, int>, a: Name)
    requires Counted(deps, Remaining(actions, SectionRel(actions, deps), k), inDegree)
    ensures a in inDegree && inDegree[a] == 0 <==> a in actions && Level(SectionRel(actions, deps), a, k)
  {
    var r := SectionRel(actions, deps);
    if a in inDegree {
      WaitingZero(Succ(deps, a), inDegree.Keys);
      if HasWalk(r, a, k + 1) {
        var b :| (a, b) in r && HasWalk(r, b, k);
        assert b in inDegree && b in Succ(deps, a);
      }
      forall d | d in Succ(deps, a) && d in inDegree ensures HasWalk(r, a, k + 1) {
        assert (a, d) in r && HasWalk(r, d, k);
      }
    }
  }

  ghost predicate Waits(r: Rel, live: set<Name>, x: Name) {
    exists y :: (x, y) in r && y in live
  }

  // If every remaining name waits for another, chains never end.
  lemma {:induction false} StuckForever(r: Rel, live: set<Name>, a: Name, n: nat)
    requires a in live
    requires forall x | x in live :: Waits(r, live, x)
    ensures HasWalk(r, a, n)
    decreases n
  {
    if n > 0 {
      var b :| (a, b) in r && b in live;
      StuckForever(r, live, b, n - 1);
    }
  }

  lemma StuckCyclic(actions: set<Name>, r: Rel, k: nat)
    requires Remaining(actions, r, k) != {}
    requires forall e | e in r :: e.1 in actions
    requires forall a | a in Remaining(actions, r, k) :: HasWalk(r, a, k + 1)
    ensures Cyclic(r)
  {
    var live := Remaining(actions, r, k);
    forall x | x in live ensures Waits(r, live, x) {
      var y :| (x, y) in r && HasWalk(r, y, k);
      assert y in live;
    }
    var a :| a in live;
    StuckForever(r, live, a, |Sources(r)| + 1);
    var p := WalkOf(r, a, |Sources(r)| + 1);
    LongWalkCyclic(r, p);
  }

  lemma CyclicNeverDrains(actions: set<Name>, deps: Deps, k: nat)
    requires Cyclic(SectionRel(actions, deps))
    ensures Remaining(actions, SectionRel(actions, deps), k) != {}
  {
    var r := SectionRel(actions, deps);
    var p :| ClosedWalk(r, p);
    CycleWalksForever(r, p, 0, k);
    assert (p[0], p[1]) in r;
    assert p[0] in Remaining(actions, r, k);
  }

  lemma NextRemaining(actions: set<Name>, r: Rel, k: nat, phase: seq<Name>)
    requires forall a :: a in phase <==> a in actions && Level(r, a, k)
    ensures Remaining(actions, r, k) - Elems(phase) == Remaining(actions, r, k + 1)
    ensures Elems(phase) <= Remaining(actions, r, k)
  {
    forall a | a in Remaining(actions, r, k + 1) ensures a in Remaining(actions, r, k) {
      HasWalkShorter(r, a, k, k + 1);
    }
  }

  // The zero in-degree names are the next phase; there are none only in a cycle.
  lemma ReadyNames(actions: set<Name>, deps: Deps, k: nat, inDegree: map<Name, int>, ready: seq<Name>)
    requires Counted(deps, Remaining(actions, SectionRel(actions, deps), k), inDegree)
    requires inDegree.Keys != {} && Distinct(ready)
    requires forall n :: n in ready <==> n in inDegree && inDegree[n] == 0
    ensures ready == [] ==> Cyclic(SectionRel(actions, deps))
    ensures ready != [] ==> IsPhase(actions, SectionRel(actions, deps), k, SortStrings(ready))
  {
    var r := SectionRel(actions, deps);
    forall a ensures a in ready <==> a in actions && Level(r, a, k) {
      ReadyIsLevel(actions, deps, k, inDegree, a);
    }
    if ready == [] {
      forall a | a in Remaining(actions, r, k) ensures HasWalk(r, a, k + 1) {
        assert a !in ready;
      }
      StuckCyclic(actions, r, k);
    } else {
      SortStringsDistinct(ready);
      assert forall a :: a in SortStrings(ready) <==> a in Elems(ready);
      assert ready[0] in SortStrings(ready);
    }
  }

  // The tables before round k: what remains, and what it waits for.
  ghost predicate Round(actions: set<Name>, deps: Deps, k: nat, inDegree: map<Name, int>, dependents: Deps) {
    && Counted(deps, Remaining(actions, SectionRel(actions, deps), k), inDegree)
    && Mirrored(actions, deps, dependents)
  }

  // One round of the loop: the next phase, and the tables without it.
  method NextPhase(actions: set<Name>, deps: Deps, ghost k: nat,
                   inDegree0: map<Name, int>, dependents: Deps)
    returns (phase: seq<Name>, inDegree: map<Name, int>)
    requires Round(actions, deps, k, inDegree0, dependents) && inDegree0.Keys != {}
    ensures phase == [] ==> Cyclic(SectionRel(actions, deps))
    ensures phase != [] ==> IsPhase(actions, SectionRel(actions, deps), k, phase)
    ensures phase != [] ==> Round(actions, deps, k + 1, inDegree, dependents)
    ensures |inDegree0| == |inDegree| + |phase|
  {
    ghost var r := SectionRel(actions, deps);
    phase := ZeroInDegree(inDegree0);
    inDegree := inDegree0;
    ReadyNames(actions, deps, k, inDegree0, phase);
    if |phase| != 0 {
      phase := SortStrings(phase);
      NextRemaining(actions, r, k, phase);
      DistinctCard(phase);
      assert inDegree0.Keys == (inDegree0.Keys - Elems(phase)) + Elems(phase);
      inDegree := RemovePhase(phase, inDegree0, dependents, deps, actions);
      assert |inDegree| == |inDegree.Keys|;
    }
  }

  lemma AllRemain(actions: set<Name>, deps: Deps, inDegree: map<Name, int>, dependents: Deps)
    requires Tally(actions, deps, inDegree, dependents)
    ensures Round(actions, deps, 0, inDegree, dependents) && |inDegree| == |actions|
    ensures PhasesSoFar(actions, SectionRel(actions, deps), [])
  {
    assert |inDegree| == |inDegree.Keys|;
    assert Remaining(actions, SectionRel(actions, deps), 0) == actions;
  }

  lemma NoneRemain(actions: set<Name>, deps: Deps, k: nat)
    requires Remaining(actions, SectionRel(actions, deps), k) == {}
    ensures !Cyclic(SectionRel(actions, deps))
    ensures forall a | a in actions :: !HasWalk(SectionRel(actions, deps), a, k)
  {
    if Cyclic(SectionRel(actions, deps)) { CyclicNeverDrains(actions, deps, k); }
    forall a | a in actions ensures !HasWalk(SectionRel(actions, deps), a, k) {
      assert a !in Remaining(actions, SectionRel(actions, deps), k);
    }
  }

  lemma EmptySection(actions: set<Name>, deps: Deps)
    requires |actions| == 0
    ensures !Cyclic(SectionRel(actions, deps)) && PhasesOf(actions, SectionRel(actions, deps), [])
  {
    NoneRemain(actions, deps, 0);
  }

  lemma Complete(actions: set<Name>, deps: Deps, inDegree: map<Name, int>, dependents: Deps,
                 phases: seq<seq<Name>>)
    requires Round(actions, deps, |phases|, inDegree, dependents) && |inDegree| == 0
    requires PhasesSoFar(actions, SectionRel(actions, deps), phases)
    ensures !Cyclic(SectionRel(actions, deps))
    ensures PhasesOf(actions, SectionRel(actions, deps), phases)
  {
    assert inDegree.Keys == {};
    NoneRemain(actions, deps, |phases|);
  }

  method ComputeExecutionPhases(actions: set<Name>, deps: Deps)
    returns (res: Result<seq<seq<Name>>, string>)
    requires deps.Keys <= actions
    ensures res.Err? <==> Cyclic(SectionRel(actions, deps))
    ensures res.Ok? ==> PhasesOf(actions, SectionRel(actions, deps), res.value)
  {
    hide *;
    if |actions| == 0 {
      EmptySection(actions, deps);
      return Ok([]);
    }
    var inDegree, dependents := BuildInDegrees(actions, deps);
    AllRemain(actions, deps, inDegree, dependents);
    var phases: seq<seq<Name>> := [];
    var remaining := |actions|;
    while remaining > 0
      invariant Round(actions, deps, |phases|, inDegree, dependents)
      invariant remaining == |inDegree|
      invariant PhasesSoFar(actions, SectionRel(actions, deps), phases)
    {
      var phase;
      phase, inDegree := NextPhase(actions, deps, |phases|, inDegree, dependents);
      if |phase| == 0 {
        return Err("cycle detected in action dependencies");
      }
      remaining := remaining - |phase|;
      AddPhase(actions, SectionRel(actions, deps), phases, phase);
      phases := phases + [phase];
    }
    Complete(actions, deps, inDegree, dependents, phases);
    return Ok(phases);
  }

  // The validator's check and the scheduler's error agree: both come down to
  // the same relation having a cycle (CycleCheck.FindCycle is the other side).
  lemma CycleChecksAgree(deps: Deps)
    ensures Cyclic(SectionRel(deps.Keys, deps)) <==> Cyclic(EdgesOf(deps))
  {
    forall a | a in Sources(EdgesOf(deps)) ensures a in deps.Keys {
      var e :| e in EdgesOf(deps) && e.0 == a;
    }
    CycleStaysWithin(deps.Keys, EdgesOf(deps));
  }

  // Run on the same dependencies, the validator's check reports nothing exactly
  // when the scheduler's sort succeeds.
  method RunBothChecks(deps: Deps) returns (cycle: Option<seq<Name>>, phases: Result<seq<seq<Name>>, string>)
    ensures cycle.None? <==> phases.Ok?
    ensures cycle.Some? ==> CycleCheck.ReportedCycle(EdgesOf(deps), cycle.value)
    ensures phases.Ok? ==> PhasesOf(deps.Keys, SectionRel(deps.Keys, deps), phases.value)
  {
    CycleChecksAgree(deps);
    hide *;
    cycle := CycleCheck.FindCycle(deps);
    phases := ComputeExecutionPhases(deps.Keys, deps);
  }
}
