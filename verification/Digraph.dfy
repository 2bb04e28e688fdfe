/** Dependency relations: walks, levels and cycles. A pair (a, b) in a relation
    means that a depends on b. */
module Digraph {
  import opened Base

  type Rel = set<(Name, Name)>

  // A nonempty sequence of names, each depending on the next.
  ghost predicate Walk(r: Rel, p: seq<Name>) {
    |p| > 0 && forall i | 0 <= i < |p| - 1 :: (p[i], p[i + 1]) in r
  }

  ghost predicate WalkFromTo(r: Rel, p: seq<Name>, a: Name, b: Name) {
    Walk(r, p) && p[0] == a && p[|p| - 1] == b
  }

  // b can be reached from a in zero or more steps.
  ghost predicate Reaches(r: Rel, a: Name, b: Name) {
    exists p :: WalkFromTo(r, p, a, b)
  }

  ghost predicate ClosedWalk(r: Rel, p: seq<Name>) {
    |p| > 1 && Walk(r, p) && p[0] == p[|p| - 1]
  }

  ghost predicate Cyclic(r: Rel) {
    exists p :: ClosedWalk(r, p)
  }

  // Some walk starts at a and takes n steps.
  ghost predicate HasWalk(r: Rel, a: Name, n: nat)
    decreases n
  {
    n == 0 || exists b :: (a, b) in r && HasWalk(r, b, n - 1)
  }

  // The longest walk from a takes exactly k steps.
  ghost predicate Level(r: Rel, a: Name, k: nat) {
    HasWalk(r, a, k) && !HasWalk(r, a, k + 1)
  }

  lemma {:induction false} HasWalkShorter(r: Rel, a: Name, m: nat, n: nat)
    requires HasWalk(r, a, n) && m <= n
    ensures HasWalk(r, a, m)
    decreases n
  {
    if m > 0 {
      var b :| (a, b) in r && HasWalk(r, b, n - 1);
      HasWalkShorter(r, b, m - 1, n - 1);
    }
  }

  // HasWalk speaks of real walks: one direction builds the walk ...
  lemma {:induction false} WalkOf(r: Rel, a: Name, n: nat) returns (p: seq<Name>)
    requires HasWalk(r, a, n)
    ensures Walk(r, p) && |p| == n + 1 && p[0] == a
    decreases n
  {
    if n == 0 {
      p := [a];
    } else {
      var b :| (a, b) in r && HasWalk(r, b, n - 1);
      var q := WalkOf(r, b, n - 1);
      p := [a] + q;
    }
  }

  // ... the other reads it off.
  lemma {:induction false} HasWalkOf(r: Rel, p: seq<Name>)
    requires Walk(r, p)
    ensures HasWalk(r, p[0], |p| - 1)
    decreases |p|
  {
    if |p| > 1 {
      HasWalkOf(r, p[1..]);
      assert (p[0], p[1]) in r && p[1..][0] == p[1];
    }
  }

  lemma LevelUnique(r: Rel, a: Name, j: nat, k: nat)
    requires Level(r, a, j) && Level(r, a, k)
    ensures j == k
  {
    if j < k { HasWalkShorter(r, a, j + 1, k); }
    if k < j { HasWalkShorter(r, a, k + 1, j); }
  }

  // A dependency sits on a strictly lower level.
  lemma LevelDrops(r: Rel, a: Name, b: Name, j: nat, k: nat)
    requires (a, b) in r && Level(r, a, j) && Level(r, b, k)
    ensures k < j
  {
    if j <= k {
      HasWalkShorter(r, b, j, k);
    }
  }

  lemma {:induction false} LevelDropsAlongWalk(r: Rel, p: seq<Name>, j: nat, k: nat)
    requires Walk(r, p) && |p| > 1 && Level(r, p[0], j) && Level(r, p[|p| - 1], k)
    requires !Cyclic(r)
    ensures k < j
    decreases |p|
  {
    if |p| == 2 {
      LevelDrops(r, p[0], p[1], j, k);
    } else {
      assert (p[0], p[1]) in r;
      var m := LevelOf(r, p[1]);
      LevelDrops(r, p[0], p[1], j, m);
      LevelDropsAlongWalk(r, p[1..], m, k);
    }
  }

  ghost function Sources(r: Rel): set<Name> {
    set e | e in r :: e.0
  }

  // A walk of more steps than there are sources revisits a name.
  lemma LongWalkCyclic(r: Rel, p: seq<Name>)
    requires Walk(r, p) && |p| > |Sources(r)| + 1
    ensures Cyclic(r)
  {
    var q := p[..|p| - 1];
    forall x | x in q ensures x in Sources(r) {
      var i :| 0 <= i < |q| && q[i] == x;
      assert (p[i], p[i + 1]) in r;
    }
    Pigeonhole(q, Sources(r));
    var i, j :| 0 <= i < j < |q| && q[i] == q[j];
    var c := p[i..j + 1];
    assert forall k | 0 <= k < |c| :: c[k] == p[i + k];
    assert ClosedWalk(r, c);
  }

  // In an acyclic relation every name has a level.
  lemma LevelOf(r: Rel, a: Name) returns (k: nat)
    requires !Cyclic(r)
    ensures Level(r, a, k)
  {
    k := 0;
    while HasWalk(r, a, k + 1)
      invariant HasWalk(r, a, k)
      invariant k <= |Sources(r)|
      decreases |Sources(r)| + 1 - k
    {
      k := k + 1;
      var p := WalkOf(r, a, k);
      if k > |Sources(r)| { LongWalkCyclic(r, p); }
    }
  }

  // Around a cycle one can walk for ever.
  lemma {:induction false} CycleWalksForever(r: Rel, p: seq<Name>, i: nat, n: nat)
    requires ClosedWalk(r, p) && i < |p| - 1
    ensures HasWalk(r, p[i], n)
    decreases n
  {
    if n > 0 {
      assert (p[i], p[i + 1]) in r;
      CycleWalksForever(r, p, if i + 1 < |p| - 1 then i + 1 else 0, n - 1);
    }
  }

  // A listing in which every dependency of a listed name comes earlier.
  ghost predicate Topological(r: Rel, order: seq<Name>) {
    forall i, b | 0 <= i < |order| && (order[i], b) in r :: b in order[..i]
  }

  lemma {:induction false} TopologicalWalk(r: Rel, order: seq<Name>, p: seq<Name>, i: nat)
    requires Topological(r, order) && Walk(r, p) && i < |order| && p[0] == order[i]
    ensures |p| > 1 ==> p[|p| - 1] in order[..i]
    decreases |p|
  {
    if |p| > 1 {
      assert (p[0], p[1]) in r;
      assert p[1] in order[..i];
      var j :| 0 <= j < i && order[j] == p[1];
      TopologicalWalk(r, order, p[1..], j);
      if |p| > 2 {
        assert p[1..][|p| - 2] == p[|p| - 1];
        assert order[..j] <= order[..i];
      }
    }
  }

  // A topological listing of all sources rules cycles out.
  lemma TopologicalAcyclic(r: Rel, order: seq<Name>)
    requires Topological(r, order) && Distinct(order) && Sources(r) <= Elems(order)
    ensures !Cyclic(r)
  {
    if Cyclic(r) {
      var p :| ClosedWalk(r, p);
      assert (p[0], p[1]) in r;
      assert p[0] in Sources(r);
      var i :| 0 <= i < |order| && order[i] == p[0];
      TopologicalWalk(r, order, p, i);
    }
  }

  // ---------------------------------------------------------------------
  // Adjacency lists

  type Deps = map<Name, seq<Name>>

  function Succ(deps: Deps, a: Name): seq<Name> {
    if a in deps then deps[a] else []
  }

  ghost function EdgesOf(deps: Deps): Rel {
    set a, b | a in deps && b in deps[a] :: (a, b)
  }

  lemma EdgeOf(deps: Deps, a: Name, b: Name)
    ensures (a, b) in EdgesOf(deps) <==> b in Succ(deps, a)
  {
  }

  ghost function Targets(deps: Deps): set<Name> {
    set a, b | a in deps && b in deps[a] :: b
  }

  // The part of the relation that stays inside a section.
  ghost function Within(nodes: set<Name>, r: Rel): Rel {
    set e | e in r && e.0 in nodes && e.1 in nodes
  }

  lemma {:induction false} CycleStaysWithin(nodes: set<Name>, r: Rel)
    requires Sources(r) <= nodes
    ensures Cyclic(Within(nodes, r)) <==> Cyclic(r)
  {
    if Cyclic(r) {
      var p :| ClosedWalk(r, p);
      forall i | 0 <= i < |p| - 1 ensures (p[i], p[i + 1]) in Within(nodes, r) {
        assert (p[i], p[i + 1]) in r;
        assert (p[0], p[1]) in r;
        if i + 1 < |p| - 1 { assert (p[i + 1], p[i + 2]) in r; }
      }
      assert ClosedWalk(Within(nodes, r), p);
    }
    if Cyclic(Within(nodes, r)) {
      var p :| ClosedWalk(Within(nodes, r), p);
      assert ClosedWalk(r, p);
    }
  }

  lemma WalkConcat(r: Rel, p: seq<Name>, q: seq<Name>)
    requires Walk(r, p) && Walk(r, q) && p[|p| - 1] == q[0]
    ensures WalkFromTo(r, p + q[1..], p[0], q[|q| - 1])
  {
    var w := p + q[1..];
    forall i | 0 <= i < |w| - 1 ensures (w[i], w[i + 1]) in r {
      if i < |p| - 1 {
        assert w[i] == p[i] && w[i + 1] == p[i + 1];
      } else {
        assert w[i] == q[i - (|p| - 1)] && w[i + 1] == q[i - (|p| - 1) + 1];
      }
    }
  }

  lemma ReachesStep(r: Rel, a: Name, b: Name, c: Name)
    requires Reaches(r, a, b) && (b, c) in r
    ensures Reaches(r, a, c)
  {
    var p :| WalkFromTo(r, p, a, b);
    assert WalkFromTo(r, [b, c], b, c);
    WalkConcat(r, p, [b, c]);
  }

  lemma ReachesSelf(r: Rel, a: Name)
    ensures Reaches(r, a, a)
  {
    assert WalkFromTo(r, [a], a, a);
  }

  // A set closed under the relation keeps every walk that starts inside.
  lemma {:induction false} ClosedUnderWalk(r: Rel, inside: set<Name>, p: seq<Name>)
    requires Walk(r, p) && p[0] in inside
    requires forall e | e in r && e.0 in inside :: e.1 in inside
    ensures Elems(p) <= inside
    decreases |p|
  {
    if |p| > 1 {
      assert (p[0], p[1]) in r;
      ClosedUnderWalk(r, inside, p[1..]);
      assert p == [p[0]] + p[1..];
    }
  }
}
