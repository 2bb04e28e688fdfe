/** What the running order of a section is (graph.go): there is only one that
    splits levels for exclusions first fit, and it puts into one group whatever
    can share one. */
module RunningOrder {
  import opened Base
  import opened Digraph
  import opened Phases
  import opened Exclusive

  // ---------------------------------------------------------------------
  // The order is determined

  lemma {:induction false} Least(names: set<Name>) returns (a: Name)
    requires names != {}
    ensures a in names && forall x | x in names :: StrLe(a, x)
    decreases |names|
  {
    hide StrLe;
    var x :| x in names;
    if names == {x} {
      a := x;
      StrLeTotal(x, x);
    } else {
      var b := Least(names - {x});
      StrLeTotal(x, b);
      a := if StrLe(x, b) then x else b;
      forall y | y in names ensures StrLe(a, y) {
        StrLeTotal(y, y);
        if y != x && a == x { StrLeTransitive(x, b, y); }
      }
    }
  }

  // The group that stands at i, once the groups before it are given: the names
  // left on its level that no smaller name of the group conflicts with.
  lemma InGroupExactly(actions: set<Name>, r: Rel, excl: Deps, order: seq<seq<Name>>, levels: seq<nat>, i: nat, a: Name)
    requires ExecutionOrder(actions, r, excl, order) && ByLevels(r, excl, order, levels)
    requires i < |order| && a in actions && Level(r, a, levels[i])
    requires forall k | 0 <= k < i :: a !in order[k]
    ensures a in order[i] <==> !exists b :: b in order[i] && b != a && Conflict(excl, a, b) && StrLe(b, a)
  {
    hide Level, StrLe;
    assert InSome(order, a);
    var j :| 0 <= j < |order| && a in order[j];
    LevelUnique(r, a, levels[i], levels[j]);
    if j == i {
      assert Compatible(excl, order[i]) by { assert GroupOk(actions, excl, order[i]); }
    } else {
      assert Displaced(excl, order[i], a);
      var b :| b in order[i] && Conflict(excl, a, b) && StrLe(b, a);
      assert b != a;
    }
  }

  // The level at i is the lowest one with a name left.
  lemma NextLevel(actions: set<Name>, r: Rel, excl: Deps, order: seq<seq<Name>>, levels: seq<nat>, i: nat, a: Name,
                  k: nat)
    requires ExecutionOrder(actions, r, excl, order) && ByLevels(r, excl, order, levels)
    requires i < |order| && a in actions && Level(r, a, k) && forall j | 0 <= j < i :: a !in order[j]
    ensures levels[i] <= k
  {
    hide Level;
    assert InSome(order, a);
    var j :| 0 <= j < |order| && a in order[j];
    LevelUnique(r, a, k, levels[j]);
  }

  lemma MemberLevel(actions: set<Name>, r: Rel, excl: Deps, order: seq<seq<Name>>, levels: seq<nat>, i: nat)
    returns (a: Name)
    requires ExecutionOrder(actions, r, excl, order) && ByLevels(r, excl, order, levels) && i < |order|
    ensures a in order[i] && a in actions && Level(r, a, levels[i])
    ensures forall j | 0 <= j < i :: a !in order[j]
  {
    assert GroupOk(actions, excl, order[i]);
    a := order[i][0];
  }

  lemma SameLevelNext(actions: set<Name>, r: Rel, excl: Deps, p: seq<seq<Name>>, ps: seq<nat>, q: seq<seq<Name>>,
                      qs: seq<nat>, i: nat)
    requires ExecutionOrder(actions, r, excl, p) && ByLevels(r, excl, p, ps)
    requires ExecutionOrder(actions, r, excl, q) && ByLevels(r, excl, q, qs)
    requires i < |p| && i < |q| && p[..i] == q[..i]
    ensures ps[i] == qs[i]
  {
    var a := MemberLevel(actions, r, excl, p, ps, i);
    var b := MemberLevel(actions, r, excl, q, qs, i);
    hide ExecutionOrder, ByLevels;
    assert forall j | 0 <= j < i :: q[j] == p[j] by { assert forall j | 0 <= j < i :: p[..i][j] == q[..i][j]; }
    NextLevel(actions, r, excl, q, qs, i, a, ps[i]);
    NextLevel(actions, r, excl, p, ps, i, b, qs[i]);
  }

  // The names whose places at i differ.
  ghost function Differing(p: seq<Name>, q: seq<Name>): set<Name> {
    (Elems(p) - Elems(q)) + (Elems(q) - Elems(p))
  }

  lemma SameGroup(actions: set<Name>, r: Rel, excl: Deps, p: seq<seq<Name>>, ps: seq<nat>, q: seq<seq<Name>>,
                  qs: seq<nat>, i: nat)
    requires ExecutionOrder(actions, r, excl, p) && ByLevels(r, excl, p, ps)
    requires ExecutionOrder(actions, r, excl, q) && ByLevels(r, excl, q, qs)
    requires i < |p| && i < |q| && p[..i] == q[..i]
    ensures p[i] == q[i]
  {
    SameLevelNext(actions, r, excl, p, ps, q, qs, i);
    var odd := Differing(p[i], q[i]);
    if odd != {} {
      var a := Least(odd);
      Disagree(actions, r, excl, p, ps, q, qs, i, a);
    }
    GroupListed(actions, r, excl, p, ps, i);
    GroupListed(actions, r, excl, q, qs, i);
    hide ExecutionOrder, ByLevels;
    assert Elems(p[i]) == Elems(q[i]);
    DistinctMultiset(p[i]);
    DistinctMultiset(q[i]);
    SortedUnique(p[i], q[i]);
  }

  lemma GroupListed(actions: set<Name>, r: Rel, excl: Deps, order: seq<seq<Name>>, levels: seq<nat>, i: nat)
    requires ExecutionOrder(actions, r, excl, order) && ByLevels(r, excl, order, levels) && i < |order|
    ensures Sorted(order[i]) && Distinct(order[i])
    ensures forall a | a in order[i] :: a in actions && Level(r, a, levels[i])
    ensures forall a, j | a in order[i] && 0 <= j < i :: a !in order[j]
    ensures Compatible(excl, order[i])
  {
    assert GroupOk(actions, excl, order[i]);
  }

  // The smallest name in dispute would be in dispute for a smaller one.
  lemma Disagree(actions: set<Name>, r: Rel, excl: Deps, p: seq<seq<Name>>, ps: seq<nat>, q: seq<seq<Name>>,
                 qs: seq<nat>, i: nat, a: Name)
    requires ExecutionOrder(actions, r, excl, p) && ByLevels(r, excl, p, ps)
    requires ExecutionOrder(actions, r, excl, q) && ByLevels(r, excl, q, qs)
    requires i < |p| && i < |q| && p[..i] == q[..i] && ps[i] == qs[i]
    requires forall x | x in Differing(p[i], q[i]) :: StrLe(a, x)
    ensures a !in Differing(p[i], q[i])
  {
    if a in Differing(p[i], q[i]) {
      GroupListed(actions, r, excl, p, ps, i);
      GroupListed(actions, r, excl, q, qs, i);
      assert forall j | 0 <= j < i :: q[j] == p[j] by { assert forall j | 0 <= j < i :: p[..i][j] == q[..i][j]; }
      hide ByLevels, ExecutionOrder, Level, StrLe, Sorted, Distinct;
      InGroupExactly(actions, r, excl, p, ps, i, a);
      InGroupExactly(actions, r, excl, q, qs, i, a);
      if a in p[i] {
        var b :| b in q[i] && b != a && Conflict(excl, a, b) && StrLe(b, a);
        NotLess(a, b, p[i], q[i]);
      } else {
        var b :| b in p[i] && b != a && Conflict(excl, a, b) && StrLe(b, a);
        NotLess(a, b, p[i], q[i]);
      }
    }
  }

  lemma NotLess(a: Name, b: Name, p: seq<Name>, q: seq<Name>)
    requires (forall x | x in Differing(p, q) :: StrLe(a, x)) && StrLe(b, a) && b != a && (b in p || b in q)
    ensures b in p && b in q
  {
    if b in Differing(p, q) { StrLeAntisymmetric(a, b); }
    hide StrLe;
  }

  lemma {:induction false} SamePrefix(actions: set<Name>, r: Rel, excl: Deps, p: seq<seq<Name>>, ps: seq<nat>,
                                      q: seq<seq<Name>>, qs: seq<nat>, i: nat)
    requires ExecutionOrder(actions, r, excl, p) && ByLevels(r, excl, p, ps)
    requires ExecutionOrder(actions, r, excl, q) && ByLevels(r, excl, q, qs)
    requires i <= |p| && i <= |q|
    ensures p[..i] == q[..i]
  {
    hide ExecutionOrder, ByLevels;
    if i > 0 {
      SamePrefix(actions, r, excl, p, ps, q, qs, i - 1);
      SameGroup(actions, r, excl, p, ps, q, qs, i - 1);
      assert p[..i] == p[..i - 1] + [p[i - 1]] && q[..i] == q[..i - 1] + [q[i - 1]];
    }
  }

  lemma NoLonger(actions: set<Name>, r: Rel, excl: Deps, p: seq<seq<Name>>, q: seq<seq<Name>>)
    requires ExecutionOrder(actions, r, excl, p) && ExecutionOrder(actions, r, excl, q)
    requires |p| <= |q| && q[..|p|] == p
    ensures |p| == |q|
  {
    if |p| < |q| {
      assert GroupOk(actions, excl, q[|p|]);
      var a := q[|p|][0];
      assert InSome(p, a);
      NotEarlier(actions, r, excl, q, p, a);
    }
  }

  lemma NotEarlier(actions: set<Name>, r: Rel, excl: Deps, q: seq<seq<Name>>, p: seq<seq<Name>>, a: Name)
    requires ExecutionOrder(actions, r, excl, q) && |p| < |q| && q[..|p|] == p && a in q[|p|]
    ensures !InSome(p, a)
  {
    forall i | 0 <= i < |p| ensures a !in p[i] {
      assert p[i] == q[..|p|][i] == q[i];
    }
  }

  // Two running orders of one section are the same.
  lemma OrderUnique(actions: set<Name>, r: Rel, excl: Deps, p: seq<seq<Name>>, q: seq<seq<Name>>)
    requires ExecutionOrder(actions, r, excl, p) && ExecutionOrder(actions, r, excl, q)
    ensures p == q
  {
    hide ExecutionOrder;
    if |p| <= |q| {
      ShorterIsSame(actions, r, excl, p, q);
    } else {
      ShorterIsSame(actions, r, excl, q, p);
    }
  }

  lemma ShorterIsSame(actions: set<Name>, r: Rel, excl: Deps, p: seq<seq<Name>>, q: seq<seq<Name>>)
    requires ExecutionOrder(actions, r, excl, p) && ExecutionOrder(actions, r, excl, q) && |p| <= |q|
    ensures p == q
  {
    var ps :| ByLevels(r, excl, p, ps);
    var qs :| ByLevels(r, excl, q, qs);
    hide ExecutionOrder, ByLevels;
    SamePrefix(actions, r, excl, p, ps, q, qs, |p|);
    assert p[..|p|] == p;
    NoLonger(actions, r, excl, p, q);
    assert q[..|q|] == q;
  }

  // ---------------------------------------------------------------------
  // Nothing waits without need

  // Names of one level nothing in which conflicts share a group.
  lemma QuietLevelShares(actions: set<Name>, r: Rel, excl: Deps, order: seq<seq<Name>>, k: nat, i: nat, j: nat,
                         a: Name, b: Name)
    requires ExecutionOrder(actions, r, excl, order) && i < |order| && j < |order| && a in order[i] && b in order[j]
    requires Level(r, a, k) && Level(r, b, k)
    requires forall x, y | x in actions && y in actions && x != y && Level(r, x, k) && Level(r, y, k) ::
               !Conflict(excl, x, y)
    ensures i == j
  {
    var levels :| ByLevels(r, excl, order, levels);
    LevelUnique(r, a, k, levels[i]);
    LevelUnique(r, b, k, levels[j]);
    if i < j { QuietGroup(actions, r, excl, order, levels, k, i, j, b); }
    if j < i { QuietGroup(actions, r, excl, order, levels, k, j, i, a); }
  }

  lemma QuietGroup(actions: set<Name>, r: Rel, excl: Deps, order: seq<seq<Name>>, levels: seq<nat>, k: nat, i: nat,
                   j: nat, a: Name)
    requires ExecutionOrder(actions, r, excl, order) && ByLevels(r, excl, order, levels)
    requires i < j < |order| && levels[i] == levels[j] == k && a in order[j]
    ensures exists x, y :: x in actions && y in actions && x != y && Level(r, x, k) && Level(r, y, k)
                           && Conflict(excl, x, y)
  {
    assert Displaced(excl, order[i], a);
    var b :| b in order[i] && Conflict(excl, a, b) && StrLe(b, a);
    assert GroupOk(actions, excl, order[i]) && GroupOk(actions, excl, order[j]);
    hide StrLe, Sorted;
    assert a != b;
  }

  // Without exclusions the order is exactly the phases.
  lemma NoExclusionsLevels(actions: set<Name>, r: Rel, excl: Deps, order: seq<seq<Name>>, phases: seq<seq<Name>>)
    requires ExecutionOrder(actions, r, excl, order) && PhasesOf(actions, r, phases)
    requires forall x, y | x in actions && y in actions && x != y :: !Conflict(excl, x, y)
    ensures order == phases
  {
    PhasesAreOrder(actions, r, excl, phases);
    hide ExecutionOrder, PhasesOf;
    OrderUnique(actions, r, excl, order, phases);
  }

  lemma PhasesAreOrder(actions: set<Name>, r: Rel, excl: Deps, phases: seq<seq<Name>>)
    requires PhasesOf(actions, r, phases)
    requires forall x, y | x in actions && y in actions && x != y :: !Conflict(excl, x, y)
    ensures ExecutionOrder(actions, r, excl, phases)
  {
    forall i | 0 <= i < |phases|
      ensures GroupOk(actions, excl, phases[i]) && Sorted(phases[i])
      ensures forall a | a in phases[i] :: a in actions && Level(r, a, i)
    {
      assert IsPhase(actions, r, i, phases[i]);
    }
    forall a | a in actions ensures InSome(phases, a) {
      var k := PhaseAt(actions, r, phases, a);
    }
    hide PhasesOf, Level, GroupOk, Sorted;
    forall i, j, a | 0 <= i < |phases| && 0 <= j < |phases| && a in phases[i] && a in phases[j] ensures i == j {
      LevelUnique(r, a, i, j);
    }
    forall i, j, a, b | 0 <= i < |phases| && 0 <= j < |phases| && a in phases[i] && b in phases[j] && (a, b) in r
      ensures j < i
    {
      LevelDrops(r, a, b, i, j);
    }
    assert ByLevels(r, excl, phases, seq(|phases|, i => i));
  }

  // ---------------------------------------------------------------------
  // How many groups a level takes

  ghost function GroupsAt(r: Rel, order: seq<seq<Name>>, k: nat): set<nat> {
    set i: nat | i < |order| && exists a :: a in order[i] && Level(r, a, k)
  }

  ghost function LevelConflicts(actions: set<Name>, r: Rel, excl: Deps, k: nat, a: Name): set<Name> {
    set b | b in actions && b != a && Level(r, b, k) && Conflict(excl, a, b)
  }

  // At most one more than some name of the level has conflicts on it.
  lemma FewGroupsAt(actions: set<Name>, r: Rel, excl: Deps, order: seq<seq<Name>>, k: nat)
    requires ExecutionOrder(actions, r, excl, order) && GroupsAt(r, order, k) != {}
    ensures exists a | a in actions && Level(r, a, k) ::
              |GroupsAt(r, order, k)| <= |LevelConflicts(actions, r, excl, k, a)| + 1
  {
    var levels :| ByLevels(r, excl, order, levels);
    var groups := GroupsAt(r, order, k);
    var m := LastOf(groups);
    forall i | i in groups ensures levels[i] == k { GroupLevel(r, excl, order, levels, k, i); }
    assert GroupOk(actions, excl, order[m]);
    var a := order[m][0];
    assert a in order[m] && Level(r, a, k);
    hide GroupOk, Level, ExecutionOrder;
    forall i | i in groups - {m} ensures Meets(order, i, LevelConflicts(actions, r, excl, k, a)) {
      OneConflict(actions, r, excl, order, levels, k, i, m, a);
    }
    hide ByLevels, Conflict, GroupsAt, Meets;
    CountByMembers(actions, r, excl, order, groups - {m}, LevelConflicts(actions, r, excl, k, a));
  }

  lemma GroupLevel(r: Rel, excl: Deps, order: seq<seq<Name>>, levels: seq<nat>, k: nat, i: nat)
    requires ByLevels(r, excl, order, levels) && i in GroupsAt(r, order, k)
    ensures levels[i] == k
  {
    var a :| a in order[i] && Level(r, a, k);
    hide Level;
    LevelUnique(r, a, k, levels[i]);
  }

  lemma OneConflict(actions: set<Name>, r: Rel, excl: Deps, order: seq<seq<Name>>, levels: seq<nat>, k: nat, i: nat,
                    m: nat, a: Name)
    requires ExecutionOrder(actions, r, excl, order) && ByLevels(r, excl, order, levels)
    requires i < m < |order| && levels[i] == levels[m] == k && a in order[m]
    ensures exists b :: b in order[i] && b in LevelConflicts(actions, r, excl, k, a)
  {
    assert Displaced(excl, order[i], a);
    var b :| b in order[i] && Conflict(excl, a, b) && StrLe(b, a);
    assert GroupOk(actions, excl, order[i]);
    hide StrLe, Sorted, Level;
    assert b != a;
    assert b in LevelConflicts(actions, r, excl, k, a);
  }

  lemma {:induction false} LastOf(s: set<nat>) returns (m: nat)
    requires s != {}
    ensures m in s && forall i | i in s :: i <= m
    decreases |s|
  {
    var i :| i in s;
    if s == {i} {
      m := i;
    } else {
      var n := LastOf(s - {i});
      m := if i <= n then n else i;
      assert forall x | x in s :: x == i || x in s - {i};
    }
  }

  ghost predicate Meets(order: seq<seq<Name>>, i: nat, names: set<Name>) {
    i < |order| && exists b :: b in order[i] && b in names
  }

  // Groups that each hold one of the names are no more than the names.
  lemma {:induction false} CountByMembers(actions: set<Name>, r: Rel, excl: Deps, order: seq<seq<Name>>,
                                          groups: set<nat>, names: set<Name>)
    requires ExecutionOrder(actions, r, excl, order) && forall i | i in groups :: Meets(order, i, names)
    ensures |groups| <= |names|
    decreases |groups|
  {
    hide ExecutionOrder;
    if groups != {} {
      var i :| i in groups;
      assert Meets(order, i, names);
      var b :| b in order[i] && b in names;
      forall j | j in groups - {i} ensures Meets(order, j, names - {b}) {
        assert Meets(order, j, names);
        OnlyThere(actions, r, excl, order, i, j, b);
        var c :| c in order[j] && c in names;
        assert c in names - {b};
      }
      hide Meets;
      CountByMembers(actions, r, excl, order, groups - {i}, names - {b});
      assert |groups - {i}| == |groups| - 1 && |names - {b}| == |names| - 1;
    }
  }

  lemma OnlyThere(actions: set<Name>, r: Rel, excl: Deps, order: seq<seq<Name>>, i: nat, j: nat, b: Name)
    requires ExecutionOrder(actions, r, excl, order) && i < |order| && j < |order| && i != j && b in order[i]
    ensures b !in order[j]
  {
  }
}
