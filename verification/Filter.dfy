/** Selecting actions and what they depend on (filter.go,
    FilterWorkflowActions). */
module Filter {
  import opened Base
  import opened Digraph
  import opened Phases

  // alias "" means none.
  datatype Action = Action(dependsOn: seq<Name>, explicit: bool, alias: Name)

  type Section = map<Name, Action>

  function DependsOn(actions: Section): Deps {
    map a | a in actions :: actions[a].dependsOn
  }

  // The in-section dependsOn relation.
  ghost function Rel(actions: Section): Digraph.Rel {
    SectionRel(actions.Keys, DependsOn(actions))
  }

  // The actions reachable by dependsOn from the roots, the roots included.
  ghost predicate Needed(actions: Section, roots: set<Name>, x: Name) {
    x in actions && exists r :: r in roots && r in actions && Reaches(Rel(actions), r, x)
  }

  ghost function NeededSet(actions: Section, roots: set<Name>): set<Name> {
    set x | x in actions && Needed(actions, roots, x)
  }

  ghost function NonExplicit(actions: Section): set<Name> {
    set a | a in actions && !actions[a].explicit
  }

  function Keep(actions: Section, names: set<Name>): Section {
    map a | a in actions && a in names :: actions[a]
  }

  // ---------------------------------------------------------------------
  // Collecting the closure

  // The dependencies of every name in the first set that exist are in the second.
  ghost predicate ClosedFor(actions: Section, done: set<Name>, needed: set<Name>) {
    forall x, d | x in done && x in actions && d in actions[x].dependsOn && d in actions :: d in needed
  }

  class Collector {
    const actions: Section
    var needed: set<Name>

    constructor (actions: Section)
      ensures this.actions == actions && needed == {}
    {
      this.actions := actions;
      needed := {};
    }

    // collectDeps: mark name and, depth first, everything it depends on.
    method Collect(name: Name, ghost roots: set<Name>)
      requires needed <= actions.Keys
      requires name in actions ==> Needed(actions, roots, name)
      modifies this
      ensures old(needed) <= needed <= actions.Keys
      ensures name in actions ==> name in needed
      ensures ClosedFor(actions, needed - old(needed), needed)
      ensures forall x | x in needed && x !in old(needed) :: Needed(actions, roots, x)
      decreases actions.Keys - needed
    {
      if name in needed {
        return;
      }
      if name !in actions {
        return;
      }
      ghost var before := needed;
      needed := needed + {name};
      var deps := actions[name].dependsOn;
      var i := 0;
      while i < |deps|
        invariant 0 <= i <= |deps|
        invariant before + {name} <= needed <= actions.Keys
        invariant forall k | 0 <= k < i && deps[k] in actions :: deps[k] in needed
        invariant ClosedFor(actions, needed - before - {name}, needed)
        invariant forall x | x in needed && x !in before :: Needed(actions, roots, x)
      {
        ghost var mid := needed;
        NeededStep(actions, roots, name, deps[i]);
        Collect(deps[i], roots);
        ClosedMore(actions, before + {name}, mid, needed);
        i := i + 1;
      }
    }
  }

  lemma NeededStep(actions: Section, roots: set<Name>, name: Name, dep: Name)
    requires Needed(actions, roots, name) && dep in actions[name].dependsOn
    ensures dep in actions ==> Needed(actions, roots, dep)
  {
    if dep in actions {
      var r :| r in roots && r in actions && Reaches(Rel(actions), r, name);
      assert (name, dep) in Rel(actions);
      ReachesStep(Rel(actions), r, name, dep);
    }
  }

  lemma ClosedMore(actions: Section, before: set<Name>, mid: set<Name>, after: set<Name>)
    requires before <= mid <= after
    requires ClosedFor(actions, mid - before, mid) && ClosedFor(actions, after - mid, after)
    ensures ClosedFor(actions, after - before, after)
  {
  }

  lemma ClosureIsNeeded(actions: Section, roots: set<Name>, needed: set<Name>)
    requires needed <= actions.Keys && ClosedFor(actions, needed, needed)
    requires forall r | r in roots && r in actions :: r in needed
    requires forall x | x in needed :: Needed(actions, roots, x)
    ensures needed == NeededSet(actions, roots)
  {
    forall x | Needed(actions, roots, x) ensures x in needed {
      var r :| r in roots && r in actions && Reaches(Rel(actions), r, x);
      var p :| WalkFromTo(Rel(actions), p, r, x);
      ClosedUnderWalk(Rel(actions), needed, p);
    }
  }

  method CollectAll(actions: Section, roots: set<Name>) returns (needed: set<Name>)
    ensures needed == NeededSet(actions, roots)
  {
    var c := new Collector(actions);
    var todo := roots;
    while todo != {}
      invariant todo <= roots && fresh(c) && c.actions == actions
      invariant c.needed <= actions.Keys && ClosedFor(actions, c.needed, c.needed)
      invariant forall r | r in roots && r !in todo && r in actions :: r in c.needed
      invariant forall x | x in c.needed :: Needed(actions, roots, x)
    {
      var name :| name in todo;
      todo := todo - {name};
      ghost var mid := c.needed;
      RootNeeded(actions, roots, name);
      c.Collect(name, roots);
      ClosedMore(actions, {}, mid, c.needed);
    }
    ClosureIsNeeded(actions, roots, c.needed);
    return c.needed;
  }

  lemma RootNeeded(actions: Section, roots: set<Name>, name: Name)
    requires name in roots
    ensures name in actions ==> Needed(actions, roots, name)
  {
    ReachesSelf(Rel(actions), name);
  }

  // ---------------------------------------------------------------------
  // The filter

  // A target is an alias of some action, or else a name itself.
  ghost predicate Resolves(actions: Section, target: Name, name: Name) {
    if exists a :: a in actions && actions[a].alias != "" && actions[a].alias == target
    then name in actions && actions[name].alias != "" && actions[name].alias == target
    else name == target
  }

  ghost predicate ResolvesAll(actions: Section, targets: seq<Name>, names: seq<Name>) {
    |names| == |targets| && forall i | 0 <= i < |targets| :: Resolves(actions, targets[i], names[i])
  }

  // Where two actions share an alias, map order decides which one it means.
  method BuildAliasMap(actions: Section) returns (aliasMap: map<Name, Name>)
    ensures forall t | t in aliasMap ::
      t != "" && aliasMap[t] in actions && actions[aliasMap[t]].alias == t
    ensures forall a | a in actions && actions[a].alias != "" :: actions[a].alias in aliasMap
  {
    aliasMap := map[];
    var todo := actions.Keys;
    while todo != {}
      invariant todo <= actions.Keys
      invariant forall t | t in aliasMap ::
        t != "" && aliasMap[t] in actions && actions[aliasMap[t]].alias == t
      invariant forall a | a in actions && a !in todo && actions[a].alias != "" :: actions[a].alias in aliasMap
    {
      var name :| name in todo;
      todo := todo - {name};
      if actions[name].alias != "" {
        aliasMap := aliasMap[actions[name].alias := name];
      }
    }
  }

  // The selection made: every resolved target and what it needs, or, with no
  // targets, every non-explicit action and what it needs.
  ghost predicate FilteredOf(actions: Section, targets: seq<Name>, kept: Section) {
    if targets == [] then kept == Keep(actions, NeededSet(actions, NonExplicit(actions)))
    else exists names :: ResolvesAll(actions, targets, names) && Elems(names) <= actions.Keys
                         && kept == Keep(actions, NeededSet(actions, Elems(names)))
  }

  method FilterWorkflowActions(actions: Section, targets: seq<Name>) returns (res: Result<Section, Name>)
    ensures res.Ok? ==> FilteredOf(actions, targets, res.value)
    ensures res.Err? ==>
              exists t, name :: t in targets && Resolves(actions, t, name) && name !in actions && res.error == t
  {
    if |targets| == 0 {
      var hasExplicit := exists a | a in actions :: actions[a].explicit;
      if !hasExplicit {
        AllNeeded(actions);
        return Ok(actions);
      }
      var roots := set a | a in actions && !actions[a].explicit;
      var needed := CollectAll(actions, roots);
      return Ok(Keep(actions, needed));
    }
    var aliasMap := BuildAliasMap(actions);
    var resolved: seq<Name> := [];
    var i := 0;
    while i < |targets|
      invariant 0 <= i <= |targets| && |resolved| == i
      invariant forall k | 0 <= k < i :: Resolves(actions, targets[k], resolved[k]) && resolved[k] in actions
    {
      var t := targets[i];
      var name := if t in aliasMap then aliasMap[t] else t;
      assert Resolves(actions, t, name);
      if name !in actions {
        return Err(t);
      }
      resolved := resolved + [name];
      i := i + 1;
    }
    var roots := set n | n in resolved;
    var needed := CollectAll(actions, roots);
    assert roots == Elems(resolved);
    assert ResolvesAll(actions, targets, resolved);
    return Ok(Keep(actions, needed));
  }

  lemma AllNeeded(actions: Section)
    requires forall a | a in actions :: !actions[a].explicit
    ensures Keep(actions, NeededSet(actions, NonExplicit(actions))) == actions
  {
    forall a | a in actions ensures Needed(actions, NonExplicit(actions), a) {
      RootNeeded(actions, NonExplicit(actions), a);
    }
  }

  // ---------------------------------------------------------------------
  // What filtering keeps

  // A kept action keeps its whole chain of dependencies.
  lemma {:induction false} KeptWalk(actions: Section, roots: set<Name>, x: Name, n: nat)
    requires x in NeededSet(actions, roots)
    ensures HasWalk(Rel(Keep(actions, NeededSet(actions, roots))), x, n) <==> HasWalk(Rel(actions), x, n)
    decreases n
  {
    hide Keep, NeededSet, Rel;
    var kept := Keep(actions, NeededSet(actions, roots));
    if n > 0 {
      if HasWalk(Rel(actions), x, n) {
        var y :| (x, y) in Rel(actions) && HasWalk(Rel(actions), y, n - 1);
        KeptEdge(actions, roots, x, y);
        KeptWalk(actions, roots, y, n - 1);
      }
      if HasWalk(Rel(kept), x, n) {
        var y :| (x, y) in Rel(kept) && HasWalk(Rel(kept), y, n - 1);
        KeptEdge(actions, roots, x, y);
        KeptWalk(actions, roots, y, n - 1);
      }
    }
  }

  lemma KeptEdge(actions: Section, roots: set<Name>, x: Name, y: Name)
    requires x in NeededSet(actions, roots)
    ensures (x, y) in Rel(actions) <==> (x, y) in Rel(Keep(actions, NeededSet(actions, roots)))
    ensures (x, y) in Rel(actions) ==> y in NeededSet(actions, roots)
  {
    if (x, y) in Rel(actions) {
      NeededStep(actions, roots, x, y);
    }
  }

  // ... so it stays in the phase it had.
  lemma KeptLevel(actions: Section, roots: set<Name>, x: Name, k: nat)
    requires x in NeededSet(actions, roots)
    ensures Level(Rel(Keep(actions, NeededSet(actions, roots))), x, k) <==> Level(Rel(actions), x, k)
  {
    KeptWalk(actions, roots, x, k);
    KeptWalk(actions, roots, x, k + 1);
  }

  lemma {:induction false} KeptPath(actions: Section, roots: set<Name>, p: seq<Name>)
    requires Walk(Rel(actions), p) && p[0] in NeededSet(actions, roots)
    ensures Walk(Rel(Keep(actions, NeededSet(actions, roots))), p)
    decreases |p|
  {
    if |p| > 1 {
      assert (p[0], p[1]) in Rel(actions);
      KeptEdge(actions, roots, p[0], p[1]);
      KeptPath(actions, roots, p[1..]);
      forall i | 0 <= i < |p| - 1 ensures (p[i], p[i + 1]) in Rel(Keep(actions, NeededSet(actions, roots))) {
        if i > 0 { assert p[1..][i - 1] == p[i] && p[1..][i] == p[i + 1]; }
      }
    }
  }

  lemma NeededAgain(actions: Section, roots: set<Name>, again: set<Name>, x: Name)
    requires forall r | r in roots && r in actions :: r in again
    requires Needed(actions, roots, x)
    ensures Needed(Keep(actions, NeededSet(actions, roots)), again, x)
  {
    var kept := Keep(actions, NeededSet(actions, roots));
    var r :| r in roots && r in actions && Reaches(Rel(actions), r, x);
    var p :| WalkFromTo(Rel(actions), p, r, x);
    RootNeeded(actions, roots, r);
    assert r in kept && x in kept;
    hide Rel, Keep, NeededSet;
    InNeededSet(actions, roots, r);
    KeptPath(actions, roots, p);
    assert WalkFromTo(Rel(kept), p, r, x);
  }

  lemma InNeededSet(actions: Section, roots: set<Name>, x: Name)
    ensures x in NeededSet(actions, roots) <==> Needed(actions, roots, x)
    ensures x in Keep(actions, NeededSet(actions, roots)) <==> Needed(actions, roots, x)
  {
  }

  // Selecting again from the selection, by any roots that cover it, keeps it all.
  lemma KeepTwice(actions: Section, roots: set<Name>, again: set<Name>)
    requires forall r | r in roots && r in actions :: r in again
    ensures var kept := Keep(actions, NeededSet(actions, roots));
            Keep(kept, NeededSet(kept, again)) == kept
  {
    hide *;
    var kept := Keep(actions, NeededSet(actions, roots));
    forall x | x in kept ensures x in NeededSet(kept, again) {
      InNeededSet(actions, roots, x);
      NeededAgain(actions, roots, again, x);
      InNeededSet(kept, again, x);
    }
    KeepAll(kept, NeededSet(kept, again));
  }

  lemma KeepAll(actions: Section, names: set<Name>)
    requires forall x | x in actions :: x in names
    ensures Keep(actions, names) == actions
  {
  }

  // Validation: aliases are unique and are not action names.
  ghost predicate AliasesOk(actions: Section) {
    && (forall a, b | a in actions && b in actions && actions[a].alias != "" && actions[a].alias == actions[b].alias ::
          a == b)
    && (forall a | a in actions :: actions[a].alias !in actions)
  }

  // Filtering twice is filtering once.
  lemma FilterIdempotent(actions: Section, targets: seq<Name>, kept: Section, again: Section)
    requires AliasesOk(actions)
    requires FilteredOf(actions, targets, kept) && FilteredOf(kept, targets, again)
    ensures again == kept
  {
    hide Needed, NeededSet, Keep, NonExplicit, ResolvesAll, AliasesOk;
    if targets == [] {
      NonExplicitTwice(actions);
    } else {
      var names :| ResolvesAll(actions, targets, names) && Elems(names) <= actions.Keys
                   && kept == Keep(actions, NeededSet(actions, Elems(names)));
      var names' :| ResolvesAll(kept, targets, names') && Elems(names') <= kept.Keys
                    && again == Keep(kept, NeededSet(kept, Elems(names')));
      TargetsTwice(actions, targets, names, names');
    }
  }

  lemma NonExplicitTwice(actions: Section)
    ensures var kept := Keep(actions, NeededSet(actions, NonExplicit(actions)));
            Keep(kept, NeededSet(kept, NonExplicit(kept))) == kept
  {
    var kept := Keep(actions, NeededSet(actions, NonExplicit(actions)));
    forall a | a in NonExplicit(actions) ensures a in NonExplicit(kept) {
      RootNeeded(actions, NonExplicit(actions), a);
    }
    hide *;
    KeepTwice(actions, NonExplicit(actions), NonExplicit(kept));
  }

  lemma TargetsTwice(actions: Section, targets: seq<Name>, names: seq<Name>, names': seq<Name>)
    requires AliasesOk(actions) && ResolvesAll(actions, targets, names) && Elems(names) <= actions.Keys
    requires var kept := Keep(actions, NeededSet(actions, Elems(names)));
             ResolvesAll(kept, targets, names') && Elems(names') <= kept.Keys
    ensures var kept := Keep(actions, NeededSet(actions, Elems(names)));
            Keep(kept, NeededSet(kept, Elems(names'))) == kept
  {
    var kept := Keep(actions, NeededSet(actions, Elems(names)));
    forall i | 0 <= i < |targets| ensures names[i] == names'[i] {
      assert names[i] in Elems(names);
      RootNeeded(actions, Elems(names), names[i]);
      assert Resolves(actions, targets[i], names[i]) && Resolves(kept, targets[i], names'[i]);
      hide NeededSet, Needed;
      SameResolution(actions, kept, targets[i], names[i], names'[i]);
    }
    assert names == names';
    assert forall r | r in Elems(names) && r in actions :: r in Elems(names');
    hide *;
    KeepTwice(actions, Elems(names), Elems(names'));
  }

  lemma SameResolution(actions: Section, kept: Section, target: Name, name: Name, name': Name)
    requires AliasesOk(actions) && name in kept
    requires forall a | a in kept :: a in actions && kept[a] == actions[a]
    requires Resolves(actions, target, name) && Resolves(kept, target, name')
    ensures name == name'
  {
  }
}
