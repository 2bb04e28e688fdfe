/** Expanding a section's forEach actions and rewriting its dependencies
    (graph.go, expandSection and BuildGraph). */
module Expansion {
  import opened Base
  import opened Digraph
  import opened Names
  import opened Phases
  import opened Exclusive

  // The outcome of evaluating an action's forEach clause, if it has one.
  datatype ForEach = NoForEach | Items(count: nat) | Unevaluable

  // refs are the names read through __actions in inputs, condition and call args.
  // unbuildable: the iterations whose inputs can be neither evaluated nor
  // deferred; -1 stands for an action without a forEach.
  datatype Action = Action(dependsOn: seq<Name>, refs: seq<Name>, exclusive: seq<Name>, forEach: ForEach,
                           unbuildable: set<int>)

  type Section = map<Name, Action>

  datatype Expanded = Expanded(base: Name, dependencies: seq<Name>, crossRefs: seq<Name>, exclusive: seq<Name>)

  // ---------------------------------------------------------------------
  // What expansion should produce

  function Iterations(base: Name, count: nat): seq<Name> {
    seq(count, i => CreateIterationName(base, i))
  }

  // The names an action expands to; none for a forEach over an empty array.
  function Instances(actions: Section, base: Name): seq<Name>
    requires base in actions
  {
    match actions[base].forEach
    case Items(count) => Iterations(base, count)
    case _ => [base]
  }

  // Every array evaluates and every instance can be built.
  ghost predicate Evaluable(actions: Section) {
    forall b | b in actions :: Buildable(actions[b])
  }

  predicate Buildable(a: Action) {
    match a.forEach
    case NoForEach => -1 !in a.unbuildable
    case Items(count) => forall i | 0 <= i < count :: i !in a.unbuildable
    case Unevaluable => false
  }

  // createExpandedAction for each instance of one action.
  method BuildInstances(a: Action) returns (ok: bool)
    ensures ok <==> Buildable(a)
  {
    match a.forEach {
      case NoForEach => return -1 !in a.unbuildable;
      case Unevaluable => return false;
      case Items(count) =>
        for i := 0 to count
          invariant forall j | 0 <= j < i :: j !in a.unbuildable
        {
          if i in a.unbuildable {
            return false;
          }
        }
        return true;
    }
  }

  ghost predicate IsInstance(actions: Section, x: Name, base: Name) {
    base in actions && x in Instances(actions, base)
  }

  // What a raw reference stands for after expansion.
  function Rewrite(actions: Section, raw: Name): seq<Name> {
    if raw in actions && actions[raw].forEach.Items? then Instances(actions, raw) else [raw]
  }

  function RawDeps(a: Action): seq<Name> {
    a.dependsOn + a.refs
  }

  ghost function RewriteAll(actions: Section, raws: seq<Name>): set<Name> {
    set raw, y | raw in raws && y in Rewrite(actions, raw) :: y
  }

  ghost predicate ExpandedOk(actions: Section, names: set<Name>, x: Name, e: Expanded) {
    && IsInstance(actions, x, e.base)
    && Sorted(e.dependencies) && Distinct(e.dependencies)
    && Elems(e.dependencies) == RewriteAll(actions, RawDeps(actions[e.base])) * names
    && Elems(e.crossRefs) == RewriteAll(actions, RawDeps(actions[e.base])) - names
    && Elems(e.exclusive) == RewriteAll(actions, actions[e.base].exclusive)
  }

  ghost predicate ExpansionOf(actions: Section, expanded: map<Name, Expanded>) {
    && (forall x :: x in expanded <==> exists b :: IsInstance(actions, x, b))
    && (forall x | x in expanded :: ExpandedOk(actions, expanded.Keys, x, expanded[x]))
  }

  // ---------------------------------------------------------------------
  // The three passes

  // Names kept with the base they came from, before dependencies are known.
  method ExpandNames(actions: Section) returns (res: Result<map<Name, Name>, string>)
    ensures res.Err? <==> !Evaluable(actions)
    ensures res.Ok? ==> forall x :: x in res.value <==> exists b :: IsInstance(actions, x, b)
    ensures res.Ok? ==> forall x | x in res.value :: IsInstance(actions, x, res.value[x])
  {
    var bases: map<Name, Name> := map[];
    var todo := actions.Keys;
    while todo != {}
      invariant todo <= actions.Keys
      invariant forall b | b in actions && b !in todo :: Buildable(actions[b])
      invariant forall x | x in bases :: bases[x] !in todo && IsInstance(actions, x, bases[x])
      invariant forall x, b | IsInstance(actions, x, b) && b !in todo :: x in bases
    {
      var name :| name in todo;
      todo := todo - {name};
      if actions[name].forEach.Unevaluable? {
        return Err("failed to evaluate forEach");
      }
      var ok := BuildInstances(actions[name]);
      if !ok {
        return Err("failed to expand");
      }
      bases := AddInstances(bases, name, Instances(actions, name));
    }
    return Ok(bases);
  }

  method AddInstances(bases0: map<Name, Name>, base: Name, names: seq<Name>) returns (bases: map<Name, Name>)
    ensures bases.Keys == bases0.Keys + Elems(names)
    ensures forall x | x in bases :: bases[x] == if x in names then base else bases0[x]
  {
    bases := bases0;
    var i := 0;
    while i < |names|
      invariant 0 <= i <= |names|
      invariant bases.Keys == bases0.Keys + Elems(names[..i])
      invariant forall x | x in bases :: bases[x] == if x in names[..i] then base else bases0[x]
    {
      assert names[..i + 1] == names[..i] + [names[i]];
      bases := bases[names[i] := base];
      i := i + 1;
    }
    assert names[..i] == names;
  }

  // Put the names of one rewritten reference into the same-section or the
  // cross set.
  method InsertRefs(list: seq<Name>, names: set<Name>, same0: set<Name>, cross0: set<Name>)
    returns (same: set<Name>, cross: set<Name>)
    ensures same == same0 + Elems(list) * names
    ensures cross == cross0 + (Elems(list) - names)
  {
    same, cross := same0, cross0;
    var j := 0;
    while j < |list|
      invariant 0 <= j <= |list|
      invariant same == same0 + Elems(list[..j]) * names
      invariant cross == cross0 + (Elems(list[..j]) - names)
    {
      assert Elems(list[..j + 1]) == Elems(list[..j]) + {list[j]};
      if list[j] in names { same := same + {list[j]}; } else { cross := cross + {list[j]}; }
      j := j + 1;
    }
    assert list[..j] == list;
  }

  method CollectRefs(actions: Section, raws: seq<Name>, names: set<Name>)
    returns (same: set<Name>, cross: set<Name>)
    ensures same == RewriteAll(actions, raws) * names
    ensures cross == RewriteAll(actions, raws) - names
  {
    same, cross := {}, {};
    var i := 0;
    assert RewriteAll(actions, raws[..0]) == {};
    hide RewriteAll, Rewrite;
    while i < |raws|
      invariant 0 <= i <= |raws|
      invariant same == RewriteAll(actions, raws[..i]) * names
      invariant cross == RewriteAll(actions, raws[..i]) - names
    {
      RewriteNext(actions, raws, i);
      same, cross := InsertRefs(Rewrite(actions, raws[i]), names, same, cross);
      i := i + 1;
    }
    assert raws[..i] == raws;
  }

  lemma RewriteNext(actions: Section, raws: seq<Name>, i: nat)
    requires i < |raws|
    ensures RewriteAll(actions, raws[..i + 1]) == RewriteAll(actions, raws[..i]) + Elems(Rewrite(actions, raws[i]))
  {
    assert raws[..i + 1] == raws[..i] + [raws[i]];
  }

  // sets.List: the members of a set, sorted.
  method SortedList(names: set<Name>) returns (list: seq<Name>)
    ensures Sorted(list) && Distinct(list) && Elems(list) == names
  {
    var raw: seq<Name> := [];
    var todo := names;
    while todo != {}
      invariant todo <= names && Distinct(raw)
      invariant Elems(raw) == names - todo
    {
      var x :| x in todo;
      assert x !in Elems(raw);
      assert Elems(raw + [x]) == Elems(raw) + {x};
      todo := todo - {x};
      raw := raw + [x];
    }
    SortStringsDistinct(raw);
    list := SortStrings(raw);
  }

  method ComputeExpanded(actions: Section, names: set<Name>, x: Name, base: Name) returns (e: Expanded)
    requires IsInstance(actions, x, base)
    ensures e.base == base && ExpandedOk(actions, names, x, e)
  {
    var same, cross := CollectRefs(actions, RawDeps(actions[base]), names);
    var dependencies := SortedList(same);
    var crossRefs := SortedList(cross);
    var inside, outside := CollectRefs(actions, actions[base].exclusive, {});
    var exclusive := SortedList(inside + outside);
    e := Expanded(base, dependencies, crossRefs, exclusive);
  }

  ghost predicate AllOk(actions: Section, names: set<Name>, expanded: map<Name, Expanded>) {
    forall x | x in expanded :: ExpandedOk(actions, names, x, expanded[x])
  }

  lemma AddOk(actions: Section, names: set<Name>, expanded: map<Name, Expanded>, x: Name, e: Expanded)
    requires AllOk(actions, names, expanded) && ExpandedOk(actions, names, x, e)
    ensures AllOk(actions, names, expanded[x := e])
  {
  }

  ghost predicate BasesOf(actions: Section, bases: map<Name, Name>) {
    forall x | x in bases :: IsInstance(actions, x, bases[x])
  }

  lemma BasesAt(actions: Section, bases: map<Name, Name>, x: Name)
    requires BasesOf(actions, bases) && x in bases
    ensures IsInstance(actions, x, bases[x])
  {
  }

  // The second and third passes.
  method ComputeAll(actions: Section, bases: map<Name, Name>) returns (expanded: map<Name, Expanded>)
    requires BasesOf(actions, bases)
    ensures expanded.Keys == bases.Keys && AllOk(actions, bases.Keys, expanded)
  {
    expanded := map[];
    var todo := bases.Keys;
    hide ExpandedOk, IsInstance, BasesOf;
    assert AllOk(actions, bases.Keys, expanded);
    hide AllOk;
    while todo != {}
      invariant todo <= bases.Keys && expanded.Keys == bases.Keys - todo
      invariant AllOk(actions, bases.Keys, expanded)
    {
      var x :| x in todo;
      todo := todo - {x};
      BasesAt(actions, bases, x);
      var e := ComputeExpanded(actions, bases.Keys, x, bases[x]);
      AddOk(actions, bases.Keys, expanded, x, e);
      expanded := expanded[x := e];
    }
  }

  method ExpandSection(actions: Section) returns (res: Result<map<Name, Expanded>, string>)
    ensures res.Err? <==> !Evaluable(actions)
    ensures res.Ok? ==> ExpansionOf(actions, res.value)
  {
    hide IsInstance, ExpandedOk, Evaluable;
    var named := ExpandNames(actions);
    if named.Err? {
      return Err(named.error);
    }
    var expanded := ComputeAll(actions, named.value);
    return Ok(expanded);
  }

  // ---------------------------------------------------------------------
  // Expansion keeps the order of the actions that survive

  // Validation: action names carry no bracket.
  ghost predicate NamesOk(actions: Section) {
    forall b | b in actions :: '[' !in b
  }

  // Every reference names a whole action. A call's arguments may also refer to
  // one iteration, as "deploy[0]".
  ghost predicate WholeRefs(actions: Section) {
    forall b, raw | b in actions && raw in RawDeps(actions[b]) :: '[' !in raw
  }

  ghost predicate ExclusiveNamesOk(actions: Section) {
    forall b, raw | b in actions && raw in actions[b].exclusive :: '[' !in raw
  }

  // a refers to b as a whole, or to its instance y alone.
  predicate RefersTo(actions: Section, a: Name, y: Name, b: Name)
    requires a in actions
  {
    b in RawDeps(actions[a]) || y in RawDeps(actions[a])
  }

  // a refers to b or to some instance of b.
  ghost predicate Mentions(actions: Section, a: Name, b: Name)
    requires a in actions && b in actions
  {
    b in RawDeps(actions[a]) || exists y :: y in Instances(actions, b) && RefersTo(actions, a, y, b)
  }

  // Dependencies between the actions as written.
  ghost function BaseRel(actions: Section): Rel {
    set a, b | a in actions && b in actions && Mentions(actions, a, b) :: (a, b)
  }

  // The actions that expand to something.
  ghost function Survivors(actions: Section): set<Name> {
    set b | b in actions && Instances(actions, b) != []
  }

  ghost function SurvivorRel(actions: Section): Rel {
    Within(Survivors(actions), BaseRel(actions))
  }

  function DepsOf(expanded: map<Name, Expanded>): Deps {
    map x | x in expanded :: expanded[x].dependencies
  }

  ghost function ExpandedRel(expanded: map<Name, Expanded>): Rel {
    SectionRel(expanded.Keys, DepsOf(expanded))
  }

  lemma InstanceShape(actions: Section, x: Name, b: Name)
    requires NamesOk(actions) && IsInstance(actions, x, b)
    ensures '[' in x <==> actions[b].forEach.Items?
    ensures '[' !in x ==> x == b
  {
    if actions[b].forEach.Items? {
      var i :| 0 <= i < |Instances(actions, b)| && x == Instances(actions, b)[i];
      assert x == CreateIterationName(b, i);
      assert x[|b|] == '[';
    }
  }

  // Expanded names never collide.
  lemma BaseUnique(actions: Section, x: Name, b: Name, c: Name)
    requires NamesOk(actions) && IsInstance(actions, x, b) && IsInstance(actions, x, c)
    ensures b == c
  {
    InstanceShape(actions, x, b);
    InstanceShape(actions, x, c);
    if '[' in x {
      var i :| 0 <= i < |Instances(actions, b)| && x == Instances(actions, b)[i];
      var j :| 0 <= j < |Instances(actions, c)| && x == Instances(actions, c)[j];
      IterationNamesDistinct(b, i, c, j);
    }
  }

  // An action with an array of n items stands for n instances, its name with the
  // indices 0 to n - 1 in brackets; one without for itself.
  lemma InstancesExactly(actions: Section, b: Name, x: Name)
    requires b in actions
    ensures match actions[b].forEach
            case Items(n) =>
              |Instances(actions, b)| == n
              && (IsInstance(actions, x, b) <==> exists i: nat :: i < n && InstanceText(b, i) == x)
            case _ => IsInstance(actions, x, b) <==> x == b
  {
    if actions[b].forEach.Items? {
      var n := actions[b].forEach.count;
      var names := Instances(actions, b);
      assert |names| == n && forall i: nat | i < n :: names[i] == InstanceText(b, i);
      hide InstanceText, Iterations;
    }
  }

  function InstanceText(base: Name, i: nat): Name {
    base + "[" + Itoa(i) + "]"
  }

  // The references kept apart are exactly those to names that are neither in the
  // section nor an instance.
  lemma CrossRefsExactly(actions: Section, expanded: map<Name, Expanded>, x: Name, y: Name)
    requires ExpansionOf(actions, expanded) && x in expanded
    ensures var a := expanded[x].base;
      && a in actions && IsInstance(actions, x, a)
      && (y in expanded[x].crossRefs
          <==> (y in actions[a].dependsOn || y in actions[a].refs) && y !in actions && y !in expanded)
  {
    assert ExpandedOk(actions, expanded.Keys, x, expanded[x]);
    var a := expanded[x].base;
    var raws := RawDeps(actions[a]);
    assert y in raws <==> y in actions[a].dependsOn || y in actions[a].refs;
    assert y in Elems(expanded[x].crossRefs) <==> y in RewriteAll(actions, raws) && y !in expanded;
    assert y in expanded <==> exists b :: IsInstance(actions, y, b);
    if y !in expanded { RewriteOutside(actions, raws, y); }
    hide ExpansionOf, RewriteAll, RawDeps, IsInstance, ExpandedOk;
  }

  lemma RewriteOutside(actions: Section, raws: seq<Name>, y: Name)
    requires forall b :: !IsInstance(actions, y, b)
    ensures y in RewriteAll(actions, raws) <==> y in raws && y !in actions
  {
    if y in RewriteAll(actions, raws) {
      var raw :| raw in raws && y in Rewrite(actions, raw);
      assert !IsInstance(actions, y, raw);
    }
    if y in raws && y !in actions { assert y in Rewrite(actions, y); }
  }

  lemma InstancesDistinct(actions: Section, b: Name)
    requires NamesOk(actions) && b in actions
    ensures Distinct(Instances(actions, b))
  {
    if actions[b].forEach.Items? {
      var names := Instances(actions, b);
      forall i, j | 0 <= i < j < |names| ensures names[i] != names[j] {
        if names[i] == names[j] { IterationNamesDistinct(b, i, b, j); }
      }
    }
  }

  // A rewritten reference gives an instance exactly if it names its action, or
  // the instance itself.
  lemma RewriteBase(actions: Section, raw: Name, y: Name, c: Name)
    requires NamesOk(actions) && IsInstance(actions, y, c)
    ensures y in Rewrite(actions, raw) <==> raw == c || raw == y
  {
    InstanceShape(actions, y, c);
    if raw in actions && actions[raw].forEach.Items? {
      if y in Rewrite(actions, raw) { BaseUnique(actions, y, raw, c); }
    } else if raw == c {
      assert Instances(actions, c) == [c];
    }
  }

  lemma InstanceDeps(actions: Section, expanded: map<Name, Expanded>, x: Name, a: Name)
    requires NamesOk(actions) && ExpansionOf(actions, expanded) && IsInstance(actions, x, a)
    ensures x in expanded && expanded[x].base == a
    ensures Elems(expanded[x].dependencies) == RewriteAll(actions, RawDeps(actions[a])) * expanded.Keys
  {
    assert x in expanded;
    assert ExpandedOk(actions, expanded.Keys, x, expanded[x]);
    BaseUnique(actions, x, a, expanded[x].base);
  }

  // One instance depends on another exactly when the one's action refers to the
  // other, or to the other's whole action; always along an edge between their
  // actions, and on all instances alike unless a reference singles one out.
  lemma EdgeLift(actions: Section, expanded: map<Name, Expanded>, x: Name, y: Name, a: Name, b: Name)
    requires NamesOk(actions) && ExpansionOf(actions, expanded)
    requires IsInstance(actions, x, a) && IsInstance(actions, y, b)
    ensures x in expanded && y in expanded
    ensures (x, y) in ExpandedRel(expanded) <==> RefersTo(actions, a, y, b)
    ensures (x, y) in ExpandedRel(expanded) ==> (a, b) in SurvivorRel(actions)
    ensures WholeRefs(actions) ==> ((x, y) in ExpandedRel(expanded) <==> (a, b) in SurvivorRel(actions))
  {
    InstanceDeps(actions, expanded, x, a);
    InstanceDeps(actions, expanded, y, b);
    EdgeRefers(actions, a, y, b);
    hide ExpansionOf, SurvivorRel, RefersTo;
    EdgeOf(DepsOf(expanded), x, y);
    assert (x, y) in ExpandedRel(expanded) <==> y in Elems(expanded[x].dependencies);
    RewrittenTo(actions, a, y, b);
    if WholeRefs(actions) { WholeEdge(actions, a, y, b); }
  }

  lemma RewrittenTo(actions: Section, a: Name, y: Name, b: Name)
    requires NamesOk(actions) && a in actions && IsInstance(actions, y, b)
    ensures y in RewriteAll(actions, RawDeps(actions[a])) <==> RefersTo(actions, a, y, b)
  {
    var raws := RawDeps(actions[a]);
    forall raw | raw in raws ensures y in Rewrite(actions, raw) <==> raw == b || raw == y {
      RewriteBase(actions, raw, y, b);
    }
    hide Rewrite, IsInstance;
  }

  lemma EdgeRefers(actions: Section, a: Name, y: Name, b: Name)
    requires a in Survivors(actions) && IsInstance(actions, y, b)
    ensures RefersTo(actions, a, y, b) ==> (a, b) in SurvivorRel(actions)
  {
  }

  lemma WholeEdge(actions: Section, a: Name, y: Name, b: Name)
    requires NamesOk(actions) && WholeRefs(actions) && a in actions && IsInstance(actions, y, b)
    ensures (a, b) in SurvivorRel(actions) ==> RefersTo(actions, a, y, b)
  {
    if (a, b) in SurvivorRel(actions) && b !in RawDeps(actions[a]) {
      var z :| z in Instances(actions, b) && RefersTo(actions, a, z, b);
      InstanceShape(actions, z, b);
    }
  }

  // Whatever a's edge to b refers to, every instance of a has it.
  lemma EdgeUp(actions: Section, expanded: map<Name, Expanded>, x: Name, a: Name, b: Name) returns (y: Name)
    requires NamesOk(actions) && ExpansionOf(actions, expanded) && IsInstance(actions, x, a)
    requires (a, b) in SurvivorRel(actions)
    ensures IsInstance(actions, y, b) && (x, y) in ExpandedRel(expanded)
  {
    y := Referred(actions, a, b);
    hide *;
    EdgeLift(actions, expanded, x, y, a, b);
  }

  lemma Referred(actions: Section, a: Name, b: Name) returns (y: Name)
    requires a in actions && (a, b) in SurvivorRel(actions)
    ensures IsInstance(actions, y, b) && RefersTo(actions, a, y, b)
  {
    if b in RawDeps(actions[a]) {
      y := SomeInstance(actions, b);
    } else {
      y :| y in Instances(actions, b) && RefersTo(actions, a, y, b);
    }
  }

  lemma BaseOf(actions: Section, expanded: map<Name, Expanded>, x: Name)
    requires ExpansionOf(actions, expanded) && x in expanded
    ensures IsInstance(actions, x, expanded[x].base)
  {
    assert ExpandedOk(actions, expanded.Keys, x, expanded[x]);
  }

  lemma SomeInstance(actions: Section, b: Name) returns (x: Name)
    requires b in Survivors(actions)
    ensures IsInstance(actions, x, b)
  {
    x := Instances(actions, b)[0];
  }

  lemma EdgeEnds(expanded: map<Name, Expanded>, x: Name, y: Name)
    requires (x, y) in ExpandedRel(expanded)
    ensures x in expanded && y in expanded
  {
  }

  lemma SurvivorEnds(actions: Section, a: Name, b: Name)
    requires (a, b) in SurvivorRel(actions)
    ensures a in Survivors(actions) && b in Survivors(actions)
  {
  }

  lemma {:induction false} WalkLift(actions: Section, expanded: map<Name, Expanded>, x: Name, a: Name, n: nat)
    requires NamesOk(actions) && ExpansionOf(actions, expanded) && IsInstance(actions, x, a)
    ensures HasWalk(ExpandedRel(expanded), x, n) <==> HasWalk(SurvivorRel(actions), a, n)
    decreases n
  {
    hide ExpansionOf, ExpandedRel, SurvivorRel, Survivors, NamesOk, WholeRefs, IsInstance, RefersTo;
    if n > 0 {
      if HasWalk(ExpandedRel(expanded), x, n) {
        var y :| (x, y) in ExpandedRel(expanded) && HasWalk(ExpandedRel(expanded), y, n - 1);
        EdgeEnds(expanded, x, y);
        BaseOf(actions, expanded, y);
        EdgeLift(actions, expanded, x, y, a, expanded[y].base);
        WalkLift(actions, expanded, y, expanded[y].base, n - 1);
      }
      if HasWalk(SurvivorRel(actions), a, n) {
        var b :| (a, b) in SurvivorRel(actions) && HasWalk(SurvivorRel(actions), b, n - 1);
        var y := EdgeUp(actions, expanded, x, a, b);
        WalkLift(actions, expanded, y, b, n - 1);
      }
    }
  }

  // Every instance sits on the level its action has among the survivors.
  lemma LevelKept(actions: Section, expanded: map<Name, Expanded>, x: Name, a: Name, k: nat)
    requires NamesOk(actions) && ExpansionOf(actions, expanded) && IsInstance(actions, x, a)
    ensures Level(ExpandedRel(expanded), x, k) <==> Level(SurvivorRel(actions), a, k)
  {
    WalkLift(actions, expanded, x, a, k);
    WalkLift(actions, expanded, x, a, k + 1);
  }

  // b can be reached from a in at least one step, through the relation only.
  ghost predicate TransitivelyOn(r: Rel, a: Name, b: Name) {
    exists p :: WalkFromTo(r, p, a, b) && |p| > 1
  }

  // A chain of actions that all have instances leads from a to c, which refers
  // to b or to its instance y.
  ghost predicate LeadsTo(actions: Section, a: Name, c: Name, y: Name, b: Name) {
    && c in Survivors(actions) && RefersTo(actions, c, y, b)
    && (c == a || TransitivelyOn(SurvivorRel(actions), a, c))
  }

  // Every instance of a depends transitively on instance y of b exactly when
  // such a chain exists.
  lemma OrderingExactly(actions: Section, expanded: map<Name, Expanded>, x: Name, a: Name, y: Name, b: Name)
    requires NamesOk(actions) && ExpansionOf(actions, expanded)
    requires IsInstance(actions, x, a) && IsInstance(actions, y, b)
    ensures TransitivelyOn(ExpandedRel(expanded), x, y) <==> exists c :: LeadsTo(actions, a, c, y, b)
  {
    hide *;
    if TransitivelyOn(ExpandedRel(expanded), x, y) {
      var c := ChainDown(actions, expanded, x, a, y, b);
    }
    if c :| LeadsTo(actions, a, c, y, b) {
      ChainUp(actions, expanded, x, a, c, y, b);
    }
  }

  lemma ChainDown(actions: Section, expanded: map<Name, Expanded>, x: Name, a: Name, y: Name, b: Name) returns (c: Name)
    requires NamesOk(actions) && ExpansionOf(actions, expanded)
    requires IsInstance(actions, x, a) && IsInstance(actions, y, b) && TransitivelyOn(ExpandedRel(expanded), x, y)
    ensures LeadsTo(actions, a, c, y, b)
  {
    var p :| WalkFromTo(ExpandedRel(expanded), p, x, y) && |p| > 1;
    var z := p[|p| - 2];
    LastEdge(ExpandedRel(expanded), p);
    hide *;
    var q := PathDown(actions, expanded, p);
    BaseIs(actions, expanded, x, a);
    BaseIs(actions, expanded, y, b);
    c := q[|q| - 2];
    EdgeEnds(expanded, z, y);
    BaseOf(actions, expanded, z);
    EdgeLift(actions, expanded, z, y, c, b);
    SurvivorEnds(actions, c, b);
    if |q| == 2 {
      BaseUnique(actions, x, a, c);
    } else {
      LastEdge(SurvivorRel(actions), q);
    }
    LeadsToIs(actions, a, c, y, b);
  }

  lemma LastEdge(r: Rel, p: seq<Name>)
    requires Walk(r, p) && |p| > 1
    ensures (p[|p| - 2], p[|p| - 1]) in r
    ensures |p| > 2 ==> TransitivelyOn(r, p[0], p[|p| - 2])
  {
    var n := |p| - 2;
    assert (p[n], p[n + 1]) in r;
    if |p| > 2 { assert WalkFromTo(r, p[..|p| - 1], p[0], p[|p| - 2]); }
  }

  lemma LeadsToIs(actions: Section, a: Name, c: Name, y: Name, b: Name)
    requires c in Survivors(actions) && c in actions && RefersTo(actions, c, y, b)
    requires c == a || TransitivelyOn(SurvivorRel(actions), a, c)
    ensures LeadsTo(actions, a, c, y, b)
  {
    hide RefersTo, SurvivorRel, Survivors, TransitivelyOn;
  }

  lemma BaseIs(actions: Section, expanded: map<Name, Expanded>, x: Name, a: Name)
    requires NamesOk(actions) && ExpansionOf(actions, expanded) && IsInstance(actions, x, a)
    ensures x in expanded && expanded[x].base == a
  {
    assert x in expanded;
    BaseOf(actions, expanded, x);
    BaseUnique(actions, x, a, expanded[x].base);
  }

  lemma ChainUp(actions: Section, expanded: map<Name, Expanded>, x: Name, a: Name, c: Name, y: Name, b: Name)
    requires NamesOk(actions) && ExpansionOf(actions, expanded)
    requires IsInstance(actions, x, a) && IsInstance(actions, y, b) && LeadsTo(actions, a, c, y, b)
    ensures TransitivelyOn(ExpandedRel(expanded), x, y)
  {
    hide ExpansionOf, ExpandedRel, SurvivorRel, NamesOk, WholeRefs, IsInstance, RefersTo, Survivors;
    if c == a {
      EdgeLift(actions, expanded, x, y, a, b);
      assert WalkFromTo(ExpandedRel(expanded), [x, y], x, y);
    } else {
      var q :| WalkFromTo(SurvivorRel(actions), q, a, c) && |q| > 1;
      var p := PathUp(actions, expanded, q, x);
      EdgeLift(actions, expanded, p[|p| - 1], y, c, b);
      assert WalkFromTo(ExpandedRel(expanded), p + [y], x, y);
    }
  }

  // So where every reference names a whole action, every instance of a depends
  // transitively on every instance of b exactly when a chain of actions that all
  // have instances leads from a to b.
  lemma OrderingKept(actions: Section, expanded: map<Name, Expanded>, x: Name, a: Name, y: Name, b: Name)
    requires NamesOk(actions) && ExpansionOf(actions, expanded)
    requires IsInstance(actions, x, a) && IsInstance(actions, y, b)
    ensures TransitivelyOn(ExpandedRel(expanded), x, y) ==> TransitivelyOn(SurvivorRel(actions), a, b)
    ensures WholeRefs(actions) ==>
              (TransitivelyOn(ExpandedRel(expanded), x, y) <==> TransitivelyOn(SurvivorRel(actions), a, b))
  {
    if TransitivelyOn(ExpandedRel(expanded), x, y) {
      var p :| WalkFromTo(ExpandedRel(expanded), p, x, y) && |p| > 1;
      var q := PathDown(actions, expanded, p);
      BaseIs(actions, expanded, x, a);
      BaseIs(actions, expanded, y, b);
      assert WalkFromTo(SurvivorRel(actions), q, a, b);
    }
    if TransitivelyOn(SurvivorRel(actions), a, b) && WholeRefs(actions) {
      var c := LastAction(actions, a, b, y);
      hide *;
      ChainUp(actions, expanded, x, a, c, y, b);
    }
  }

  lemma LastAction(actions: Section, a: Name, b: Name, y: Name) returns (c: Name)
    requires NamesOk(actions) && WholeRefs(actions) && IsInstance(actions, y, b)
    requires TransitivelyOn(SurvivorRel(actions), a, b)
    ensures LeadsTo(actions, a, c, y, b)
  {
    var q :| WalkFromTo(SurvivorRel(actions), q, a, b) && |q| > 1;
    c := q[|q| - 2];
    LastEdge(SurvivorRel(actions), q);
    SurvivorEnds(actions, c, b);
    assert c in actions;
    WholeEdge(actions, c, y, b);
    hide *;
    LeadsToIs(actions, a, c, y, b);
  }

  lemma PathDown(actions: Section, expanded: map<Name, Expanded>, p: seq<Name>) returns (q: seq<Name>)
    requires NamesOk(actions) && ExpansionOf(actions, expanded)
    requires Walk(ExpandedRel(expanded), p) && |p| > 1
    ensures Walk(SurvivorRel(actions), q) && |q| == |p|
    ensures forall i | 0 <= i < |p| :: p[i] in expanded && q[i] == expanded[p[i]].base
  {
    hide ExpansionOf, ExpandedRel, SurvivorRel, Survivors, NamesOk, WholeRefs, IsInstance, RefersTo;
    forall i | 0 <= i < |p| ensures p[i] in expanded {
      if i < |p| - 1 {
        EdgeEnds(expanded, p[i], p[i + 1]);
      } else {
        EdgeEnds(expanded, p[i - 1], p[i - 1 + 1]);
      }
    }
    q := seq(|p|, i requires 0 <= i < |p| => expanded[p[i]].base);
    forall i | 0 <= i < |q| - 1 ensures (q[i], q[i + 1]) in SurvivorRel(actions) {
      assert (p[i], p[i + 1]) in ExpandedRel(expanded);
      BaseOf(actions, expanded, p[i]);
      BaseOf(actions, expanded, p[i + 1]);
      EdgeLift(actions, expanded, p[i], p[i + 1], q[i], q[i + 1]);
    }
  }

  // A walk of actions is followed from any instance of its first one.
  lemma {:induction false} PathUp(actions: Section, expanded: map<Name, Expanded>, q: seq<Name>, x: Name)
    returns (p: seq<Name>)
    requires NamesOk(actions) && ExpansionOf(actions, expanded)
    requires Walk(SurvivorRel(actions), q) && IsInstance(actions, x, q[0])
    ensures Walk(ExpandedRel(expanded), p) && |p| == |q| && p[0] == x
    ensures IsInstance(actions, p[|p| - 1], q[|q| - 1])
    decreases |q|
  {
    hide ExpansionOf, ExpandedRel, SurvivorRel, Survivors, NamesOk, IsInstance;
    if |q| == 1 {
      p := [x];
    } else {
      assert (q[0], q[1]) in SurvivorRel(actions);
      var z := EdgeUp(actions, expanded, x, q[0], q[1]);
      var rest := PathUp(actions, expanded, q[1..], z);
      p := [x] + rest;
    }
  }

  // A reference to one iteration orders its action after that iteration only:
  // d refers to b[0], and not to b[1].
  lemma OneIterationOnly(expanded: map<Name, Expanded>)
    requires ExpansionOf(OneIteration(), expanded)
    ensures IsInstance(OneIteration(), "d", "d")
    ensures forall i | 0 <= i < 2 :: IsInstance(OneIteration(), CreateIterationName("b", i), "b")
    ensures TransitivelyOn(SurvivorRel(OneIteration()), "d", "b")
    ensures TransitivelyOn(ExpandedRel(expanded), "d", CreateIterationName("b", 0))
    ensures !TransitivelyOn(ExpandedRel(expanded), "d", CreateIterationName("b", 1))
  {
    var actions := OneIteration();
    OneIterationShape();
    hide OneIteration, SurvivorRel, ExpandedRel, IsInstance, ExpansionOf, RefersTo, CreateIterationName, NamesOk;
    var b0, b1 := CreateIterationName("b", 0), CreateIterationName("b", 1);
    assert LeadsTo(actions, "d", "d", b0, "b");
    ChainUp(actions, expanded, "d", "d", "d", b0, "b");
    OrderingKept(actions, expanded, "d", "d", b0, "b");
    OrderingExactly(actions, expanded, "d", "d", b1, "b");
    assert forall c :: !LeadsTo(actions, "d", c, b1, "b");
  }

  lemma OneIterationShape()
    ensures var actions := OneIteration();
      var b0, b1 := CreateIterationName("b", 0), CreateIterationName("b", 1);
      && NamesOk(actions) && actions.Keys == {"b", "d"}
      && IsInstance(actions, "d", "d") && IsInstance(actions, b0, "b") && IsInstance(actions, b1, "b")
      && (forall i | 0 <= i < 2 :: IsInstance(actions, CreateIterationName("b", i), "b"))
      && "d" in Survivors(actions) && RefersTo(actions, "d", b0, "b")
      && forall c | c in Survivors(actions) :: !RefersTo(actions, c, b1, "b")
  {
    var actions := OneIteration();
    IterationNamesDistinct("b", 0, "b", 0);
    var b0, b1 := CreateIterationName("b", 0), CreateIterationName("b", 1);
    if b0 == b1 { IterationNamesDistinct("b", 0, "b", 1); }
    assert b1[1] == '[';
    assert Instances(actions, "b")[0] == b0 && Instances(actions, "b")[1] == b1;
    assert "d" in Instances(actions, "d");
    hide CreateIterationName;
    assert RawDeps(actions["d"]) == [b0] && RawDeps(actions["b"]) == [];
  }

  function OneIteration(): Section {
    map["b" := Action([], [], [], Items(2), {}),
        "d" := Action([], [CreateIterationName("b", 0)], [], NoForEach, {})]
  }

  // With every array non-empty nothing is lost: instances sit on the level of
  // their action in the graph as written.
  lemma NonEmptyKeepsLevels(actions: Section, expanded: map<Name, Expanded>, x: Name, a: Name, k: nat)
    requires NamesOk(actions) && ExpansionOf(actions, expanded) && IsInstance(actions, x, a)
    requires Survivors(actions) == actions.Keys
    ensures Level(ExpandedRel(expanded), x, k) <==> Level(BaseRel(actions), a, k)
  {
    assert SurvivorRel(actions) == BaseRel(actions);
    LevelKept(actions, expanded, x, a, k);
  }

  // ... and if a depends transitively on b, then in the phases of the expanded
  // section every instance of a comes strictly after every instance of b, even
  // if a reference singles out one of them.
  lemma NonEmptyKeepsOrder(actions: Section, expanded: map<Name, Expanded>, phases: seq<seq<Name>>,
                           a: Name, b: Name, i: nat, j: nat, x: Name, y: Name)
    requires NamesOk(actions) && ExpansionOf(actions, expanded) && Survivors(actions) == actions.Keys
    requires PhasesOf(expanded.Keys, ExpandedRel(expanded), phases) && !Cyclic(ExpandedRel(expanded))
    requires TransitivelyOn(BaseRel(actions), a, b)
    requires IsInstance(actions, x, a) && IsInstance(actions, y, b)
    requires i < |phases| && j < |phases| && x in phases[i] && y in phases[j]
    ensures j < i
  {
    assert SurvivorRel(actions) == BaseRel(actions);
    hide ExpansionOf, ExpandedRel, SurvivorRel, Survivors, NamesOk, IsInstance, BaseRel, Walk, Level;
    assert IsPhase(expanded.Keys, ExpandedRel(expanded), i, phases[i]);
    assert IsPhase(expanded.Keys, ExpandedRel(expanded), j, phases[j]);
    LevelKept(actions, expanded, x, a, i);
    LevelKept(actions, expanded, y, b, j);
    CyclesKept(actions, expanded);
    var p :| WalkFromTo(SurvivorRel(actions), p, a, b) && |p| > 1;
    LevelDropsAlongWalk(SurvivorRel(actions), p, i, j);
  }

  // With an empty array the order between the neighbours of the vanished action
  // is lost: c depends on b depends on a, b expands to nothing, and both a and
  // c land on level 0.
  lemma EmptyArrayLosesOrder(expanded: map<Name, Expanded>)
    requires ExpansionOf(VanishingMiddle(), expanded)
    ensures TransitivelyOn(BaseRel(VanishingMiddle()), "c", "a")
    ensures "a" in expanded && "c" in expanded
    ensures Level(ExpandedRel(expanded), "a", 0) && Level(ExpandedRel(expanded), "c", 0)
  {
    var actions := VanishingMiddle();
    VanishingShape();
    assert "a" in expanded && "c" in expanded;
    hide VanishingMiddle, BaseRel, SurvivorRel, Instances, IsInstance, ExpansionOf;
    LevelKept(actions, expanded, "a", "a", 0);
    LevelKept(actions, expanded, "c", "c", 0);
  }

  lemma VanishingShape()
    ensures var actions := VanishingMiddle();
      && TransitivelyOn(BaseRel(actions), "c", "a") && NamesOk(actions)
      && IsInstance(actions, "a", "a") && IsInstance(actions, "c", "c")
      && SurvivorRel(actions) == {}
  {
    var actions := VanishingMiddle();
    assert WalkFromTo(BaseRel(actions), ["c", "b", "a"], "c", "a");
    assert "a" in Instances(actions, "a") && "c" in Instances(actions, "c");
    assert Instances(actions, "b") == [];
  }

  function VanishingMiddle(): Section {
    map["a" := Action([], [], [], NoForEach, {}),
        "b" := Action(["a"], [], [], Items(0), {}),
        "c" := Action(["b"], [], [], NoForEach, {})]
  }

  // Exclusion between instances is exclusion between their actions, when
  // exclusions name whole actions, as validation demands.
  lemma ExclusionKept(actions: Section, expanded: map<Name, Expanded>, x: Name, y: Name, a: Name, b: Name)
    requires NamesOk(actions) && ExclusiveNamesOk(actions) && ExpansionOf(actions, expanded)
    requires IsInstance(actions, x, a) && IsInstance(actions, y, b)
    ensures Conflict(ExclusiveOf(expanded), x, y) <==> Conflict(BaseExclusive(actions), a, b)
  {
    ExclusionOneWay(actions, expanded, x, y, a, b);
    ExclusionOneWay(actions, expanded, y, x, b, a);
  }

  lemma ExclusionOneWay(actions: Section, expanded: map<Name, Expanded>, x: Name, y: Name, a: Name, b: Name)
    requires NamesOk(actions) && ExclusiveNamesOk(actions) && ExpansionOf(actions, expanded)
    requires IsInstance(actions, x, a) && IsInstance(actions, y, b)
    ensures y in Succ(ExclusiveOf(expanded), x) <==> b in Succ(BaseExclusive(actions), a)
  {
    assert x in expanded;
    var e := expanded[x];
    assert ExpandedOk(actions, expanded.Keys, x, e);
    BaseUnique(actions, x, a, e.base);
    InstanceShape(actions, y, b);
    var raws := actions[a].exclusive;
    forall raw | raw in raws ensures y in Rewrite(actions, raw) <==> raw == b {
      RewriteBase(actions, raw, y, b);
    }
    assert y in e.exclusive <==> y in Elems(e.exclusive);
    assert y in RewriteAll(actions, raws) <==> b in raws;
  }

  function ExclusiveOf(expanded: map<Name, Expanded>): Deps {
    map x | x in expanded :: expanded[x].exclusive
  }

  function BaseExclusive(actions: Section): Deps {
    map b | b in actions :: actions[b].exclusive
  }

  // ---------------------------------------------------------------------
  // The whole graph

  datatype Graph = Graph(main: map<Name, Expanded>, fin: map<Name, Expanded>,
                         executionOrder: seq<seq<Name>>, finallyOrder: seq<seq<Name>>)

  ghost predicate SectionOrder(actions: Section, expanded: map<Name, Expanded>, order: seq<seq<Name>>) {
    && ExpansionOf(actions, expanded)
    && ExecutionOrder(expanded.Keys, ExpandedRel(expanded), ExclusiveOf(expanded), order)
  }

  method BuildSection(actions: Section) returns (res: Result<(map<Name, Expanded>, seq<seq<Name>>), string>)
    ensures res.Ok? ==> SectionOrder(actions, res.value.0, res.value.1)
    ensures res.Err? && Evaluable(actions) && NamesOk(actions) ==> Cyclic(SurvivorRel(actions))
    ensures res.Ok? && NamesOk(actions) ==> Evaluable(actions) && !Cyclic(SurvivorRel(actions))
  {
    var expansion := ExpandSection(actions);
    if expansion.Err? {
      return Err(expansion.error);
    }
    var expanded := expansion.value;
    if NamesOk(actions) { CyclesKept(actions, expanded); }
    var order := ComputeOrder(expanded.Keys, DepsOf(expanded), ExclusiveOf(expanded));
    if order.Err? {
      return Err(order.error);
    }
    return Ok((expanded, order.value));
  }

  // Expansion neither makes nor breaks cycles among the survivors.
  lemma CyclesKept(actions: Section, expanded: map<Name, Expanded>)
    requires NamesOk(actions) && ExpansionOf(actions, expanded)
    ensures Cyclic(ExpandedRel(expanded)) <==> Cyclic(SurvivorRel(actions))
  {
    hide ExpansionOf, ExpandedRel, SurvivorRel, Survivors, NamesOk, IsInstance, BaseRel, HasWalk, Level;
    if Cyclic(ExpandedRel(expanded)) {
      var p :| ClosedWalk(ExpandedRel(expanded), p);
      var q := PathDown(actions, expanded, p);
      assert ClosedWalk(SurvivorRel(actions), q);
    } else if Cyclic(SurvivorRel(actions)) {
      var q :| ClosedWalk(SurvivorRel(actions), q);
      LongWalkUp(actions, expanded, q);
    }
  }

  // From an instance on a cycle one can walk further than any level allows.
  lemma LongWalkUp(actions: Section, expanded: map<Name, Expanded>, q: seq<Name>)
    requires NamesOk(actions) && ExpansionOf(actions, expanded) && ClosedWalk(SurvivorRel(actions), q)
    ensures Cyclic(ExpandedRel(expanded))
  {
    hide ExpansionOf, ExpandedRel, SurvivorRel, Survivors, NamesOk, IsInstance, BaseRel, HasWalk, Cyclic;
    assert (q[0], q[1]) in SurvivorRel(actions);
    SurvivorEnds(actions, q[0], q[1]);
    var x := SomeInstance(actions, q[0]);
    if !Cyclic(ExpandedRel(expanded)) {
      var k := LevelOf(ExpandedRel(expanded), x);
      CycleWalksForever(SurvivorRel(actions), q, 0, k + 1);
      WalkLift(actions, expanded, x, q[0], k + 1);
    }
  }

  method BuildGraph(main: Section, fin: Section) returns (res: Result<Graph, string>)
    ensures res.Ok? ==>
      && SectionOrder(main, res.value.main, res.value.executionOrder)
      && SectionOrder(fin, res.value.fin, res.value.finallyOrder)
    ensures NamesOk(main) && NamesOk(fin) ==>
      (res.Ok? <==> Evaluable(main) && Evaluable(fin) && !Cyclic(SurvivorRel(main)) && !Cyclic(SurvivorRel(fin)))
  {
    var mainRes := BuildSection(main);
    if mainRes.Err? { return Err(mainRes.error); }
    var finRes := BuildSection(fin);
    if finRes.Err? { return Err(finRes.error); }
    return Ok(Graph(mainRes.value.0, finRes.value.0, mainRes.value.1, finRes.value.1));
  }
}
