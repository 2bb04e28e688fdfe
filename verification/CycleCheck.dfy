/** The depth-first cycle check of workflow validation (validation.go). */
module CycleCheck {
  import opened Base
  import opened Digraph

  // What the check reports: a simple cycle of real edges whose last name is
  // written twice. The walk starts at the child of the name that closes it.
  ghost predicate ReportedCycle(r: Rel, c: seq<Name>) {
    && |c| >= 2 && c[|c| - 1] == c[|c| - 2]
    && SimpleCycle(r, c[..|c| - 1])
  }

  ghost predicate SimpleCycle(r: Rel, s: seq<Name>) {
    && |s| > 0 && Distinct(s) && Walk(r, s)
    && (s[|s| - 1], s[0]) in r
  }

  lemma SimpleCycleCyclic(r: Rel, s: seq<Name>)
    requires SimpleCycle(r, s)
    ensures Cyclic(r)
  {
    var p := s + [s[0]];
    assert forall i | 0 <= i < |s| :: p[i] == s[i];
    assert ClosedWalk(r, p);
  }

  // ---------------------------------------------------------------------
  // The search invariant, over the values of the search's variables

  const VISITING := 1
  const VISITED := 2

  function StateOf(state: map<Name, int>, x: Name): int {
    if x in state then state[x] else 0
  }

  // The names being visited are the stack, the visited ones were finished.
  ghost predicate Coloured(state: map<Name, int>, stack: seq<Name>, finished: seq<Name>) {
    && Distinct(stack) && Distinct(finished)
    && (forall x :: x in stack <==> StateOf(state, x) == VISITING)
    && (forall x :: x in finished <==> StateOf(state, x) == VISITED)
    && (forall x | x in state :: state[x] == VISITING || state[x] == VISITED)
  }

  // Each name on the stack depends on the one above it, and the parent links
  // remember that.
  ghost predicate Linked(deps: Deps, parent: map<Name, Name>, stack: seq<Name>) {
    forall i | 0 < i < |stack| ::
      && (stack[i - 1], stack[i]) in EdgesOf(deps)
      && stack[i] in parent && parent[stack[i]] == stack[i - 1]
  }

  lemma Push(state: map<Name, int>, stack: seq<Name>, finished: seq<Name>, node: Name)
    requires Coloured(state, stack, finished) && StateOf(state, node) == 0
    ensures Coloured(state[node := VISITING], stack + [node], finished)
    ensures node !in Elems(stack) && node !in Elems(finished)
  {
    var s, t := state[node := VISITING], stack + [node];
    forall x ensures x in t <==> StateOf(s, x) == VISITING {
      assert x in t <==> x in stack || x == node;
    }
  }

  lemma Pop(state: map<Name, int>, stack: seq<Name>, finished: seq<Name>, node: Name)
    requires Coloured(state, stack + [node], finished)
    ensures Coloured(state[node := VISITED], stack, finished + [node])
  {
    var s, t := state[node := VISITED], stack + [node];
    assert node in t && t[|stack|] == node;
    forall i | 0 <= i < |stack| ensures stack[i] != node { assert t[i] != t[|stack|]; }
    forall x ensures x in stack <==> StateOf(s, x) == VISITING {
      assert x in t <==> x in stack || x == node;
    }
    forall x ensures x in finished + [node] <==> StateOf(s, x) == VISITED {
      assert x in finished + [node] <==> x in finished || x == node;
    }
    assert node !in finished;
    forall i, j | 0 <= i < j < |finished + [node]|
      ensures (finished + [node])[i] != (finished + [node])[j]
    {
      if j == |finished| { assert finished[i] in finished; }
    }
    forall i, j | 0 <= i < j < |stack| ensures stack[i] != stack[j] {
      assert t[i] != t[j];
    }
  }

  lemma TopologicalSnoc(r: Rel, order: seq<Name>, node: Name)
    requires Topological(r, order)
    requires forall b | (node, b) in r :: b in order
    ensures Topological(r, order + [node])
  {
    var o := order + [node];
    forall i, b | 0 <= i < |o| && (o[i], b) in r ensures b in o[..i] {
      if i < |order| {
        assert o[..i] == order[..i];
      } else {
        assert o[..i] == order;
      }
    }
  }

  lemma LinkAt(deps: Deps, parent: map<Name, Name>, stack: seq<Name>, m: nat)
    requires Linked(deps, parent, stack) && 0 < m < |stack|
    ensures stack[m] in parent && parent[stack[m]] == stack[m - 1]
    ensures stack[m..] == [stack[m]] + stack[m + 1..]
  {
  }

  // The names above dep on the stack, followed by dep, are a simple cycle.
  lemma StackCycle(deps: Deps, parent: map<Name, Name>, stack: seq<Name>, j: nat, m: nat)
    requires Linked(deps, parent, stack) && Distinct(stack)
    requires j < |stack| && (stack[|stack| - 1], stack[j]) in EdgesOf(deps)
    requires m < |stack| && stack[m] == stack[j]
    ensures SimpleCycle(EdgesOf(deps), stack[m + 1..] + [stack[j]])
    ensures ReportedCycle(EdgesOf(deps), stack[m + 1..] + [stack[j]] + [stack[j]])
  {
    assert m == j;
    var c := stack[m + 1..] + [stack[j]] + [stack[j]];
    assert c[..|c| - 1] == stack[m + 1..] + [stack[j]];
    var s := stack[j + 1..] + [stack[j]];
    assert forall i | 0 <= i < |s| - 1 :: s[i] == stack[j + 1 + i];
    forall i | 0 <= i < |s| - 1 ensures (s[i], s[i + 1]) in EdgesOf(deps) {
      if i < |s| - 2 { assert s[i + 1] == stack[j + 1 + i + 1]; }
    }
    if |s| > 1 { assert s[0] == stack[j + 1]; }
  }

  class CycleFinder {
    const deps: Deps
    var state: map<Name, int>  // absent: unvisited
    var parent: map<Name, Name>
    var cycle: seq<Name>
    ghost var stack: seq<Name>
    ghost var finished: seq<Name>

    constructor (deps: Deps)
      ensures this.deps == deps && Valid() && stack == [] && finished == []
    {
      this.deps := deps;
      state, parent, cycle := map[], map[], [];
      stack, finished := [], [];
    }

    ghost predicate Valid()
      reads this
    {
      && Coloured(state, stack, finished)
      && Linked(deps, parent, stack)
      && Topological(EdgesOf(deps), finished)
      && Elems(stack) + Elems(finished) <= Universe(deps)
    }

    static ghost function Universe(deps: Deps): set<Name> {
      deps.Keys + Targets(deps)
    }

    // Walk back along parent links from the top of the stack to dep.
    method Reconstruct(node: Name, dep: Name)
      requires Linked(deps, parent, stack) && Distinct(stack)
      requires stack != [] && node == stack[|stack| - 1]
      requires dep in stack && (node, dep) in EdgesOf(deps)
      modifies this`cycle
      ensures ReportedCycle(EdgesOf(deps), cycle)
    {
      hide *;
      ghost var j :| 0 <= j < |stack| && stack[j] == dep;
      cycle := [dep];
      var curr := node;
      ghost var m := |stack| - 1;
      while curr != dep
        invariant j <= m < |stack| && curr == stack[m]
        invariant cycle == stack[m + 1..] + [dep]
        decreases m
      {
        LinkAt(deps, parent, stack, m);
        cycle := [curr] + cycle;
        curr := parent[curr];
        m := m - 1;
      }
      StackCycle(deps, parent, stack, j, m);
      cycle := cycle + [dep];
    }

    method Dfs(node: Name) returns (found: bool)
      requires Valid() && StateOf(state, node) == 0 && node in Universe(deps)
      requires stack != [] ==>
        && (stack[|stack| - 1], node) in EdgesOf(deps)
        && node in parent && parent[node] == stack[|stack| - 1]
      modifies this
      ensures found ==> ReportedCycle(EdgesOf(deps), cycle)
      ensures !found ==> Valid() && stack == old(stack)
      ensures !found ==> old(finished) <= finished && node in finished && Unseen() <= old(Unseen())
      decreases Unseen()
    {
      hide *;
      ghost var below := stack;
      ghost var before := finished;
      ghost var unseen := Unseen();
      Start(node);
      var targets := Succ(deps, node);
      var i := 0;
      NothingToDo(targets, finished);
      while i < |targets|
        invariant 0 <= i <= |targets|
        invariant Valid() && stack == below + [node]
        invariant before <= finished && Unseen() < unseen
        invariant Done(targets[..i], finished)
      {
        var dep := targets[i];
        EdgeOf(deps, node, dep);
        Facts(dep);
        if StateOf(state, dep) == VISITING {
          Reconstruct(node, dep);
          return true;
        }
        if StateOf(state, dep) == 0 {
          SetParent(dep, node);
          ghost var now := finished;
          found := Dfs(dep);
          if found { return true; }
          DoneLater(targets[..i], now, finished);
        }
        DoneNext(targets, i, finished);
        i := i + 1;
      }
      assert targets[..i] == targets;
      Finish(node, below);
      found := false;
    }

    static ghost predicate Done(list: seq<Name>, finished: seq<Name>) {
      forall d | d in list :: d in finished
    }

    static lemma NothingToDo(list: seq<Name>, finished: seq<Name>)
      ensures Done(list[..0], finished)
    {
    }

    static lemma DoneLater(list: seq<Name>, before: seq<Name>, after: seq<Name>)
      requires Done(list, before) && before <= after
      ensures Done(list, after)
    {
    }

    static lemma DoneNext(list: seq<Name>, i: nat, finished: seq<Name>)
      requires i < |list| && Done(list[..i], finished) && list[i] in finished
      ensures Done(list[..i + 1], finished)
    {
      assert list[..i + 1] == list[..i] + [list[i]];
    }

    // Names not yet reached.
    ghost function Unseen(): set<Name>
      reads this
    {
      Universe(deps) - Elems(stack) - Elems(finished)
    }

    static lemma FewerUnseen(deps: Deps, stack: seq<Name>, before: seq<Name>, after: seq<Name>)
      requires before <= after
      ensures Universe(deps) - Elems(stack) - Elems(after) <= Universe(deps) - Elems(stack) - Elems(before)
    {
    }

    lemma Facts(dep: Name)
      requires Valid() && stack != [] && (stack[|stack| - 1], dep) in EdgesOf(deps)
      ensures Linked(deps, parent, stack) && Distinct(stack)
      ensures dep in Universe(deps)
      ensures StateOf(state, dep) == VISITING <==> dep in stack
      ensures StateOf(state, dep) != 0 && StateOf(state, dep) != VISITING ==> dep in finished
      ensures VISITING == 1
    {
    }

    method SetParent(dep: Name, node: Name)
      requires Valid() && StateOf(state, dep) == 0
      modifies this`parent
      ensures Valid() && parent == old(parent)[dep := node] && Unseen() == old(Unseen())
    {
      assert dep !in stack;
      parent := parent[dep := node];
    }

    // The first statement of the visit: node is being visited.
    method Start(node: Name)
      requires Valid() && StateOf(state, node) == 0 && node in Universe(deps)
      requires stack != [] ==>
        && (stack[|stack| - 1], node) in EdgesOf(deps)
        && node in parent && parent[node] == stack[|stack| - 1]
      modifies this`state, this`stack
      ensures Valid() && stack == old(stack) + [node]
      ensures Unseen() < old(Unseen())
    {
      Push(state, stack, finished, node);
      assert Elems(stack + [node]) == Elems(stack) + {node};
      assert node in Unseen();
      state := state[node := VISITING];
      stack := stack + [node];
    }

    // The last statement of the visit: node is done.
    method Finish(node: Name, ghost below: seq<Name>)
      requires Valid() && stack == below + [node]
      requires Done(Succ(deps, node), finished)
      modifies this`state, this`stack, this`finished
      ensures Valid() && stack == below && finished == old(finished) + [node] && Unseen() <= old(Unseen())
    {
      Pop(state, below, finished, node);
      forall b | (node, b) in EdgesOf(deps) ensures b in finished { EdgeOf(deps, node, b); }
      TopologicalSnoc(EdgesOf(deps), finished, node);
      assert forall i | 0 <= i < |below| :: stack[i] == below[i];
      assert node in stack && Elems(stack) == Elems(below) + {node};
      state := state[node := VISITED];
      stack := below;
      finished := finished + [node];
    }
  }

  // None stands for the nil result. Map order is arbitrary, as in Go.
  method FindCycle(deps: Deps) returns (res: Option<seq<Name>>)
    ensures res.None? <==> !Cyclic(EdgesOf(deps))
    ensures res.Some? ==> ReportedCycle(EdgesOf(deps), res.value)
  {
    var finder := new CycleFinder(deps);
    var todo := deps.Keys;
    while todo != {}
      invariant finder.deps == deps && todo <= deps.Keys
      invariant finder.Valid() && finder.stack == []
      invariant forall a | a in deps && a !in todo :: a in finder.finished
      invariant fresh(finder)
    {
      var node :| node in todo;
      todo := todo - {node};
      if StateOf(finder.state, node) == 0 {
        var found := finder.Dfs(node);
        if found {
          SimpleCycleCyclic(EdgesOf(deps), finder.cycle[..|finder.cycle| - 1]);
          return Some(finder.cycle);
        }
      }
    }
    TopologicalAcyclic(EdgesOf(deps), finder.finished);
    return None;
  }
}
