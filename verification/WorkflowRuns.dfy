/** From a workflow's actions to what happens when it runs: graph building and
    execution together (graph.go: BuildGraph; executor.go: Execute). */
module WorkflowRuns {
  import opened Base
  import opened Digraph
  import opened Exclusive
  import opened ActionContext
  import opened Scheduler
  import opened SchedulerResults
  import E = Expansion

  // The graph is what BuildGraph makes of the two sections, whose action names
  // are valid and unique.
  ghost predicate Planned(main: E.Section, fin: E.Section, graph: E.Graph) {
    && E.SectionOrder(main, graph.main, graph.executionOrder) && E.SectionOrder(fin, graph.fin, graph.finallyOrder)
    && E.NamesOk(main) && E.NamesOk(fin) && main.Keys !! fin.Keys
  }

  // One of the workflow's sections, with its expansion.
  ghost predicate SectionOf(main: E.Section, fin: E.Section, graph: E.Graph, section: E.Section,
                            expanded: map<Name, E.Expanded>) {
    (section == main && expanded == graph.main) || (section == fin && expanded == graph.fin)
  }

  lemma PlannedFacts(main: E.Section, fin: E.Section, graph: E.Graph, limit: int, continues: set<Name>,
                     section: E.Section, expanded: map<Name, E.Expanded>)
    requires Planned(main, fin, graph) && SectionOf(main, fin, graph, section, expanded)
    ensures ValidPlan(PlanOf(graph, limit, continues)) && E.ExpansionOf(section, expanded) && E.NamesOk(section)
    ensures forall x | x in expanded ::
              && Succ(PlanOf(graph, limit, continues).deps, x) == expanded[x].dependencies
              && Succ(PlanOf(graph, limit, continues).excl, x) == expanded[x].exclusive
  {
    GraphIsValidPlan(main, fin, graph, limit, continues);
    assert E.ExpansionOf(main, graph.main) && E.ExpansionOf(fin, graph.fin) by { hide ExecutionOrder; }
    ExpandedDisjoint(main, graph.main, fin, graph.fin);
    PlanSucc(graph, limit, continues);
    hide *;
    assert SectionOf(main, fin, graph, section, expanded);
  }

  // An instance of action a that has been spawned has every instance of each
  // action a refers to, or the single one it refers to, succeeded or skipped.
  lemma StartsAfterInstances(main: E.Section, fin: E.Section, graph: E.Graph, limit: int, continues: set<Name>,
                             section: E.Section, expanded: map<Name, E.Expanded>, es: seq<Event>,
                             x: Name, a: Name, y: Name, b: Name)
    requires Planned(main, fin, graph) && SectionOf(main, fin, graph, section, expanded)
    requires ValidRun(PlanOf(graph, limit, continues), es)
    requires E.IsInstance(section, x, a) && E.IsInstance(section, y, b) && E.RefersTo(section, a, y, b)
    requires x in After(PlanOf(graph, limit, continues), es).pc
    ensures var results := After(PlanOf(graph, limit, continues), es).results;
      y in results && (results[y].status == Succeeded || results[y].status == Skipped)
  {
    PlannedFacts(main, fin, graph, limit, continues, section, expanded);
    E.EdgeLift(section, expanded, x, y, a, b);
    DependencyOf(expanded, x, y);
    hide *;
    StartsAfterDependencies(PlanOf(graph, limit, continues), es, x, y);
  }

  lemma DependencyOf(expanded: map<Name, E.Expanded>, x: Name, y: Name)
    requires (x, y) in E.ExpandedRel(expanded)
    ensures x in expanded && y in expanded[x].dependencies
  {
  }

  // Instances of actions that exclude each other never run at the same time.
  lemma ExcludingInstancesApart(main: E.Section, fin: E.Section, graph: E.Graph, limit: int, continues: set<Name>,
                                section: E.Section, expanded: map<Name, E.Expanded>, es: seq<Event>,
                                x: Name, a: Name, y: Name, b: Name)
    requires Planned(main, fin, graph) && SectionOf(main, fin, graph, section, expanded)
    requires E.ExclusiveNamesOk(section) && ValidRun(PlanOf(graph, limit, continues), es)
    requires E.IsInstance(section, x, a) && E.IsInstance(section, y, b) && x != y
    requires b in section[a].exclusive || a in section[b].exclusive
    ensures !(x in Holders(After(PlanOf(graph, limit, continues), es).pc)
              && y in Holders(After(PlanOf(graph, limit, continues), es).pc))
  {
    var plan := PlanOf(graph, limit, continues);
    PlannedFacts(main, fin, graph, limit, continues, section, expanded);
    E.ExclusionKept(section, expanded, x, y, a, b);
    ConflictOf(section, expanded, plan.excl, x, a, y, b);
    hide *;
    if x in Holders(After(plan, es).pc) && y in Holders(After(plan, es).pc) {
      NeverRunTogether(plan, es, x, y);
    }
  }

  lemma ConflictOf(section: E.Section, expanded: map<Name, E.Expanded>, excl: Deps, x: Name, a: Name, y: Name, b: Name)
    requires E.ExpansionOf(section, expanded) && E.IsInstance(section, x, a) && E.IsInstance(section, y, b)
    requires forall z | z in expanded :: Succ(excl, z) == expanded[z].exclusive
    requires Conflict(E.ExclusiveOf(expanded), x, y) <==> Conflict(E.BaseExclusive(section), a, b)
    ensures Conflict(excl, x, y) <==> b in section[a].exclusive || a in section[b].exclusive
  {
    assert x in expanded && y in expanded;
    hide E.ExpansionOf;
  }

  // While a finally action is spawned every main action that was ever touched has
  // a final result, and no main action is spawned.
  lemma FinallyAfterMain(main: E.Section, fin: E.Section, graph: E.Graph, limit: int, continues: set<Name>,
                         es: seq<Event>, x: Name)
    requires Planned(main, fin, graph) && ValidRun(PlanOf(graph, limit, continues), es)
    requires x in graph.fin && x in After(PlanOf(graph, limit, continues), es).pc
    ensures var s := After(PlanOf(graph, limit, continues), es);
      forall y | y in graph.main :: y !in s.pc && (y in s.results ==> s.results[y].status != Running)
  {
    var plan := PlanOf(graph, limit, continues);
    PlannedOrders(main, fin, graph, limit, continues);
    RunInv(plan, es);
    hide *;
    OneSectionAtATime(plan, After(plan, es), x);
  }

  lemma PlannedOrders(main: E.Section, fin: E.Section, graph: E.Graph, limit: int, continues: set<Name>)
    requires Planned(main, fin, graph)
    ensures var plan := PlanOf(graph, limit, continues);
      && ValidPlan(plan) && plan.main == graph.executionOrder && plan.fin == graph.finallyOrder
      && forall n :: (n in graph.main <==> InOrder(plan.main, n)) && (n in graph.fin <==> InOrder(plan.fin, n))
  {
    GraphIsValidPlan(main, fin, graph, limit, continues);
    Ordered(main, graph.main, graph.executionOrder);
    Ordered(fin, graph.fin, graph.finallyOrder);
    hide ValidPlan, E.SectionOrder, InOrder, E.DepsOf, E.ExclusiveOf;
  }

  lemma Ordered(section: E.Section, expanded: map<Name, E.Expanded>, order: seq<seq<Name>>)
    requires E.SectionOrder(section, expanded, order)
    ensures forall n :: n in expanded <==> InOrder(order, n)
  {
  }

  lemma OneSectionAtATime(plan: Plan, s: State, x: Name)
    requires ValidPlan(plan) && Inv(plan, s) && InOrder(plan.fin, x) && x in s.pc
    ensures forall y | InOrder(plan.main, y) :: y !in s.pc && (y in s.results ==> s.results[y].status != Running)
  {
    assert s.pc.Keys <= Elems(Order(plan, s)[s.k]);
    hide NamesInv, GoodOrder, StageResult;
  }
}
