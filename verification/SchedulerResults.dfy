/** What every run of a workflow guarantees: the theorems about the scheduler. */
module SchedulerResults {
  import opened Base
  import opened Digraph
  import opened Exclusive
  import opened ActionContext
  import opened Scheduler
  import opened Names
  import E = Expansion

  // ---------------------------------------------------------------------
  // Safety, in every interleaving and under cancellation

  // An action that has been spawned, and so one that starts, has every
  // dependency Succeeded or Skipped; it keeps that while it runs.
  lemma StartsAfterDependencies(plan: Plan, es: seq<Event>, n: Name, d: Name)
    requires ValidPlan(plan) && ValidRun(plan, es)
    requires n in After(plan, es).pc && d in Succ(plan.deps, n)
    ensures d in After(plan, es).results
    ensures After(plan, es).results[d].status == Succeeded || After(plan, es).results[d].status == Skipped
  {
    RunInv(plan, es);
    var s := After(plan, es);
    assert DepsMet(plan, s.results, n);
  }

  // Two distinct actions that hold the semaphore never exclude each other.
  lemma NeverRunTogether(plan: Plan, es: seq<Event>, a: Name, b: Name)
    requires ValidPlan(plan) && ValidRun(plan, es)
    requires a in Holders(After(plan, es).pc) && b in Holders(After(plan, es).pc) && a != b
    ensures !Conflict(plan.excl, a, b)
  {
    RunInv(plan, es);
    var s := After(plan, es);
    OrderGood(plan, s);
    var group := Order(plan, s)[s.k];
    assert a in Elems(group) && b in Elems(group);
    assert Compatible(plan.excl, group);
  }

  lemma ConcurrencyBounded(plan: Plan, es: seq<Event>)
    requires ValidPlan(plan) && ValidRun(plan, es) && plan.maxConcurrency > 0
    ensures |Holders(After(plan, es).pc)| <= plan.maxConcurrency
  {
    RunInv(plan, es);
    var s := After(plan, es);
    if !s.active { assert Holders(s.pc) == {}; }
  }

  // ... and no fewer can: a waiting goroutine gets the semaphore whenever fewer
  // than that hold it, at any time if there is no limit.
  lemma AcquiresExactly(plan: Plan, es: seq<Event>, n: Name)
    requires ValidPlan(plan) && ValidRun(plan, es) && AtPc(After(plan, es), n, Waiting)
    ensures Enabled(plan, After(plan, es), Acquire(n))
            <==> plan.maxConcurrency <= 0 || |Holders(After(plan, es).pc)| < plan.maxConcurrency
  {
    RunInv(plan, es);
    var s := After(plan, es);
    hide ValidPlan, ValidRun, After, Inv;
    assert Holders(s.pc) <= s.pc.Keys - {n};
    SubsetCard(Holders(s.pc), s.pc.Keys - {n});
    assert |s.pc| == |s.pc.Keys|;
    HoldersBounded(plan, es);
  }

  lemma HoldersBounded(plan: Plan, es: seq<Event>)
    requires ValidPlan(plan) && ValidRun(plan, es) && After(plan, es).active
    ensures |Holders(After(plan, es).pc)| <= Capacity(plan, |After(plan, es).pc|)
  {
    RunInv(plan, es);
    hide ValidPlan, ValidRun, After, NamesInv, OtherInv;
  }

  // A result at rest is never changed again by any event.
  lemma RestIsFinal(plan: Plan, s: State, e: Event, n: Name)
    requires ValidPlan(plan) && Inv(plan, s) && Enabled(plan, s, e)
    requires n in s.results && s.results[n].status != Running
    ensures n in Next(plan, s, e).results && Next(plan, s, e).results[n] == s.results[n]
  {
    match e {
      case Cancel =>
      case Enter => EnterLeavesRest(plan, s, n); hide Inv, ValidPlan, EnterGroup;
      case Join => JoinLeavesRest(plan, s, n); hide Inv, ValidPlan, JoinGroup;
      case _ => MoveKeepsRest(plan, s, e, n); hide Inv, ValidPlan, Enabled, Next;
    }
  }

  lemma MoveKeepsRest(plan: Plan, s: State, e: Event, n: Name)
    requires ValidPlan(plan) && Inv(plan, s) && Enabled(plan, s, e) && MovesOne(e)
    requires n in s.results && s.results[n].status != Running
    ensures n in Next(plan, s, e).results && Next(plan, s, e).results[n] == s.results[n]
  {
    MoveEnabled(plan, s, e);
    hide Inv, ValidPlan, Enabled, Next, PcInv;
    AtHand(plan, s, e.n);
    MoveFrame(plan, s, e);
    if n == e.n { MoveLeavesRest(plan, s, e); }
  }

  lemma MoveLeavesRest(plan: Plan, s: State, e: Event)
    requires Enabled(plan, s, e) && MovesOne(e) && e.n in s.pc && PcInv(plan, s, e.n, s.pc[e.n])
    requires e.n in s.results && s.results[e.n].status != Running
    ensures e.n in Next(plan, s, e).results && Next(plan, s, e).results[e.n] == s.results[e.n]
  {
    hide Holders, EnterGroup, JoinGroup, Capacity, AtRest;
  }

  lemma EnterLeavesRest(plan: Plan, s: State, n: Name)
    requires ValidPlan(plan) && Inv(plan, s) && Enabled(plan, s, Enter) && n in s.results
    ensures n in EnterGroup(plan, s).results && EnterGroup(plan, s).results[n] == s.results[n]
  {
    if s.k < |Order(plan, s)| {
      GroupNew(plan, s, n);
    }
    hide Inv, ValidPlan;
  }

  lemma GroupNew(plan: Plan, s: State, n: Name)
    requires Inv(plan, s) && !s.active && s.k < |Order(plan, s)| && n in s.results
    ensures n !in Order(plan, s)[s.k]
  {
    if n in Order(plan, s)[s.k] { NewName(plan, s, s.k, n); }
  }

  lemma NewName(plan: Plan, s: State, i: nat, n: Name)
    requires Inv(plan, s) && i < |Order(plan, s)| && n in Order(plan, s)[i]
    requires i > s.k || (i == s.k && !s.active)
    ensures n !in s.results
  {
    assert NameInv(plan, s, i, n);
  }

  lemma JoinLeavesRest(plan: Plan, s: State, n: Name)
    requires ValidPlan(plan) && Inv(plan, s) && Enabled(plan, s, Join) && n in s.results
    ensures n in JoinGroup(plan, s).results && JoinGroup(plan, s).results[n] == s.results[n]
  {
    EnabledJoin(plan, s);
    LaterNew(plan, s);
    hide Inv, ValidPlan, Enabled;
    SkipSetAt(s.results, LaterNames(Order(plan, s), s.k), DependencyFailed, n);
  }

  // ... so each action reaches at most one final result in a whole run.
  lemma {:induction false} OneResult(plan: Plan, es: seq<Event>, k: nat, n: Name)
    requires ValidPlan(plan) && ValidRun(plan, es) && k <= |es| && ValidRun(plan, es[..k])
    requires n in After(plan, es[..k]).results && After(plan, es[..k]).results[n].status != Running
    ensures n in After(plan, es).results && After(plan, es).results[n] == After(plan, es[..k]).results[n]
    decreases |es|
  {
    if k == |es| {
      assert es[..k] == es;
    } else {
      var init := es[..|es| - 1];
      assert init[..k] == es[..k];
      OneResult(plan, init, k, n);
      RunInv(plan, init);
      RestIsFinal(plan, After(plan, init), es[|es| - 1], n);
    }
  }

  // ---------------------------------------------------------------------
  // Passing a phase, and cancelling

  // A joined phase is passed exactly when each of its failed actions continues.
  lemma PassedExactly(plan: Plan, es: seq<Event>)
    requires ValidPlan(plan) && ValidRun(plan, es) && Enabled(plan, After(plan, es), Join)
    ensures var s := After(plan, es);
      s.k < |Order(plan, s)| &&
      (Next(plan, s, Join) == NextGroup(s) <==> GroupContinues(plan, Order(plan, s)[s.k], s.results))
  {
    RunInv(plan, es);
    var s := After(plan, es);
    var group := Order(plan, s)[s.k];
    if s.errs && !AllContinue(plan, s, group) {
      StopFails(plan, s, s.results);
      assert LeaveStage(plan, s, true).stage != s.stage;
    } else {
      forall n | n in group && n in s.results && Failing(s.results[n].status) ensures n in plan.continues {
        JoinedAtRest(plan, s, n);
      }
    }
  }

  // Cancelling between phases marks the phase at hand and leaves the later ones
  // of the stage without a result.
  lemma CancelMarksOnePhase(plan: Plan, es: seq<Event>, i: nat, n: Name)
    requires ValidPlan(plan) && ValidRun(plan, es)
    requires var s := After(plan, es);
      && s.stage != Done && !s.active && StageCancelled(s)
      && s.k < |Order(plan, s)| && s.k <= i < |Order(plan, s)| && n in Order(plan, s)[i]
    ensures var s := After(plan, es); var s' := Next(plan, s, Enter);
      && s'.stage != s.stage
      && (i == s.k ==> n in s'.results && s'.results[n].status == Cancelled)
      && (i > s.k ==> n !in s'.results)
  {
    RunInv(plan, es);
    var s := After(plan, es);
    assert NameInv(plan, s, i, n);
    OrderGood(plan, s);
    if n in Order(plan, s)[s.k] { assert i == s.k; }
  }

  // ---------------------------------------------------------------------
  // How runs end

  // An uncancelled run: both sections end as StageResult says, and the status
  // is decided by the failures. Succeeded means nothing failed or timed out.
  lemma FinishedRun(plan: Plan, es: seq<Event>)
    requires ValidPlan(plan) && ValidRun(plan, es)
    requires After(plan, es).stage == Done && !After(plan, es).cancelled
    ensures var s := After(plan, es);
      && StageResult(plan, plan.main, s.results, s.mainErr)
      && StageResult(plan, plan.fin, s.results, s.finErr)
      && (FinalStatus(s) == ExecutionSucceeded <==> FailedActions(s.results) == {})
      && (FinalStatus(s) == ExecutionFailed <==> s.mainErr)
      && (FinalStatus(s) == PartialSuccess <==> !s.mainErr && FailedActions(s.results) != {})
  {
    RunInv(plan, es);
    var s := After(plan, es);
    if s.mainErr { StoppedHasFailure(plan, plan.main, s.results); }
    if s.finErr { StoppedHasFailure(plan, plan.fin, s.results); }
  }

  lemma StoppedHasFailure(plan: Plan, order: seq<seq<Name>>, results: Results)
    requires StageResult(plan, order, results, true)
    ensures FailedActions(results) != {}
  {
    var k: nat :| StoppedAt(plan, order, results, k);
    var n :| n in order[k] && n in results && Failing(results[n].status) && n !in plan.continues;
    assert n in FailedActions(results);
  }

  // The finally section runs to its end after a cancelled main section too.
  lemma FinallyAlwaysRuns(plan: Plan, es: seq<Event>)
    requires ValidPlan(plan) && ValidRun(plan, es)
    requires After(plan, es).stage == Done && (After(plan, es).detached || !After(plan, es).cancelled)
    ensures StageResult(plan, plan.fin, After(plan, es).results, After(plan, es).finErr)
  {
    RunInv(plan, es);
  }

  // ---------------------------------------------------------------------
  // No run is stuck, and no run goes on for ever

  // Some event other than a cancellation is possible until the run is done.
  lemma Progress(plan: Plan, es: seq<Event>) returns (e: Event)
    requires ValidPlan(plan) && ValidRun(plan, es) && After(plan, es).stage != Done
    ensures e != Cancel && Enabled(plan, After(plan, es), e)
  {
    RunInv(plan, es);
    ActiveHasGoroutines(plan, After(plan, es));
    hide *;
    e := SomeEvent(plan, After(plan, es));
  }

  lemma ActiveHasGoroutines(plan: Plan, s: State)
    requires Inv(plan, s)
    ensures s.active ==> s.pc != map[]
  {
  }

  lemma SomeEvent(plan: Plan, s: State) returns (e: Event)
    requires s.stage != Done && (s.active ==> s.pc != map[])
    ensures e != Cancel && Enabled(plan, s, e)
  {
    if !s.active {
      e := Enter;
    } else if forall n | n in s.pc :: s.pc[n] == Gone {
      e := Join;
    } else if n :| n in s.pc && s.pc[n] == Holding {
      e := Start(n);
    } else if n :| n in s.pc && s.pc[n] == Started {
      e := Succeed(n);
    } else if n :| n in s.pc && s.pc[n].Returned? {
      e := Release(n);
    } else {
      var n :| n in s.pc && s.pc[n] != Gone;
      assert s.pc[n] == Waiting;
      assert Holders(s.pc) == {};
      assert s.pc.Keys != {};
      e := Acquire(n);
    }
  }

  ghost function StagesLeft(s: State): nat {
    match s.stage
    case InMain => 2
    case InFinally => 1
    case Done => 0
  }

  ghost function PcWeight(pc: Pc): nat {
    match pc
    case Waiting => 4
    case Holding => 3
    case Started => 2
    case Returned(_) => 1
    case Gone => 0
  }

  // The steps the goroutines at hand still have to take.
  ghost function Work(group: seq<Name>, pc: map<Name, Pc>): nat {
    if group == [] then 0
    else (if group[0] in pc then PcWeight(pc[group[0]]) else 0) + Work(group[1..], pc)
  }

  ghost function WorkLeft(plan: Plan, s: State): nat {
    if s.active && s.k < |Order(plan, s)| then Work(Order(plan, s)[s.k], s.pc) else 0
  }

  // Stages left, groups left in the stage, then whether the group at hand is
  // yet to be entered, then the goroutines' steps.
  ghost predicate Less(plan: Plan, s': State, s: State) {
    StagesLeft(s') < StagesLeft(s) ||
    (s'.stage == s.stage &&
     (|Order(plan, s)| - s'.k < |Order(plan, s)| - s.k ||
      (s'.k == s.k && ((s'.active && !s.active) ||
                       (s'.active == s.active && WorkLeft(plan, s') < WorkLeft(plan, s))))))
  }

  lemma {:induction false} WorkDrops(group: seq<Name>, pc: map<Name, Pc>, n: Name, p: Pc)
    requires n in group && n in pc && PcWeight(p) < PcWeight(pc[n])
    ensures Work(group, pc[n := p]) < Work(group, pc)
  {
    if n in group[1..] {
      WorkDrops(group[1..], pc, n, p);
    } else {
      WorkSame(group[1..], pc, n, p);
    }
  }

  lemma {:induction false} WorkSame(group: seq<Name>, pc: map<Name, Pc>, n: Name, p: Pc)
    requires n !in group
    ensures Work(group, pc[n := p]) == Work(group, pc)
  {
    if group != [] {
      WorkSame(group[1..], pc, n, p);
    }
  }

  // Every event but the one cancellation brings the run closer to its end.
  lemma EveryEventCounts(plan: Plan, s: State, e: Event)
    requires ValidPlan(plan) && Inv(plan, s) && Enabled(plan, s, e) && e != Cancel
    ensures Less(plan, Next(plan, s, e), s)
  {
    if MovesOne(e) {
      MoveEnabled(plan, s, e);
      MoveFrame(plan, s, e);
      hide *;
      MoveLess(plan, s, e);
    } else if e.Enter? {
      hide *;
      EnterLess(plan, s);
    } else {
      InvOther(plan, s);
      hide *;
      JoinLess(plan, s);
    }
  }

  lemma EnterLess(plan: Plan, s: State)
    requires Enabled(plan, s, Enter)
    ensures Less(plan, Next(plan, s, Enter), s)
  {
    hide Order, Scheduler.Blocked, SkipSet, AllCancelled, StageCancelled, WorkLeft;
  }

  lemma JoinLess(plan: Plan, s: State)
    requires Enabled(plan, s, Join) && s.stage != Done && s.k < |Order(plan, s)|
    ensures Less(plan, Next(plan, s, Join), s)
  {
    hide AllContinue, LaterNames, SkipSet, WorkLeft;
  }

  lemma MoveForward(plan: Plan, s: State, e: Event)
    requires Enabled(plan, s, e) && MovesOne(e)
    requires s.active && e.n in s.pc && MovedOnly(s, Next(plan, s, e), e.n)
    ensures PcWeight(Next(plan, s, e).pc[e.n]) < PcWeight(s.pc[e.n])
  {
    hide Holders, EnterGroup, JoinGroup, Capacity, StageCancelled, WithCancelled, WithRunning, WithSkipped, WithFailed,
         WithSucceeded, WithTimeout, MovedOnly;
    match e {
      case Acquire(_) =>
      case GiveUp(_) =>
      case Start(_) =>
      case SkipEarly(_, _) =>
      case FailEarly(_, _) =>
      case _ =>
    }
  }

  lemma MoveLess(plan: Plan, s: State, e: Event)
    requires ValidPlan(plan) && Inv(plan, s) && Enabled(plan, s, e) && MovesOne(e)
    requires s.active && e.n in s.pc && MovedOnly(s, Next(plan, s, e), e.n)
    ensures Less(plan, Next(plan, s, e), s)
  {
    var s' := Next(plan, s, e);
    InvOther(plan, s);
    assert e.n in Elems(Order(plan, s)[s.k]);
    hide Inv, ValidPlan;
    MoveForward(plan, s, e);
    hide Next, Enabled;
    WorkDrops(Order(plan, s)[s.k], s.pc, e.n, s'.pc[e.n]);
  }

  // ---------------------------------------------------------------------
  // Graphs built from workflows are valid plans

  lemma OrderIsGood(actions: E.Section, expanded: map<Name, E.Expanded>, order: seq<seq<Name>>, deps: Deps, excl: Deps)
    requires E.SectionOrder(actions, expanded, order)
    requires forall x | x in expanded :: Succ(deps, x) == expanded[x].dependencies
    requires forall x | x in expanded :: Succ(excl, x) == expanded[x].exclusive
    ensures GoodOrder(order, deps, excl)
    ensures forall n :: InOrder(order, n) <==> n in expanded
  {
    forall i | 0 <= i < |order| ensures order[i] != [] && Distinct(order[i]) && Compatible(excl, order[i]) {
      assert GroupOk(expanded.Keys, E.ExclusiveOf(expanded), order[i]);
      forall a, b | a in order[i] && b in order[i] && a != b ensures !Conflict(excl, a, b) {
        assert !Conflict(E.ExclusiveOf(expanded), a, b);
      }
    }
    forall i, n, d | 0 <= i < |order| && n in order[i] && d in Succ(deps, n) ensures Earlier(order, i, d) {
      assert GroupOk(expanded.Keys, E.ExclusiveOf(expanded), order[i]);
      DependencyPlaced(actions, expanded, order, i, n, d);
    }
    forall n ensures InOrder(order, n) <==> n in expanded {
      if n in expanded { assert InSome(order, n); }
      if InOrder(order, n) {
        var i :| 0 <= i < |order| && n in order[i];
        assert GroupOk(expanded.Keys, E.ExclusiveOf(expanded), order[i]);
      }
    }
  }

  lemma DependencyPlaced(actions: E.Section, expanded: map<Name, E.Expanded>, order: seq<seq<Name>>,
                         i: nat, n: Name, d: Name)
    requires E.SectionOrder(actions, expanded, order) && i < |order| && n in order[i]
    requires n in expanded && d in expanded[n].dependencies
    ensures Earlier(order, i, d)
  {
    assert E.ExpandedOk(actions, expanded.Keys, n, expanded[n]);
    assert d in Elems(expanded[n].dependencies);
    assert d in expanded;
    EdgeOf(E.DepsOf(expanded), n, d);
    assert (n, d) in E.ExpandedRel(expanded);
    assert InSome(order, d);
    var j :| 0 <= j < |order| && d in order[j];
    assert j < i;
  }

  ghost function PlanOf(graph: E.Graph, maxConcurrency: int, continues: set<Name>): Plan {
    Plan(graph.executionOrder, graph.finallyOrder,
         E.DepsOf(graph.main) + E.DepsOf(graph.fin),
         E.ExclusiveOf(graph.main) + E.ExclusiveOf(graph.fin), maxConcurrency, continues)
  }

  // Action names are well formed, and unique across sections (rules 1 to 4 of the
  // validation), so expanded names are too.
  lemma GraphIsValidPlan(main: E.Section, fin: E.Section, graph: E.Graph, maxConcurrency: int, continues: set<Name>)
    requires E.SectionOrder(main, graph.main, graph.executionOrder)
    requires E.SectionOrder(fin, graph.fin, graph.finallyOrder)
    requires E.NamesOk(main) && E.NamesOk(fin) && main.Keys !! fin.Keys
    ensures ValidPlan(PlanOf(graph, maxConcurrency, continues))
  {
    var plan := PlanOf(graph, maxConcurrency, continues);
    assert E.ExpansionOf(main, graph.main) && E.ExpansionOf(fin, graph.fin);
    hide *;
    ExpandedDisjoint(main, graph.main, fin, graph.fin);
    PlanSucc(graph, maxConcurrency, continues);
    OrderIsGood(main, graph.main, graph.executionOrder, plan.deps, plan.excl);
    OrderIsGood(fin, graph.fin, graph.finallyOrder, plan.deps, plan.excl);
    PlanParts(plan, graph);
  }

  // Different sections expand to different names.
  lemma ExpandedDisjoint(main: E.Section, mainExpanded: map<Name, E.Expanded>, fin: E.Section,
                         finExpanded: map<Name, E.Expanded>)
    requires E.ExpansionOf(main, mainExpanded) && E.ExpansionOf(fin, finExpanded)
    requires E.NamesOk(main) && E.NamesOk(fin) && main.Keys !! fin.Keys
    ensures mainExpanded.Keys !! finExpanded.Keys
  {
    forall x | x in mainExpanded ensures x !in finExpanded {
      if x in finExpanded {
        var b :| E.IsInstance(main, x, b);
        var c :| E.IsInstance(fin, x, c);
        SameBase(main, fin, x, b, c);
      }
    }
  }

  lemma SameBase(main: E.Section, fin: E.Section, x: Name, b: Name, c: Name)
    requires E.NamesOk(main) && E.NamesOk(fin) && E.IsInstance(main, x, b) && E.IsInstance(fin, x, c)
    ensures b == c
  {
    E.InstanceShape(main, x, b);
    E.InstanceShape(fin, x, c);
    if x != b && x != c {
      var i: nat :| x == CreateIterationName(b, i);
      var j: nat :| x == CreateIterationName(c, j);
      IterationNamesDistinct(b, i, c, j);
    }
  }

  lemma PlanSucc(graph: E.Graph, maxConcurrency: int, continues: set<Name>)
    requires graph.main.Keys !! graph.fin.Keys
    ensures var plan := PlanOf(graph, maxConcurrency, continues);
      && plan.main == graph.executionOrder && plan.fin == graph.finallyOrder
      && (forall x | x in graph.main :: Succ(plan.deps, x) == graph.main[x].dependencies)
      && (forall x | x in graph.main :: Succ(plan.excl, x) == graph.main[x].exclusive)
      && (forall x | x in graph.fin :: Succ(plan.deps, x) == graph.fin[x].dependencies)
      && (forall x | x in graph.fin :: Succ(plan.excl, x) == graph.fin[x].exclusive)
  {
  }

  lemma PlanParts(plan: Plan, graph: E.Graph)
    requires GoodOrder(plan.main, plan.deps, plan.excl) && GoodOrder(plan.fin, plan.deps, plan.excl)
    requires forall n :: InOrder(plan.main, n) <==> n in graph.main
    requires forall n :: InOrder(plan.fin, n) <==> n in graph.fin
    requires graph.main.Keys !! graph.fin.Keys
    ensures ValidPlan(plan)
  {
    hide GoodOrder, InOrder;
  }
}
