/** What entering and joining a group does, that runs can be completed, and what
    is recorded when a run was cancelled (executor.go). */
module SchedulerEnds {
  import opened Base
  import opened ActionContext
  import opened Scheduler
  import opened SchedulerResults

  // ---------------------------------------------------------------------
  // Entering and joining a group

  // Entering a group marks as dependency-failed exactly the actions one of whose
  // direct dependencies failed or timed out, spawns exactly the others, and
  // changes no other result; with none to spawn it goes on to the next group.
  lemma EnterOutcome(plan: Plan, es: seq<Event>)
    requires ValidPlan(plan) && ValidRun(plan, es) && Enabled(plan, After(plan, es), Enter)
    requires var s := After(plan, es); s.k < |Order(plan, s)| && !StageCancelled(s)
    ensures var s := After(plan, es); var s' := Next(plan, s, Enter); var group := Order(plan, s)[s.k];
      && (forall n | n in group && DependencyFailure(plan, s.results, n) :: Filtered(s', n))
      && (forall n | n in group && !DependencyFailure(plan, s.results, n) :: n !in s'.results)
      && (forall n | n !in group :: n in s'.results <==> n in s.results)
      && (forall n | n !in group && n in s.results :: s'.results[n] == s.results[n])
      && (forall n :: n in s'.pc <==> n in group && !DependencyFailure(plan, s.results, n))
      && (forall n | n in s'.pc :: s'.pc[n] == Waiting)
      && s'.stage == s.stage && (s'.active <==> s'.pc != map[]) && s'.k == if s'.active then s.k else s.k + 1
  {
    RunInv(plan, es);
    var s := After(plan, es);
    GroupParts(plan, s);
    forall n | n in Order(plan, s)[s.k] ensures n !in s.results { GroupNewName(plan, s, n); }
    hide Inv, ValidPlan, ValidRun, After;
    EnterShape(plan, s);
  }

  lemma GroupNewName(plan: Plan, s: State, n: Name)
    requires Inv(plan, s) && !s.active && s.k < |Order(plan, s)| && n in Order(plan, s)[s.k]
    ensures n !in s.results
  {
    NewName(plan, s, s.k, n);
  }

  lemma EnterShape(plan: Plan, s: State)
    requires Enabled(plan, s, Enter) && s.k < |Order(plan, s)| && !StageCancelled(s)
    requires s.pc == map[] && forall n | n in Order(plan, s)[s.k] :: n !in s.results
    ensures var s' := Next(plan, s, Enter); var group := Order(plan, s)[s.k];
      && (forall n | n in group && DependencyFailure(plan, s.results, n) :: Filtered(s', n))
      && (forall n | n in group && !DependencyFailure(plan, s.results, n) :: n !in s'.results)
      && (forall n | n !in group :: n in s'.results <==> n in s.results)
      && (forall n | n !in group && n in s.results :: s'.results[n] == s.results[n])
      && (forall n :: n in s'.pc <==> n in group && !DependencyFailure(plan, s.results, n))
      && (forall n | n in s'.pc :: s'.pc[n] == Waiting)
      && s'.stage == s.stage && (s'.active <==> s'.pc != map[]) && s'.k == if s'.active then s.k else s.k + 1
  {
    var group := Order(plan, s)[s.k];
    var blocked := Scheduler.Blocked(plan, s, group);
    EnterIs(plan, s);
    forall n ensures n in blocked <==> n in group && DependencyFailure(plan, s.results, n) {
      BlockedAt(plan, s, group, n);
    }
    hide *;
    ShapeFrom(s, Next(plan, s, Enter), group, blocked);
  }

  lemma BlockedAt(plan: Plan, s: State, group: seq<Name>, n: Name)
    ensures n in Scheduler.Blocked(plan, s, group) <==> n in group && DependencyFailure(plan, s.results, n)
  {
    hide DependencyFailure;
  }

  lemma EnterIs(plan: Plan, s: State)
    requires Enabled(plan, s, Enter) && s.k < |Order(plan, s)| && !StageCancelled(s) && s.pc == map[]
    ensures var s' := Next(plan, s, Enter); var group := Order(plan, s)[s.k];
      var blocked := Scheduler.Blocked(plan, s, group); var toRun := Elems(group) - blocked;
      && s'.results == SkipSet(s.results, blocked, DependencyFailed) && s'.stage == s.stage
      && s'.pc.Keys == toRun && (forall n | n in s'.pc :: s'.pc[n] == Waiting)
      && (s'.active <==> toRun != {}) && s'.k == if s'.active then s.k else s.k + 1
  {
    hide SkipSet, Scheduler.Blocked, Order;
  }

  lemma ShapeFrom(s: State, s': State, group: seq<Name>, blocked: set<Name>)
    requires s'.results == SkipSet(s.results, blocked, DependencyFailed)
    requires s'.pc.Keys == Elems(group) - blocked && (s'.active <==> Elems(group) - blocked != {})
    requires forall n | n in blocked :: n in group
    requires forall n | n in group :: n !in s.results
    ensures (forall n | n in blocked :: Filtered(s', n)) && (forall n | n in group && n !in blocked :: n !in s'.results)
    ensures forall n | n !in group :: n in s'.results <==> n in s.results
    ensures forall n | n !in group && n in s.results :: s'.results[n] == s.results[n]
    ensures forall n :: n in s'.pc <==> n in group && n !in blocked
    ensures s'.active <==> s'.pc != map[]
  {
    assert forall n :: n in s'.pc <==> n in s'.pc.Keys;
  }

  // Joining a group whose failed actions all continue goes on to the next group
  // and changes no result; otherwise the section is left and exactly the actions
  // of its later groups are marked, as dependency-failed.
  lemma JoinOutcome(plan: Plan, es: seq<Event>)
    requires ValidPlan(plan) && ValidRun(plan, es) && Enabled(plan, After(plan, es), Join)
    ensures var s := After(plan, es); var s' := Next(plan, s, Join); var order := Order(plan, s);
      && s.k < |order|
      && (GroupContinues(plan, order[s.k], s.results) ==> s' == NextGroup(s))
      && (!GroupContinues(plan, order[s.k], s.results) ==>
            && s'.stage != s.stage
            && (forall n :: n in s'.results <==> n in s.results || n in LaterNames(order, s.k))
            && (forall n | n in LaterNames(order, s.k) :: Filtered(s', n))
            && (forall n | n in s.results && n !in LaterNames(order, s.k) :: s'.results[n] == s.results[n]))
  {
    PassedExactly(plan, es);
    var s := After(plan, es);
    hide ValidPlan, ValidRun, After, GroupContinues;
    JoinShape(plan, s);
  }

  lemma JoinShape(plan: Plan, s: State)
    requires Enabled(plan, s, Join) && s.k < |Order(plan, s)|
    ensures var s' := Next(plan, s, Join); var later := LaterNames(Order(plan, s), s.k);
      s' != NextGroup(s) ==>
        && (forall n :: n in s'.results <==> n in s.results || n in later)
        && (forall n | n in later :: Filtered(s', n))
        && (forall n | n in s.results && n !in later :: s'.results[n] == s.results[n])
    ensures var s' := Next(plan, s, Join); s' != NextGroup(s) ==> s.stage != Done ==> s'.stage != s.stage
    ensures s.stage != Done
  {
    var later := LaterNames(Order(plan, s), s.k);
    forall n ensures n in SkipSet(s.results, later, DependencyFailed) <==> n in s.results || n in later {
      SkipSetAt(s.results, later, DependencyFailed, n);
    }
    forall n | n in later
      ensures SkipSet(s.results, later, DependencyFailed)[n] == ActionResult(Skipped, DependencyFailed, "", 0)
    {
      SkipSetAt(s.results, later, DependencyFailed, n);
    }
    hide AllContinue, LaterNames, Order;
  }

  // ---------------------------------------------------------------------
  // Completing a run

  function Pending(s: State): nat {
    if s.active then 0 else 1
  }

  // From wherever a run stands some further events, none of them a cancellation,
  // bring it to its end.
  lemma {:induction false} Completes(plan: Plan, es: seq<Event>) returns (more: seq<Event>)
    requires ValidPlan(plan) && ValidRun(plan, es)
    ensures ValidRun(plan, es + more) && After(plan, es + more).stage == Done
    ensures forall i | 0 <= i < |more| :: more[i] != Cancel
    decreases StagesLeft(After(plan, es)), |Order(plan, After(plan, es))| - After(plan, es).k,
              Pending(After(plan, es)), WorkLeft(plan, After(plan, es))
  {
    hide *;
    var s := After(plan, es);
    if s.stage == Done {
      more := [];
      assert es + more == es;
    } else {
      var e := Progress(plan, es);
      Extend(plan, es, e);
      RunInv(plan, es);
      EveryEventCounts(plan, s, e);
      RunInv(plan, es + [e]);
      GroupsLeft(plan, s);
      GroupsLeft(plan, After(plan, es + [e]));
      LessSteps(plan, s, After(plan, es + [e]));
      var rest := Completes(plan, es + [e]);
      more := [e] + rest;
      assert es + [e] + rest == es + more;
    }
  }

  lemma LessSteps(plan: Plan, s: State, s': State)
    requires Less(plan, s', s) && s.k <= |Order(plan, s)| && s'.k <= |Order(plan, s')|
    ensures var left, left' := |Order(plan, s)| - s.k, |Order(plan, s')| - s'.k;
      || StagesLeft(s') < StagesLeft(s)
      || (StagesLeft(s') == StagesLeft(s)
          && (|| left' < left
              || (left' == left && (|| Pending(s') < Pending(s)
                                    || (Pending(s') == Pending(s) && WorkLeft(plan, s') < WorkLeft(plan, s))))))
  {
    hide WorkLeft;
  }

  // The surroundings decide the rest: a run not done can be cancelled once at any
  // time; an action waiting in a cancelled stage can give up; one that holds the
  // semaphore can be started, skipped either way, or fail before it starts with
  // any text; one that was started can succeed, fail with any text or time out.
  lemma AnythingMayHappen(plan: Plan, es: seq<Event>, n: Name, e: Event)
    requires ValidRun(plan, es)
    requires var s := After(plan, es);
      var at := s.active && n in s.pc;
      || (e == Cancel && s.stage != Done && !s.cancelled)
      || (e == GiveUp(n) && at && s.pc[n] == Waiting && s.cancelled && !s.detached)
      || (e in {Start(n), SkipEarly(n, Condition), SkipEarly(n, UpToDate)} && at && s.pc[n] == Holding)
      || (e.FailEarly? && e.n == n && e.error != "" && at && s.pc[n] == Holding)
      || (e in {Succeed(n), TimeOut(n)} && at && s.pc[n] == Started)
      || (e.Fail? && e.n == n && e.error != "" && at && s.pc[n] == Started)
    ensures ValidRun(plan, es + [e])
  {
    assert Enabled(plan, After(plan, es), e) by { hide ValidRun, After; }
    hide *;
    Extend(plan, es, e);
  }

  lemma Extend(plan: Plan, es: seq<Event>, e: Event)
    requires ValidRun(plan, es) && Enabled(plan, After(plan, es), e)
    ensures ValidRun(plan, es + [e]) && After(plan, es + [e]) == Next(plan, After(plan, es), e)
  {
    assert (es + [e])[..|es|] == es;
  }

  lemma GroupsLeft(plan: Plan, s: State)
    requires Inv(plan, s)
    ensures s.k <= |Order(plan, s)| && Order(plan, s) == OrderAt(plan, s.stage)
  {
  }

  function OrderAt(plan: Plan, stage: Stage): seq<seq<Name>> {
    match stage
    case InMain => plan.main
    case InFinally => plan.fin
    case Done => []
  }

  // ---------------------------------------------------------------------
  // What a run has recorded when it ends, cancelled or not

  // The actions with results are those of the first k groups; if that is not all
  // of them, the last of these groups was the one at hand when the cancellation
  // was noticed, and is marked cancelled.
  ghost predicate ResultsUpTo(order: seq<seq<Name>>, results: Results, k: nat) {
    && k <= |order|
    && (forall i, n | 0 <= i < |order| && n in order[i] :: n in results <==> i < k)
    && (k < |order| ==> k > 0 && forall n | n in order[k - 1] :: n in results && results[n].status == Cancelled)
  }

  ghost predicate Recorded(order: seq<seq<Name>>, results: Results) {
    exists k :: ResultsUpTo(order, results, k)
  }

  ghost predicate EndInv(plan: Plan, s: State) {
    && (s.stage != InMain ==> Recorded(plan.main, s.results))
    && (s.stage == Done ==> Recorded(plan.fin, s.results))
  }

  // An event changes results of its own section only.
  ghost predicate Outside(order: seq<seq<Name>>, before: Results, after: Results) {
    && (forall n | !InOrder(order, n) :: n in after <==> n in before)
    && (forall n | !InOrder(order, n) && n in before :: after[n] == before[n])
  }

  lemma EventOutside(plan: Plan, s: State, e: Event)
    requires ValidPlan(plan) && Inv(plan, s) && Enabled(plan, s, e)
    ensures Outside(Order(plan, s), s.results, Next(plan, s, e).results)
  {
    EventCases(plan, s, e);
    hide *;
    if e.Cancel? {
      NothingChanges(plan, s);
    } else if e.Enter? {
      EnterOutside(plan, s);
    } else if e.Join? {
      JoinOutside(plan, s);
    } else {
      MoverInOrder(plan, s, e.n);
      MovedOutside(Order(plan, s), s, Next(plan, s, e), e.n);
    }
  }

  lemma EventCases(plan: Plan, s: State, e: Event)
    requires Inv(plan, s) && Enabled(plan, s, e)
    ensures !e.Cancel? && !e.Enter? && !e.Join? ==>
              s.active && e.n in s.pc && MovedOnly(s, Next(plan, s, e), e.n)
    ensures e.Enter? ==> Next(plan, s, e) == EnterGroup(plan, s)
    ensures e.Join? ==> Next(plan, s, e) == JoinGroup(plan, s)
  {
    if MovesOne(e) {
      MoveEnabled(plan, s, e);
      MoveFrame(plan, s, e);
    }
    hide EnterGroup, JoinGroup, MovedOnly, Inv, Holders;
  }

  lemma NothingChanges(plan: Plan, s: State)
    requires Enabled(plan, s, Cancel)
    ensures Outside(Order(plan, s), s.results, Next(plan, s, Cancel).results)
  {
    hide Order, InOrder;
  }

  lemma MovedOutside(order: seq<seq<Name>>, s: State, s': State, n: Name)
    requires MovedOnly(s, s', n) && InOrder(order, n)
    ensures Outside(order, s.results, s'.results)
  {
    hide InOrder;
  }

  lemma MoverInOrder(plan: Plan, s: State, n: Name)
    requires Inv(plan, s) && s.active && n in s.pc
    ensures InOrder(Order(plan, s), n)
  {
    assert n in Elems(Order(plan, s)[s.k]);
  }

  lemma EnterOutside(plan: Plan, s: State)
    requires Enabled(plan, s, Enter)
    ensures Outside(Order(plan, s), s.results, EnterGroup(plan, s).results)
  {
    var order := Order(plan, s);
    EnterCases(plan, s);
    if s.k < |order| {
      forall n | n in order[s.k] ensures InOrder(order, n) {}
      forall n | n in Scheduler.Blocked(plan, s, order[s.k]) ensures n in order[s.k] {
        BlockedAt(plan, s, order[s.k], n);
      }
      hide *;
      SkipsInside(order, s.results, Scheduler.Blocked(plan, s, order[s.k]));
      CancelsInside(order, s.results, order[s.k]);
    }
    hide *;
    NoneOutside(order, s.results);
  }

  lemma EnterCases(plan: Plan, s: State)
    ensures var order := Order(plan, s); var after := EnterGroup(plan, s).results;
      || after == s.results
      || (s.k < |order| && (|| after == SkipSet(s.results, Scheduler.Blocked(plan, s, order[s.k]), DependencyFailed)
                            || after == AllCancelled(s.results, order[s.k])))
  {
    hide Scheduler.Blocked, Order, SkipSet, AllCancelled, StageCancelled, LeaveStage, NextGroup;
    var order := Order(plan, s);
    if s.k >= |order| {
      ResultsKept(plan, s, false);
    } else if StageCancelled(s) {
      ResultsKept(plan, s.(results := AllCancelled(s.results, order[s.k])), true);
    } else {
      ResultsKept(plan, s.(results := SkipSet(s.results, Scheduler.Blocked(plan, s, order[s.k]), DependencyFailed)),
                  true);
    }
  }

  lemma ResultsKept(plan: Plan, s: State, err: bool)
    ensures LeaveStage(plan, s, err).results == s.results && NextGroup(s).results == s.results
  {
  }

  lemma NoneOutside(order: seq<seq<Name>>, results: Results)
    ensures Outside(order, results, results)
  {
  }

  lemma SkipsInside(order: seq<seq<Name>>, results: Results, names: set<Name>)
    requires forall n | n in names :: InOrder(order, n)
    ensures Outside(order, results, SkipSet(results, names, DependencyFailed))
  {
    hide InOrder;
  }

  lemma CancelsInside(order: seq<seq<Name>>, results: Results, names: seq<Name>)
    requires forall n | n in names :: InOrder(order, n)
    ensures Outside(order, results, AllCancelled(results, names))
  {
    hide InOrder;
  }

  lemma JoinOutside(plan: Plan, s: State)
    requires Enabled(plan, s, Join)
    ensures Outside(Order(plan, s), s.results, JoinGroup(plan, s).results)
  {
    var order := Order(plan, s);
    JoinCases(plan, s);
    LaterInOrder(order, s.k);
    hide *;
    SkipsInside(order, s.results, LaterNames(order, s.k));
    NoneOutside(order, s.results);
  }

  lemma JoinCases(plan: Plan, s: State)
    ensures var after := JoinGroup(plan, s).results;
      after == s.results || after == SkipSet(s.results, LaterNames(Order(plan, s), s.k), DependencyFailed)
  {
    hide Order, AllContinue, LaterNames, SkipSet, LeaveStage, NextGroup;
    ResultsKept(plan, s, true);
    ResultsKept(plan, s.(results := SkipSet(s.results, LaterNames(Order(plan, s), s.k), DependencyFailed)), true);
  }

  lemma LaterInOrder(order: seq<seq<Name>>, k: nat)
    ensures forall n | n in LaterNames(order, k) :: InOrder(order, n)
  {
    forall n | n in LaterNames(order, k) ensures InOrder(order, n) {
      var i :| k < i < |order| && n in order[i];
    }
  }

  lemma RecordedFrame(order: seq<seq<Name>>, before: Results, after: Results)
    requires Recorded(order, before)
    requires forall n | InOrder(order, n) :: n in after <==> n in before
    requires forall n | InOrder(order, n) && n in before :: after[n] == before[n]
    ensures Recorded(order, after)
  {
    var k :| ResultsUpTo(order, before, k);
    forall i, n | 0 <= i < |order| && n in order[i] ensures InOrder(order, n) {}
    assert ResultsUpTo(order, after, k);
  }

  lemma Disjoint(plan: Plan, n: Name)
    requires ValidPlan(plan) && InOrder(plan.main, n)
    ensures !InOrder(plan.fin, n)
  {
    hide GoodOrder, InOrder;
  }

  // The finally section leaves the records of the main one alone.
  lemma MainKept(plan: Plan, s: State, e: Event)
    requires ValidPlan(plan) && Inv(plan, s) && Enabled(plan, s, e) && EndInv(plan, s) && s.stage == InFinally
    ensures Recorded(plan.main, Next(plan, s, e).results)
  {
    EventOutside(plan, s, e);
    forall n | InOrder(plan.main, n) ensures !InOrder(plan.fin, n) { Disjoint(plan, n); }
    assert Order(plan, s) == plan.fin;
    hide ValidPlan, Inv, Enabled, Next, InOrder, Recorded;
    RecordedFrame(plan.main, s.results, Next(plan, s, e).results);
  }

  // ---- Leaving a section

  lemma AllPassed(plan: Plan, s: State)
    requires Inv(plan, s) && !s.active && s.stage != Done && s.k >= |Order(plan, s)|
    ensures ResultsUpTo(Order(plan, s), s.results, |Order(plan, s)|)
  {
    var order := Order(plan, s);
    forall i, n | 0 <= i < |order| && n in order[i] ensures n in s.results {
      assert NameInv(plan, s, i, n);
    }
  }

  lemma CancelledAtEntry(plan: Plan, s: State)
    requires ValidPlan(plan) && Inv(plan, s) && !s.active && s.stage != Done && s.k < |Order(plan, s)|
    ensures ResultsUpTo(Order(plan, s), AllCancelled(s.results, Order(plan, s)[s.k]), s.k + 1)
  {
    var order := Order(plan, s);
    OrderGood(plan, s);
    var after := AllCancelled(s.results, order[s.k]);
    forall i, n | 0 <= i < |order| && n in order[i] ensures n in after <==> i < s.k + 1 {
      assert NameInv(plan, s, i, n);
      if n in order[s.k] { assert i == s.k; }
    }
    forall n | n in order[s.k] ensures n in after && after[n].status == Cancelled {
      assert NameInv(plan, s, s.k, n);
    }
  }

  lemma StoppedAtJoin(plan: Plan, s: State)
    requires ValidPlan(plan) && Inv(plan, s) && Enabled(plan, s, Join)
    ensures s.k < |Order(plan, s)|
    ensures ResultsUpTo(Order(plan, s), SkipSet(s.results, LaterNames(Order(plan, s), s.k), DependencyFailed),
                         |Order(plan, s)|)
  {
    var order := Order(plan, s);
    var later := LaterNames(order, s.k);
    var after := SkipSet(s.results, later, DependencyFailed);
    EnabledJoin(plan, s);
    InvOther(plan, s);
    forall i, n | 0 <= i < |order| && n in order[i] ensures n in after {
      SkipSetAt(s.results, later, DependencyFailed, n);
      if i > s.k {
        assert n in later;
      } else {
        JoinedOrBefore(plan, s, i, n);
      }
    }
    hide Inv, ValidPlan, Enabled, SkipSet, LaterNames;
  }

  // The section an event leaves is recorded.
  lemma LeavesRecorded(plan: Plan, s: State, e: Event)
    requires ValidPlan(plan) && Inv(plan, s) && Enabled(plan, s, e) && Next(plan, s, e).stage != s.stage
    ensures s.stage != Done && Recorded(Order(plan, s), Next(plan, s, e).results)
  {
    LeavingEvents(plan, s, e);
    var order := Order(plan, s);
    if e.Enter? {
      if s.k >= |order| {
        AllPassed(plan, s);
        assert Next(plan, s, e).results == s.results;
      } else {
        CancelledAtEntry(plan, s);
        EnterLeaves(plan, s);
      }
    } else {
      StoppedAtJoin(plan, s);
      JoinLeaves(plan, s);
    }
    hide Inv, ValidPlan, Enabled, Next, ResultsUpTo, AllCancelled, SkipSet, LaterNames, Order;
  }

  lemma LeavingEvents(plan: Plan, s: State, e: Event)
    requires Enabled(plan, s, e) && Next(plan, s, e).stage != s.stage
    ensures e.Enter? || e.Join?
    ensures e.Enter? ==> !s.active
    ensures s.stage == Done ==> e.Join?
  {
    if MovesOne(e) { MoveFrame(plan, s, e); }
    hide EnterGroup, JoinGroup, Holders;
  }

  lemma EnterLeaves(plan: Plan, s: State)
    requires Enabled(plan, s, Enter) && Next(plan, s, Enter).stage != s.stage && s.k < |Order(plan, s)|
    ensures Next(plan, s, Enter).results == AllCancelled(s.results, Order(plan, s)[s.k])
  {
    hide AllCancelled, Scheduler.Blocked, SkipSet;
  }

  lemma JoinLeaves(plan: Plan, s: State)
    requires Enabled(plan, s, Join) && Next(plan, s, Join).stage != s.stage
    ensures Next(plan, s, Join).results == SkipSet(s.results, LaterNames(Order(plan, s), s.k), DependencyFailed)
  {
    hide AllContinue, SkipSet, LaterNames;
  }

  lemma StageMoves(plan: Plan, s: State, e: Event)
    requires Enabled(plan, s, e) && s.stage != Done
    ensures var s' := Next(plan, s, e);
      || s'.stage == s.stage
      || (s.stage == InMain && s'.stage == InFinally)
      || (s.stage == InMain && s'.stage == Done && plan.fin == [])
      || (s.stage == InFinally && s'.stage == Done)
  {
    if MovesOne(e) { MoveFrame(plan, s, e); }
    hide Holders, AllContinue, Scheduler.Blocked, SkipSet, AllCancelled, LaterNames;
  }

  lemma NothingAtDone(plan: Plan, s: State, e: Event)
    requires Inv(plan, s) && Enabled(plan, s, e)
    ensures s.stage != Done
  {
  }

  lemma NextEndInv(plan: Plan, s: State, e: Event)
    requires ValidPlan(plan) && Inv(plan, s) && Enabled(plan, s, e) && EndInv(plan, s)
    ensures EndInv(plan, Next(plan, s, e))
  {
    NothingAtDone(plan, s, e);
    StageMoves(plan, s, e);
    var s' := Next(plan, s, e);
    if s.stage == InFinally { MainKept(plan, s, e); }
    if s'.stage != s.stage { LeavesRecorded(plan, s, e); }
    NoGroups(s'.results);
    hide Inv, ValidPlan, Enabled, Next, Recorded;
  }

  lemma NoGroups(results: Results)
    ensures Recorded([], results)
  {
    assert ResultsUpTo([], results, 0);
  }

  lemma {:induction false} RunEndInv(plan: Plan, es: seq<Event>)
    requires ValidPlan(plan) && ValidRun(plan, es)
    ensures EndInv(plan, After(plan, es))
  {
    if es != [] {
      RunEndInv(plan, es[..|es| - 1]);
      RunInv(plan, es[..|es| - 1]);
      hide Inv, ValidPlan, Enabled, Next, EndInv;
      NextEndInv(plan, After(plan, es[..|es| - 1]), es[|es| - 1]);
    }
  }

  // However a run ends, cancelled at any point or not, no action is left
  // running, and in either section the actions with results are those of its
  // groups up to some point: the last group, or one that was cancelled as it was
  // to be entered.
  lemma RunEnds(plan: Plan, es: seq<Event>)
    requires ValidPlan(plan) && ValidRun(plan, es) && After(plan, es).stage == Done
    ensures var s := After(plan, es);
      && (forall n | n in s.results :: AtRest(s.results[n]))
      && Recorded(plan.main, s.results) && Recorded(plan.fin, s.results)
    ensures !After(plan, es).cancelled ==>
              && ResultsUpTo(plan.main, After(plan, es).results, |plan.main|)
              && ResultsUpTo(plan.fin, After(plan, es).results, |plan.fin|)
  {
    RunEndInv(plan, es);
    RunInv(plan, es);
    hide ValidRun, After, ValidPlan;
    var s := After(plan, es);
    DoneFacts(plan, s);
    hide Inv, StageResult, Recorded;
    if !s.cancelled {
      AllRecorded(plan, plan.main, s.results, s.mainErr);
      AllRecorded(plan, plan.fin, s.results, s.finErr);
    }
  }

  lemma DoneFacts(plan: Plan, s: State)
    requires Inv(plan, s) && s.stage == Done
    ensures forall n | n in s.results :: AtRest(s.results[n])
    ensures !s.cancelled ==>
              StageResult(plan, plan.main, s.results, s.mainErr) && StageResult(plan, plan.fin, s.results, s.finErr)
  {
    hide StageResult, AtRest, NamesInv;
  }

  lemma AllRecorded(plan: Plan, order: seq<seq<Name>>, results: Results, err: bool)
    requires StageResult(plan, order, results, err)
    ensures ResultsUpTo(order, results, |order|)
  {
    hide GroupContinues, StoppedAt, AtRest;
  }
}
