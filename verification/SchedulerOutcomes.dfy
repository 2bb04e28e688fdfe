/** What becomes of each action of a run (executor.go): which event gives which
    final result, and the run's own status. */
module SchedulerOutcomes {
  import opened Base
  import opened Digraph
  import opened ActionContext
  import opened Scheduler
  import opened SchedulerResults

  // ---------------------------------------------------------------------
  // Prefixes of a run

  lemma {:induction false} PrefixValid(plan: Plan, es: seq<Event>, k: nat)
    requires ValidRun(plan, es) && k <= |es|
    ensures ValidRun(plan, es[..k])
    decreases |es|
  {
    if k == |es| {
      assert es[..k] == es;
    } else {
      var init := es[..|es| - 1];
      PrefixValid(plan, init, k);
      assert init[..k] == es[..k];
    }
  }

  // The state in which event k happens.
  ghost function Before(plan: Plan, es: seq<Event>, k: nat): State
    requires ValidRun(plan, es) && k <= |es|
  {
    PrefixValid(plan, es, k);
    After(plan, es[..k])
  }

  lemma StepAt(plan: Plan, es: seq<Event>, k: nat)
    requires ValidPlan(plan) && ValidRun(plan, es) && k < |es|
    ensures Inv(plan, Before(plan, es, k)) && Enabled(plan, Before(plan, es, k), es[k])
    ensures Before(plan, es, k + 1) == Next(plan, Before(plan, es, k), es[k])
    ensures Before(plan, es, 0) == Init() && Before(plan, es, |es|) == After(plan, es)
  {
    PrefixValid(plan, es, k);
    PrefixValid(plan, es, k + 1);
    RunInv(plan, es[..k]);
    assert es[..k + 1][..k] == es[..k] && es[..|es|] == es && es[..0] == [];
  }

  // ---------------------------------------------------------------------
  // What one event does to one action

  // n's own goroutine ends with r.
  predicate EndsWith(e: Event, n: Name, r: ActionResult) {
    match e
    case GiveUp(m) => m == n && r.status == Cancelled && r.error == ""
    case SkipEarly(m, reason) => m == n && r.status == Skipped && r.reason == reason && r.error == ""
    case FailEarly(m, error) => m == n && r.status == Failed && r.error == error
    case Succeed(m) => m == n && r.status == Succeeded && r.error == ""
    case Fail(m, error) => m == n && r.status == Failed && r.error == error
    case TimeOut(m) => m == n && r.status == Timeout && r.error == "action timed out"
    case _ => false
  }

  predicate EndsOf(e: Event, n: Name) {
    MovesOne(e) && e.n == n && !e.Acquire? && !e.Start? && !e.Release?
  }

  // The group of n is entered, uncancelled, when a dependency of n has failed or
  // timed out.
  ghost predicate BlockedIn(plan: Plan, s: State, e: Event, n: Name) {
    && e == Enter && s.k < |Order(plan, s)| && n in Order(plan, s)[s.k] && !(s.cancelled && !s.detached)
    && exists d | d in Succ(plan.deps, n) ::
         d in s.results && (s.results[d].status == Failed || s.results[d].status == Timeout)
  }

  // A group is joined one of whose failures does not continue, and n comes later.
  ghost predicate StoppedIn(plan: Plan, s: State, e: Event, n: Name) {
    && e == Join && s.k < |Order(plan, s)|
    && (exists i :: s.k < i < |Order(plan, s)| && n in Order(plan, s)[i])
    && exists m | m in Order(plan, s)[s.k] ::
         m in s.results && (s.results[m].status == Failed || s.results[m].status == Timeout) && m !in plan.continues
  }

  // The group of n is to be entered when the stage's context has ended.
  ghost predicate CancelledIn(plan: Plan, s: State, e: Event, n: Name) {
    e == Enter && s.k < |Order(plan, s)| && n in Order(plan, s)[s.k] && s.cancelled && !s.detached
  }

  predicate DependencySkip(r: ActionResult) {
    r.status == Skipped && r.reason == DependencyFailed && r.error == ""
  }

  ghost predicate Causes(plan: Plan, s: State, e: Event, n: Name, r: ActionResult) {
    || EndsWith(e, n, r)
    || (BlockedIn(plan, s, e, n) && DependencySkip(r))
    || (StoppedIn(plan, s, e, n) && DependencySkip(r))
    || (CancelledIn(plan, s, e, n) && r.status == Cancelled && r.error == "")
  }

  // Some event of this kind gives n its result.
  ghost predicate Caused(plan: Plan, s: State, e: Event, n: Name) {
    EndsOf(e, n) || BlockedIn(plan, s, e, n) || StoppedIn(plan, s, e, n) || CancelledIn(plan, s, e, n)
  }

  predicate Final(results: Results, n: Name) {
    n in results && results[n].status != Running
  }

  lemma MoveCauses(plan: Plan, s: State, e: Event)
    requires ValidPlan(plan) && Inv(plan, s) && Enabled(plan, s, e) && MovesOne(e) && EndsOf(e, e.n)
    ensures e.n in Next(plan, s, e).results && EndsWith(e, e.n, Next(plan, s, e).results[e.n])
  {
    MoveEnabled(plan, s, e);
    AtHand(plan, s, e.n);
    hide *;
    if e.Succeed? || e.Fail? || e.TimeOut? {
      ProviderCauses(plan, s, e);
    } else {
      EarlyCauses(plan, s, e);
    }
  }

  lemma ProviderCauses(plan: Plan, s: State, e: Event)
    requires Enabled(plan, s, e) && (e.Succeed? || e.Fail? || e.TimeOut?)
    requires e.n in s.pc && PcInv(plan, s, e.n, s.pc[e.n])
    ensures e.n in Next(plan, s, e).results && EndsWith(e, e.n, Next(plan, s, e).results[e.n])
  {
    hide Holders, EnterGroup, JoinGroup, Capacity, AtRest, StageCancelled;
  }

  lemma EarlyCauses(plan: Plan, s: State, e: Event)
    requires Enabled(plan, s, e) && MovesOne(e) && EndsOf(e, e.n) && !(e.Succeed? || e.Fail? || e.TimeOut?)
    requires e.n in s.pc && PcInv(plan, s, e.n, s.pc[e.n])
    ensures e.n in Next(plan, s, e).results && EndsWith(e, e.n, Next(plan, s, e).results[e.n])
  {
    hide Holders, EnterGroup, JoinGroup, Capacity, AtRest, StageCancelled;
    match e {
      case GiveUp(_) =>
      case SkipEarly(_, _) =>
      case FailEarly(_, _) =>
      case _ =>
    }
  }

  lemma MoveNotFinal(plan: Plan, s: State, e: Event)
    requires ValidPlan(plan) && Inv(plan, s) && Enabled(plan, s, e) && MovesOne(e) && !EndsOf(e, e.n)
    requires Final(Next(plan, s, e).results, e.n)
    ensures Final(s.results, e.n)
  {
    hide Inv, ValidPlan, Holders, EnterGroup, JoinGroup, Capacity;
    match e {
      case Acquire(_) =>
      case Start(_) =>
      case Release(_) =>
      case _ =>
    }
  }

  lemma MoveOthers(plan: Plan, s: State, e: Event, n: Name)
    requires Enabled(plan, s, e) && MovesOne(e) && n != e.n
    ensures n in Next(plan, s, e).results <==> n in s.results
    ensures n in s.results ==> Next(plan, s, e).results[n] == s.results[n]
  {
    MoveFrame(plan, s, e);
    hide Next, Enabled;
  }

  // What entering a group does to n, whose group it is.
  lemma EnterCauses(plan: Plan, s: State, n: Name)
    requires ValidPlan(plan) && Inv(plan, s) && Enabled(plan, s, Enter)
    ensures var s' := Next(plan, s, Enter);
      && (BlockedIn(plan, s, Enter, n) ==> n in s'.results && DependencySkip(s'.results[n]))
      && (CancelledIn(plan, s, Enter, n) ==>
            n in s'.results && s'.results[n].status == Cancelled && s'.results[n].error == "")
      && (!BlockedIn(plan, s, Enter, n) && !CancelledIn(plan, s, Enter, n) ==>
            (n in s'.results <==> n in s.results) && (n in s.results ==> s'.results[n] == s.results[n]))
  {
    var order := Order(plan, s);
    if s.k < |order| && n in order[s.k] { NewName(plan, s, s.k, n); }
    BlockedMeans(plan, s, n);
    EnterResult(plan, s, n);
    hide Inv, ValidPlan, Next, Enabled, BlockedIn, DependencyFailure;
  }

  lemma BlockedMeans(plan: Plan, s: State, n: Name)
    ensures s.k < |Order(plan, s)| && n in Order(plan, s)[s.k] && !StageCancelled(s) ==>
              (BlockedIn(plan, s, Enter, n) <==> DependencyFailure(plan, s.results, n))
    ensures BlockedIn(plan, s, Enter, n) ==>
              s.k < |Order(plan, s)| && n in Order(plan, s)[s.k] && !StageCancelled(s)
  {
  }

  // What entering a group does to the result of one name.
  ghost predicate Entered(plan: Plan, s: State, after: Results, n: Name) {
    var order := Order(plan, s);
    if s.k >= |order| || n !in order[s.k] then
      (n in after <==> n in s.results) && (n in s.results ==> after[n] == s.results[n])
    else if n in s.results then true
    else if StageCancelled(s) then n in after && after[n] == ActionResult(Cancelled, NoReason, "", 0)
    else if DependencyFailure(plan, s.results, n) then
      n in after && after[n] == ActionResult(Skipped, DependencyFailed, "", 0)
    else n !in after
  }

  lemma EnterResult(plan: Plan, s: State, n: Name)
    requires Enabled(plan, s, Enter)
    ensures Entered(plan, s, Next(plan, s, Enter).results, n)
  {
    var order := Order(plan, s);
    assert Next(plan, s, Enter) == EnterGroup(plan, s);
    hide Enabled, Next;
    if s.k >= |order| {
      hide EnterGroup;
      PastLast(plan, s);
      hide LeaveStage;
    } else if StageCancelled(s) {
      CancelResult(plan, s, n);
    } else {
      FilterResult(plan, s, n);
    }
  }

  lemma PastLast(plan: Plan, s: State)
    requires s.k >= |Order(plan, s)|
    ensures EnterGroup(plan, s).results == s.results
  {
    hide Order;
  }

  lemma CancelResult(plan: Plan, s: State, n: Name)
    requires s.k < |Order(plan, s)| && StageCancelled(s)
    ensures Entered(plan, s, EnterGroup(plan, s).results, n)
  {
    var group := Order(plan, s)[s.k];
    assert EnterGroup(plan, s) == LeaveStage(plan, s.(results := AllCancelled(s.results, group)), true);
    hide Order, DependencyFailure, EnterGroup;
  }

  lemma FilterResult(plan: Plan, s: State, n: Name)
    requires s.k < |Order(plan, s)| && !StageCancelled(s)
    ensures Entered(plan, s, EnterGroup(plan, s).results, n)
  {
    var group := Order(plan, s)[s.k];
    FilteredResults(plan, s);
    assert n in Blocked(plan, s, group) <==> n in group && DependencyFailure(plan, s.results, n);
    hide EnterGroup, Blocked, Order, DependencyFailure;
    SkipSetAt(s.results, Blocked(plan, s, group), DependencyFailed, n);
  }

  lemma FilteredResults(plan: Plan, s: State)
    requires s.k < |Order(plan, s)| && !StageCancelled(s)
    ensures EnterGroup(plan, s).results
            == SkipSet(s.results, Blocked(plan, s, Order(plan, s)[s.k]), DependencyFailed)
  {
    hide Blocked, Order, SkipSet;
  }

  // What joining a group does to n.
  lemma JoinCauses(plan: Plan, s: State, n: Name)
    requires ValidPlan(plan) && Inv(plan, s) && Enabled(plan, s, Join)
    ensures var s' := Next(plan, s, Join);
      && (StoppedIn(plan, s, Join, n) ==> n in s'.results && DependencySkip(s'.results[n]))
      && (!StoppedIn(plan, s, Join, n) ==>
            (n in s'.results <==> n in s.results) && (n in s.results ==> s'.results[n] == s.results[n]))
  {
    InvOther(plan, s);
    EnabledJoin(plan, s);
    GoesOnExactly(plan, s);
    StoppedMeans(plan, s, n);
    JoinResult(plan, s, n);
    hide Inv, ValidPlan, Next, Enabled, StoppedIn, AllContinue, LaterNames;
  }

  lemma StoppedMeans(plan: Plan, s: State, n: Name)
    requires s.k < |Order(plan, s)|
    ensures StoppedIn(plan, s, Join, n) <==>
              n in LaterNames(Order(plan, s), s.k) && !GroupContinues(plan, Order(plan, s)[s.k], s.results)
  {
  }

  lemma GoesOnExactly(plan: Plan, s: State)
    requires ValidPlan(plan) && Inv(plan, s) && Enabled(plan, s, Join)
    ensures s.k < |Order(plan, s)|
    ensures !s.errs || AllContinue(plan, s, Order(plan, s)[s.k])
            <==> GroupContinues(plan, Order(plan, s)[s.k], s.results)
  {
    InvOther(plan, s);
    EnabledJoin(plan, s);
    var group := Order(plan, s)[s.k];
    if s.errs && !AllContinue(plan, s, group) {
      StopFails(plan, s, s.results);
    } else {
      forall n | n in group && n in s.results && Failing(s.results[n].status) ensures n in plan.continues {
        JoinedAtRest(plan, s, n);
      }
    }
  }

  lemma JoinResult(plan: Plan, s: State, n: Name)
    requires Enabled(plan, s, Join) && s.k < |Order(plan, s)|
    ensures var s' := Next(plan, s, Join); var order := Order(plan, s);
      if n in LaterNames(order, s.k) && !(!s.errs || AllContinue(plan, s, order[s.k])) then
        n in s'.results && s'.results[n] == ActionResult(Skipped, DependencyFailed, "", 0)
      else (n in s'.results <==> n in s.results) && (n in s.results ==> s'.results[n] == s.results[n])
  {
    SkipSetAt(s.results, LaterNames(Order(plan, s), s.k), DependencyFailed, n);
    hide AllContinue, LaterNames, Order, SkipSet;
  }

  // An event that gives n a result gives the one of its kind.
  lemma CauseGives(plan: Plan, s: State, e: Event, n: Name)
    requires ValidPlan(plan) && Inv(plan, s) && Enabled(plan, s, e) && Caused(plan, s, e, n)
    ensures Final(Next(plan, s, e).results, n) && Causes(plan, s, e, n, Next(plan, s, e).results[n])
  {
    hide Inv, ValidPlan, Next, Enabled, BlockedIn, StoppedIn, CancelledIn;
    if EndsOf(e, n) {
      MoveCauses(plan, s, e);
    } else {
      assert e == Enter || e == Join by { EnterOrJoin(plan, s, e, n); }
      if e == Enter { EnterCauses(plan, s, n); }
      if e == Join { JoinCauses(plan, s, n); }
      EnterOrJoin(plan, s, e, n);
    }
  }

  lemma EnterOrJoin(plan: Plan, s: State, e: Event, n: Name)
    ensures BlockedIn(plan, s, e, n) || CancelledIn(plan, s, e, n) ==> e == Enter
    ensures StoppedIn(plan, s, e, n) ==> e == Join
  {
  }

  lemma CancelKeeps(plan: Plan, s: State)
    requires Enabled(plan, s, Cancel)
    ensures Next(plan, s, Cancel).results == s.results
  {
  }

  // A result that an event makes final has its cause in that event.
  lemma NewFinal(plan: Plan, s: State, e: Event, n: Name)
    requires ValidPlan(plan) && Inv(plan, s) && Enabled(plan, s, e)
    requires Final(Next(plan, s, e).results, n) && !Final(s.results, n)
    ensures Causes(plan, s, e, n, Next(plan, s, e).results[n])
  {
    hide Inv, ValidPlan, BlockedIn, StoppedIn, CancelledIn, EnterGroup, JoinGroup;
    if e.Cancel? {
      CancelKeeps(plan, s);
    } else if e.Enter? {
      EnterCauses(plan, s, n);
    } else if e.Join? {
      JoinCauses(plan, s, n);
    } else {
      hide Next;
      if n != e.n {
        MoveOthers(plan, s, e, n);
      } else if EndsOf(e, n) {
        MoveCauses(plan, s, e);
      } else {
        MoveNotFinal(plan, s, e);
      }
    }
  }

  // ---------------------------------------------------------------------
  // Over runs

  ghost predicate CausesAt(plan: Plan, es: seq<Event>, k: nat, n: Name, r: ActionResult)
    requires ValidRun(plan, es)
  {
    k < |es| && Causes(plan, Before(plan, es, k), es[k], n, r)
  }

  // Every final result has its cause somewhere in the run ...
  lemma {:induction false} HasCause(plan: Plan, es: seq<Event>, j: nat, n: Name) returns (k: nat)
    requires ValidPlan(plan) && ValidRun(plan, es) && j <= |es| && Final(Before(plan, es, j).results, n)
    ensures k < j && CausesAt(plan, es, k, n, Before(plan, es, j).results[n])
    decreases j
  {
    hide ValidPlan, ValidRun, Before, Inv, Enabled, Next, Causes;
    if j == 0 {
      NothingAtFirst(plan, es, n);
    } else {
      StepAt(plan, es, j - 1);
      var s := Before(plan, es, j - 1);
      if Final(s.results, n) {
        RestIsFinal(plan, s, es[j - 1], n);
        k := HasCause(plan, es, j - 1, n);
      } else {
        NewFinal(plan, s, es[j - 1], n);
        k := j - 1;
      }
    }
  }

  lemma NothingAtFirst(plan: Plan, es: seq<Event>, n: Name)
    requires ValidRun(plan, es)
    ensures !Final(Before(plan, es, 0).results, n)
  {
    assert es[..0] == [];
  }

  // ... and a cause anywhere in the run decides the result at its end.
  lemma CauseDecides(plan: Plan, es: seq<Event>, k: nat, n: Name)
    requires ValidPlan(plan) && ValidRun(plan, es) && k < |es| && Caused(plan, Before(plan, es, k), es[k], n)
    ensures Final(After(plan, es).results, n) && CausesAt(plan, es, k, n, After(plan, es).results[n])
  {
    StepAt(plan, es, k);
    hide Inv, Enabled, Next, Causes, Caused, ValidPlan;
    CauseGives(plan, Before(plan, es, k), es[k], n);
    PrefixValid(plan, es, k + 1);
    OneResult(plan, es, k + 1, n);
  }

  ghost predicate HasStatus(s: State, n: Name, status: Status) {
    n in s.results && s.results[n].status == status
  }

  // At the end of any run, or in its middle: an action has succeeded exactly if
  // its provider did, has failed with a text exactly if it failed with that
  // text, before or after it was started, has timed out exactly if its deadline
  // passed, and is skipped by condition or as up to date exactly if that was
  // found.
  lemma OutcomeExactly(plan: Plan, es: seq<Event>, n: Name)
    requires ValidPlan(plan) && ValidRun(plan, es)
    ensures var s := After(plan, es);
      && (HasStatus(s, n, Succeeded) <==> Succeed(n) in es)
      && (HasStatus(s, n, Timeout) <==> TimeOut(n) in es)
      && (forall text :: HasStatus(s, n, Failed) && s.results[n].error == text
                         <==> Fail(n, text) in es || FailEarly(n, text) in es)
      && (forall reason | reason != DependencyFailed ::
            HasStatus(s, n, Skipped) && s.results[n].reason == reason <==> SkipEarly(n, reason) in es)
  {
    hide ValidPlan, ValidRun, After, Before, Caused, Causes, CausesAt;
    forall e | e in es && EndsOf(e, n)
      ensures Final(After(plan, es).results, n) && EndsWith(e, n, After(plan, es).results[n])
    {
      EventDecides(plan, es, e, n);
    }
    if Final(After(plan, es).results, n) {
      var e := EventBehind(plan, es, n);
    }
  }

  lemma EventDecides(plan: Plan, es: seq<Event>, e: Event, n: Name)
    requires ValidPlan(plan) && ValidRun(plan, es) && e in es && EndsOf(e, n)
    ensures Final(After(plan, es).results, n) && EndsWith(e, n, After(plan, es).results[n])
  {
    var k :| 0 <= k < |es| && es[k] == e;
    hide ValidPlan, ValidRun, After, Before;
    CauseDecides(plan, es, k, n);
    EnterOrJoin(plan, Before(plan, es, k), e, n);
    hide BlockedIn, StoppedIn, CancelledIn;
  }

  // The event behind a final result, if the action's own goroutine gave it.
  lemma EventBehind(plan: Plan, es: seq<Event>, n: Name) returns (e: Event)
    requires ValidPlan(plan) && ValidRun(plan, es) && Final(After(plan, es).results, n)
    ensures var r := After(plan, es).results[n];
      (e in es && EndsWith(e, n, r) && (e.SkipEarly? ==> e.reason != DependencyFailed))
      || DependencySkip(r) || (r.status == Cancelled && r.error == "")
  {
    assert es[..|es|] == es;
    var k := HasCause(plan, es, |es|, n);
    e := es[k];
    StepAt(plan, es, k);
    SkipReasons(plan, Before(plan, es, k), e);
    hide ValidPlan, ValidRun, After, Before, Inv, Enabled, Next, BlockedIn, StoppedIn, CancelledIn;
  }

  lemma SkipReasons(plan: Plan, s: State, e: Event)
    requires Enabled(plan, s, e)
    ensures e.SkipEarly? ==> e.reason == Condition || e.reason == UpToDate
  {
  }

  // An action is skipped for its dependencies exactly if one of them had failed
  // or timed out when its phase was entered, or an earlier phase was left with a
  // failure that does not continue.
  lemma DependencySkipExactly(plan: Plan, es: seq<Event>, n: Name)
    requires ValidPlan(plan) && ValidRun(plan, es)
    ensures HasStatus(After(plan, es), n, Skipped) && After(plan, es).results[n].reason == DependencyFailed
            <==> exists k :: 0 <= k < |es| && (BlockedIn(plan, Before(plan, es, k), es[k], n)
                                               || StoppedIn(plan, Before(plan, es, k), es[k], n))
  {
    hide ValidPlan, ValidRun, After, Before, BlockedIn, StoppedIn, CancelledIn;
    var s := After(plan, es);
    if k :| 0 <= k < |es| && (BlockedIn(plan, Before(plan, es, k), es[k], n)
                              || StoppedIn(plan, Before(plan, es, k), es[k], n)) {
      CauseDecides(plan, es, k, n);
      EnterOrJoin(plan, Before(plan, es, k), es[k], n);
      NotBoth(plan, Before(plan, es, k), es[k], n);
    }
    if HasStatus(s, n, Skipped) && s.results[n].reason == DependencyFailed {
      var k := CauseBehind(plan, es, n);
      SkipReasons(plan, Before(plan, es, k), es[k]);
    }
  }

  // An action is cancelled exactly if it gave up waiting for the semaphore, or
  // its phase was to be entered after its stage's context had ended.
  lemma CancelledExactly(plan: Plan, es: seq<Event>, n: Name)
    requires ValidPlan(plan) && ValidRun(plan, es)
    ensures HasStatus(After(plan, es), n, Cancelled)
            <==> GiveUp(n) in es || exists k :: 0 <= k < |es| && CancelledIn(plan, Before(plan, es, k), es[k], n)
  {
    hide ValidPlan, ValidRun, After, Before, BlockedIn, StoppedIn, CancelledIn;
    if GiveUp(n) in es { EventDecides(plan, es, GiveUp(n), n); }
    if k :| 0 <= k < |es| && CancelledIn(plan, Before(plan, es, k), es[k], n) {
      CauseDecides(plan, es, k, n);
      EnterOrJoin(plan, Before(plan, es, k), es[k], n);
      NotBoth(plan, Before(plan, es, k), es[k], n);
    }
    if HasStatus(After(plan, es), n, Cancelled) {
      var k := CauseBehind(plan, es, n);
    }
  }

  lemma NotBoth(plan: Plan, s: State, e: Event, n: Name)
    ensures !(CancelledIn(plan, s, e, n) && (BlockedIn(plan, s, e, n) || StoppedIn(plan, s, e, n)))
  {
  }

  lemma CauseBehind(plan: Plan, es: seq<Event>, n: Name) returns (k: nat)
    requires ValidPlan(plan) && ValidRun(plan, es) && Final(After(plan, es).results, n)
    ensures k < |es| && CausesAt(plan, es, k, n, After(plan, es).results[n])
    ensures Enabled(plan, Before(plan, es, k), es[k]) && es[k] in es
  {
    assert es[..|es|] == es;
    k := HasCause(plan, es, |es|, n);
    StepAt(plan, es, k);
    hide ValidPlan, ValidRun, After, Inv, Next, Enabled, Causes;
  }

  // ---------------------------------------------------------------------
  // The run as a whole

  // The context ended while the main section was running, or before it was.
  ghost predicate CancelledInMain(plan: Plan, es: seq<Event>)
    requires ValidRun(plan, es)
  {
    exists k :: MainCancelAt(plan, es, k)
  }

  ghost predicate MainCancelAt(plan: Plan, es: seq<Event>, k: nat)
    requires ValidRun(plan, es)
  {
    k < |es| && es[k] == Cancel && Before(plan, es, k).stage == InMain
  }

  // The finally section runs under a context of its own exactly if the run was
  // cancelled before it.
  lemma {:induction false} DetachedExactly(plan: Plan, es: seq<Event>)
    requires ValidPlan(plan) && ValidRun(plan, es)
    ensures var s := After(plan, es);
      && (s.cancelled <==> Cancel in es)
      && (s.stage == InMain ==> !s.detached && (s.cancelled <==> CancelledInMain(plan, es)))
      && (s.stage != InMain && plan.fin != [] ==> (s.detached <==> CancelledInMain(plan, es)))
  {
    hide *;
    if es != [] {
      var init, e := es[..|es| - 1], es[|es| - 1];
      assert es == init + [e];
      LastStep(plan, es);
      DetachedExactly(plan, init);
      StageEvent(plan, After(plan, init), e);
      LastCancel(plan, es);
    } else {
      FirstState(plan);
    }
  }

  lemma LastStep(plan: Plan, es: seq<Event>)
    requires ValidPlan(plan) && ValidRun(plan, es) && es != []
    ensures var init, e := es[..|es| - 1], es[|es| - 1];
      && ValidRun(plan, init) && Inv(plan, After(plan, init)) && Enabled(plan, After(plan, init), e)
      && After(plan, es) == Next(plan, After(plan, init), e)
  {
    RunInv(plan, es[..|es| - 1]);
    hide ValidPlan, Inv, Enabled, Next;
  }

  lemma FirstState(plan: Plan)
    ensures ValidRun(plan, []) && After(plan, []) == Init() && !CancelledInMain(plan, [])
    ensures Init().stage == InMain && !Init().cancelled && !Init().detached
  {
  }

  lemma LastCancel(plan: Plan, es: seq<Event>)
    requires ValidRun(plan, es) && es != []
    ensures var init, e := es[..|es| - 1], es[|es| - 1];
      CancelledInMain(plan, es) <==>
        CancelledInMain(plan, init) || (e == Cancel && After(plan, init).stage == InMain)
  {
    var init, e := es[..|es| - 1], es[|es| - 1];
    assert ValidRun(plan, init);
    forall k: nat
      ensures MainCancelAt(plan, es, k) <==>
                MainCancelAt(plan, init, k) || (k == |init| && e == Cancel && After(plan, init).stage == InMain)
    {
      if k < |init| { assert es[..k] == init[..k]; }
      if k == |init| { assert es[..k] == init; }
      hide After, ValidRun;
    }
    hide After, ValidRun, MainCancelAt;
    if CancelledInMain(plan, es) { var k :| MainCancelAt(plan, es, k); }
    if CancelledInMain(plan, init) {
      var k :| MainCancelAt(plan, init, k);
      assert MainCancelAt(plan, es, k);
    }
    assert MainCancelAt(plan, es, |init|) <==> MainCancelAt(plan, init, |init|)
                                               || (e == Cancel && After(plan, init).stage == InMain);
  }

  // What an event does to the stage and the two flags.
  lemma StageEvent(plan: Plan, s: State, e: Event)
    requires Inv(plan, s) && Enabled(plan, s, e)
    ensures var s' := Next(plan, s, e);
      && (s'.cancelled <==> s.cancelled || e == Cancel)
      && (s'.stage == InMain ==> s.stage == InMain && s'.detached == s.detached)
      && (s.stage == InMain && s'.stage != InMain && plan.fin != [] ==> e != Cancel && s'.detached == s.cancelled)
      && (s.stage != InMain ==> s'.stage != InMain && s'.detached == s.detached)
      && (e == Cancel ==> s'.stage == s.stage)
  {
    if MovesOne(e) { MoveFrame(plan, s, e); }
    hide Holders, AllContinue, Blocked, SkipSet, AllCancelled, LaterNames, StageCancelled, NamesInv, GroupInv, Order;
  }

  // A run cancelled before its finally section brings every finally action to a
  // final result of its own all the same.
  lemma FinallyAfterCancel(plan: Plan, es: seq<Event>)
    requires ValidPlan(plan) && ValidRun(plan, es) && After(plan, es).stage == Done
    requires CancelledInMain(plan, es) || Cancel !in es
    ensures StageResult(plan, plan.fin, After(plan, es).results, After(plan, es).finErr)
  {
    DetachedExactly(plan, es);
    if plan.fin == [] {
      EmptyFinally(plan, es);
    } else {
      FinallyAlwaysRuns(plan, es);
    }
  }

  lemma EmptyFinally(plan: Plan, es: seq<Event>)
    requires ValidPlan(plan) && ValidRun(plan, es) && After(plan, es).stage == Done && plan.fin == []
    ensures StageResult(plan, plan.fin, After(plan, es).results, After(plan, es).finErr)
  {
    assert !After(plan, es).finErr by { NoFinally(plan, es); }
  }

  lemma {:induction false} NoFinally(plan: Plan, es: seq<Event>)
    requires ValidPlan(plan) && ValidRun(plan, es) && plan.fin == []
    ensures After(plan, es).stage != InFinally && !After(plan, es).finErr
  {
    if es != [] {
      var init, e := es[..|es| - 1], es[|es| - 1];
      NoFinally(plan, init);
      RunInv(plan, init);
      FinErrEvent(plan, After(plan, init), e);
      hide Inv, Enabled, Next, ValidPlan;
    }
  }

  lemma FinErrEvent(plan: Plan, s: State, e: Event)
    requires Inv(plan, s) && Enabled(plan, s, e) && plan.fin == [] && s.stage != InFinally && !s.finErr
    ensures Next(plan, s, e).stage != InFinally && !Next(plan, s, e).finErr
  {
    if MovesOne(e) { MoveFrame(plan, s, e); }
    hide Holders, AllContinue, Blocked, SkipSet, AllCancelled, LaterNames, StageCancelled, NamesInv, GroupInv, Order;
  }

  // n failed or timed out, and its failure does not continue.
  ghost predicate Breaks(plan: Plan, results: Results, n: Name) {
    && n in results && (results[n].status == Failed || results[n].status == Timeout) && n !in plan.continues
    && InOrder(plan.main, n)
  }

  // A run's status: cancelled exactly if its context ended at any time; else
  // succeeded exactly if every action succeeded or was skipped, and failed
  // exactly if some failure of the main section does not continue.
  lemma StatusExactly(plan: Plan, es: seq<Event>)
    requires ValidPlan(plan) && ValidRun(plan, es) && After(plan, es).stage == Done
    ensures var s := After(plan, es);
      && (FinalStatus(s) == ExecutionCancelled <==> Cancel in es)
      && (Cancel !in es ==>
            && (FinalStatus(s) == ExecutionSucceeded <==>
                  forall n | n in s.results :: s.results[n].status == Succeeded || s.results[n].status == Skipped)
            && (FinalStatus(s) == ExecutionFailed <==> exists n :: Breaks(plan, s.results, n)))
  {
    DetachedExactly(plan, es);
    var s := After(plan, es);
    CancelledStatus(s);
    if !s.cancelled {
      FinishedRun(plan, es);
      RunInv(plan, es);
      AllListed(plan, s);
      hide ValidPlan, ValidRun, After, Inv, StageResult, FinalStatus, Breaks;
      MainBreaks(plan, s.results, s.mainErr);
      NoneFailed(plan, s);
    }
  }

  lemma CancelledStatus(s: State)
    ensures FinalStatus(s) == ExecutionCancelled <==> s.cancelled
  {
  }

  lemma AllListed(plan: Plan, s: State)
    requires Inv(plan, s)
    ensures forall n | n in s.results :: InOrder(plan.main, n) || InOrder(plan.fin, n)
  {
    hide NamesInv, GroupInv, StageResult, AtRest, InOrder;
  }

  lemma MainBreaks(plan: Plan, results: Results, err: bool)
    requires StageResult(plan, plan.main, results, err)
    ensures err <==> exists n :: Breaks(plan, results, n)
  {
    hide AtRest;
    if err {
      var k: nat :| StoppedAt(plan, plan.main, results, k);
      var n :| n in plan.main[k] && n in results && Failing(results[n].status) && n !in plan.continues;
      assert Breaks(plan, results, n);
    } else if n :| Breaks(plan, results, n) {
      var i :| 0 <= i < |plan.main| && n in plan.main[i];
      assert GroupContinues(plan, plan.main[i], results);
    }
  }

  lemma NoneFailed(plan: Plan, s: State)
    requires StageResult(plan, plan.main, s.results, s.mainErr) && StageResult(plan, plan.fin, s.results, s.finErr)
    requires forall n | n in s.results :: InOrder(plan.main, n) || InOrder(plan.fin, n)
    ensures FailedActions(s.results) == {} <==>
              forall n | n in s.results :: s.results[n].status == Succeeded || s.results[n].status == Skipped
  {
    forall n | n in s.results ensures s.results[n].status != Running && s.results[n].status != Cancelled {
      if InOrder(plan.main, n) {
        var i :| 0 <= i < |plan.main| && n in plan.main[i];
      } else {
        var i :| 0 <= i < |plan.fin| && n in plan.fin[i];
      }
    }
    hide StageResult, InOrder;
    forall n | n in s.results
      ensures n in FailedActions(s.results) <==> s.results[n].status == Failed || s.results[n].status == Timeout
    {
    }
    if n :| n in s.results && s.results[n].status != Succeeded && s.results[n].status != Skipped {
      assert n in FailedActions(s.results);
    }
  }
}
