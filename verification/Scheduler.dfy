/** Running the phases of a workflow (executor.go: Execute, executePhases,
    executePhase and the status paths of executeAction), as a state machine over
    the atomic steps of its goroutines. Everything an action's provider,
    condition, inputs or fingerprint may do is a choice of event. */
module Scheduler {
  import opened Base
  import opened Digraph
  import opened Exclusive
  import opened ActionContext

  // continues: the actions whose continue-on-error policy holds.
  datatype Plan = Plan(main: seq<seq<Name>>, fin: seq<seq<Name>>, deps: Deps, excl: Deps,
                       maxConcurrency: int, continues: set<Name>)

  ghost predicate InOrder(order: seq<seq<Name>>, n: Name) {
    exists i :: 0 <= i < |order| && n in order[i]
  }

  // What graph building guarantees of a section's order.
  ghost predicate GoodOrder(order: seq<seq<Name>>, deps: Deps, excl: Deps) {
    && (forall i | 0 <= i < |order| :: order[i] != [] && Distinct(order[i]) && Compatible(excl, order[i]))
    && (forall i, j, n | 0 <= i < |order| && 0 <= j < |order| && n in order[i] && n in order[j] :: i == j)
    && (forall i, n, d | 0 <= i < |order| && n in order[i] && d in Succ(deps, n) :: Earlier(order, i, d))
  }

  ghost predicate Earlier(order: seq<seq<Name>>, i: nat, d: Name) {
    exists j :: 0 <= j < i && j < |order| && d in order[j]
  }

  ghost predicate ValidPlan(plan: Plan) {
    && GoodOrder(plan.main, plan.deps, plan.excl)
    && GoodOrder(plan.fin, plan.deps, plan.excl)
    && forall n :: !(InOrder(plan.main, n) && InOrder(plan.fin, n))
  }

  // ---------------------------------------------------------------------
  // States and steps

  datatype Stage = InMain | InFinally | Done

  // Where an action's goroutine is: waiting for the semaphore, holding it,
  // marked running, returned from executeAction (with an error or not), gone.
  datatype Pc = Waiting | Holding | Started | Returned(err: bool) | Gone

  // k: the group at hand; active: its goroutines were spawned and not joined;
  // errs: the group's error channel is non-empty; detached: the finally stage
  // runs under a background context.
  datatype State = State(stage: Stage, k: nat, active: bool, pc: map<Name, Pc>, results: Results,
                         errs: bool, cancelled: bool, detached: bool, mainErr: bool, finErr: bool)

  datatype Event =
    | Cancel
    | Enter
    | Acquire(n: Name)
    | GiveUp(n: Name)
    | Start(n: Name)
    | SkipEarly(n: Name, reason: SkipReason)
    | FailEarly(n: Name, error: string)
    | Succeed(n: Name)
    | Fail(n: Name, error: string)
    | TimeOut(n: Name)
    | Release(n: Name)
    | Join

  function Init(): State {
    State(InMain, 0, false, map[], map[], false, false, false, false, false)
  }

  function Order(plan: Plan, s: State): seq<seq<Name>> {
    match s.stage
    case InMain => plan.main
    case InFinally => plan.fin
    case Done => []
  }

  // The context the current stage runs under is cancelled.
  predicate StageCancelled(s: State) {
    s.cancelled && !s.detached
  }

  predicate Holds(pc: Pc) {
    pc.Holding? || pc.Started? || pc.Returned?
  }

  ghost function Holders(pc: map<Name, Pc>): set<Name> {
    set n | n in pc && Holds(pc[n])
  }

  function Capacity(plan: Plan, count: nat): int {
    if plan.maxConcurrency > 0 && count > plan.maxConcurrency then plan.maxConcurrency else count
  }

  predicate DependencyFailure(plan: Plan, results: Results, n: Name) {
    exists d | d in Succ(plan.deps, n) :: d in results && Failing(results[d].status)
  }

  // executePhase's filter: the actions it does not spawn.
  ghost function Blocked(plan: Plan, s: State, group: seq<Name>): set<Name> {
    set n | n in group && DependencyFailure(plan, s.results, n)
  }

  ghost function SkipSet(m: Results, names: set<Name>, reason: SkipReason): Results {
    map n | n in m.Keys + names :: if n in names then ActionResult(Skipped, reason, "", 0) else m[n]
  }

  ghost function LaterNames(order: seq<seq<Name>>, k: nat): set<Name> {
    set i, n | k < i < |order| && n in order[i] :: n
  }

  // executePhases returns, with an error or nil, and Execute goes on.
  function LeaveStage(plan: Plan, s: State, err: bool): State {
    var closed := s.(k := 0, active := false, pc := map[], errs := false);
    if s.stage == InMain then
      if plan.fin != [] then closed.(stage := InFinally, mainErr := err, detached := s.cancelled)
      else closed.(stage := Done, mainErr := err)
    else closed.(stage := Done, finErr := err)
  }

  function NextGroup(s: State): State {
    s.(k := s.k + 1, active := false, pc := map[], errs := false)
  }

  // The second look at the policies, from the recorded error texts.
  ghost predicate AllContinue(plan: Plan, s: State, group: seq<Name>) {
    forall n | n in group && n in s.results && s.results[n].error != "" :: n in plan.continues
  }

  ghost predicate Enabled(plan: Plan, s: State, e: Event) {
    match e
    case Cancel => s.stage != Done && !s.cancelled
    case Enter => s.stage != Done && !s.active
    case Acquire(n) => AtPc(s, n, Waiting) && |Holders(s.pc)| < Capacity(plan, |s.pc|)
    case GiveUp(n) => AtPc(s, n, Waiting) && StageCancelled(s)
    case Start(n) => AtPc(s, n, Holding)
    case SkipEarly(n, reason) => AtPc(s, n, Holding) && (reason == Condition || reason == UpToDate)
    case FailEarly(n, error) => AtPc(s, n, Holding) && error != ""
    case Succeed(n) => AtPc(s, n, Started)
    case Fail(n, error) => AtPc(s, n, Started) && error != ""
    case TimeOut(n) => AtPc(s, n, Started)
    case Release(n) => s.active && n in s.pc && s.pc[n].Returned?
    case Join => s.active && forall n | n in s.pc :: s.pc[n] == Gone
  }

  predicate AtPc(s: State, n: Name, pc: Pc) {
    s.active && n in s.pc && s.pc[n] == pc
  }

  function Move(s: State, n: Name, pc: Pc, results: Results): State {
    s.(pc := s.pc[n := pc], results := results)
  }

  ghost function Next(plan: Plan, s: State, e: Event): State
    requires Enabled(plan, s, e)
  {
    match e
    case Cancel => s.(cancelled := true)
    case Enter => EnterGroup(plan, s)
    case Acquire(n) => Move(s, n, Holding, s.results)
    case GiveUp(n) => Move(s, n, Gone, WithCancelled(s.results, n))
    case Start(n) => Move(s, n, Started, WithRunning(s.results, n))
    case SkipEarly(n, reason) => Move(s, n, Returned(false), WithSkipped(s.results, n, reason))
    case FailEarly(n, error) => Move(s, n, Returned(true), WithFailed(s.results, n, error))
    case Succeed(n) => Move(s, n, Returned(false), WithSucceeded(s.results, n))
    case Fail(n, error) => Move(s, n, Returned(n !in plan.continues), WithFailed(s.results, n, error))
    case TimeOut(n) => Move(s, n, Returned(true), WithTimeout(s.results, n))
    case Release(n) => Move(s, n, Gone, s.results).(errs := s.errs || s.pc[n].err)
    case Join => JoinGroup(plan, s)
  }

  // The top of executePhases' loop, up to the spawning of goroutines.
  ghost function EnterGroup(plan: Plan, s: State): State {
    var order := Order(plan, s);
    if s.k >= |order| then LeaveStage(plan, s, false)
    else
      var group := order[s.k];
      if StageCancelled(s) then LeaveStage(plan, s.(results := AllCancelled(s.results, group)), true)
      else
        var blocked := Blocked(plan, s, group);
        var filtered := s.(results := SkipSet(s.results, blocked, DependencyFailed));
        var toRun := Elems(group) - blocked;
        if toRun == {} then NextGroup(filtered)
        else filtered.(active := true, pc := map n | n in toRun :: Waiting, errs := false)
  }

  // After wg.Wait: go on, or give up on the rest of the stage.
  ghost function JoinGroup(plan: Plan, s: State): State {
    var order := Order(plan, s);
    if s.k >= |order| || !s.errs || AllContinue(plan, s, order[s.k]) then NextGroup(s)
    else LeaveStage(plan, s.(results := SkipSet(s.results, LaterNames(order, s.k), DependencyFailed)), true)
  }

  // A run is a sequence of events each enabled where it happens.
  ghost predicate ValidRun(plan: Plan, es: seq<Event>)
    decreases |es|, 0
  {
    es == [] ||
    (ValidRun(plan, es[..|es| - 1]) && Enabled(plan, After(plan, es[..|es| - 1]), es[|es| - 1]))
  }

  ghost function After(plan: Plan, es: seq<Event>): State
    requires ValidRun(plan, es)
    decreases |es|, 1
  {
    if es == [] then Init() else Next(plan, After(plan, es[..|es| - 1]), es[|es| - 1])
  }

  // determineFinalStatus
  datatype ExecutionStatus = ExecutionSucceeded | ExecutionFailed | ExecutionCancelled | PartialSuccess

  function DetermineFinalStatus(cancelled: bool, mainErr: bool, finErr: bool, failedActions: nat): ExecutionStatus {
    if cancelled then ExecutionCancelled
    else if failedActions == 0 && !mainErr && !finErr then ExecutionSucceeded
    else if !mainErr && failedActions > 0 then PartialSuccess
    else ExecutionFailed
  }

  ghost function FailedActions(results: Results): set<Name> {
    set n | n in results && Failing(results[n].status)
  }

  ghost function FinalStatus(s: State): ExecutionStatus {
    DetermineFinalStatus(s.cancelled, s.mainErr, s.finErr, |FailedActions(s.results)|)
  }

  // ---------------------------------------------------------------------
  // The invariant

  // A result at rest. An error text is recorded exactly with a failure.
  ghost predicate AtRest(r: ActionResult) {
    r.status != Running && (r.error != "" <==> Failing(r.status))
  }

  // n belongs to a group already passed.
  ghost predicate Passed(plan: Plan, s: State, n: Name) {
    && n in s.results && AtRest(s.results[n])
    && (Failing(s.results[n].status) ==> n in plan.continues)
    && (s.results[n].status == Cancelled ==> !s.active && StageCancelled(s))
  }

  // n's goroutine is at pc.
  ghost predicate PcInv(plan: Plan, s: State, n: Name, pc: Pc) {
    match pc
    case Waiting => n !in s.results
    case Holding => n !in s.results
    case Started => n in s.results && s.results[n].status == Running && s.results[n].error == ""
    case Returned(err) =>
      && n in s.results && AtRest(s.results[n]) && s.results[n].status != Cancelled
      && (Failing(s.results[n].status) ==> err || n in plan.continues)
    case Gone =>
      && n in s.results && AtRest(s.results[n])
      && (s.results[n].status == Cancelled ==> StageCancelled(s))
      && (Failing(s.results[n].status) ==> s.errs || n in plan.continues)
  }

  // n was filtered out of the group at hand.
  ghost predicate Filtered(s: State, n: Name) {
    n in s.results && s.results[n] == ActionResult(Skipped, DependencyFailed, "", 0)
  }

  // Name n of group i of the current stage.
  ghost predicate NameInv(plan: Plan, s: State, i: nat, n: Name) {
    if i < s.k then Passed(plan, s, n)
    else if i == s.k && s.active then
      if n in s.pc then PcInv(plan, s, n, s.pc[n]) else Filtered(s, n)
    else n !in s.results
  }

  ghost predicate NamesInv(plan: Plan, s: State) {
    forall i, n | 0 <= i < |Order(plan, s)| && n in Order(plan, s)[i] :: NameInv(plan, s, i, n)
  }

  // The goroutines at hand are some of the group's, within the semaphore's
  // capacity, and each was spawned with its dependencies Succeeded or Skipped.
  ghost predicate GroupInv(plan: Plan, s: State) {
    if s.active then
      && s.stage != Done && s.k < |Order(plan, s)|
      && s.pc.Keys <= Elems(Order(plan, s)[s.k]) && s.pc != map[]
      && |Holders(s.pc)| <= Capacity(plan, |s.pc|)
      && forall n | n in s.pc :: DepsMet(plan, s.results, n)
    else s.pc == map[] && !s.errs && s.k <= |Order(plan, s)|
  }

  ghost predicate DepsMet(plan: Plan, results: Results, n: Name) {
    forall d | d in Succ(plan.deps, n) ::
      d in results && (results[d].status == Succeeded || results[d].status == Skipped)
  }

  // How an uncancelled stage ends: every action has a final result, and either
  // every failed action continues, or the groups after the first one with a
  // failure that does not continue are skipped as dependency-failed.
  ghost predicate StageResult(plan: Plan, order: seq<seq<Name>>, results: Results, err: bool) {
    && (forall i, n | 0 <= i < |order| && n in order[i] ::
          n in results && AtRest(results[n]) && results[n].status != Cancelled)
    && (if err then exists k :: StoppedAt(plan, order, results, k)
        else forall i | 0 <= i < |order| :: GroupContinues(plan, order[i], results))
  }

  ghost predicate GroupContinues(plan: Plan, group: seq<Name>, results: Results) {
    forall n | n in group && n in results && Failing(results[n].status) :: n in plan.continues
  }

  ghost predicate StoppedAt(plan: Plan, order: seq<seq<Name>>, results: Results, k: nat) {
    && k < |order| && !GroupContinues(plan, order[k], results)
    && (forall i | 0 <= i < k :: GroupContinues(plan, order[i], results))
    && (forall i, n | k < i < |order| && n in order[i] ::
          n in results && results[n] == ActionResult(Skipped, DependencyFailed, "", 0))
  }

  // What is known of the section that is not being run.
  ghost predicate OtherInv(plan: Plan, s: State) {
    && (s.stage == InMain ==>
          !s.detached && !s.mainErr && !s.finErr && forall n | n in s.results :: InOrder(plan.main, n))
    && (s.stage != InMain ==> forall n | InOrder(plan.main, n) && n in s.results :: AtRest(s.results[n]))
    && (s.stage != InMain && !s.cancelled ==> !s.detached && StageResult(plan, plan.main, s.results, s.mainErr))
    && (s.stage == InFinally ==> !s.finErr)
    && (s.stage == Done ==> forall n | n in s.results :: AtRest(s.results[n]))
    && (s.stage == Done && !StageCancelled(s) ==> StageResult(plan, plan.fin, s.results, s.finErr))
    && (forall n | n in s.results :: InOrder(plan.main, n) || InOrder(plan.fin, n))
  }

  ghost predicate Inv(plan: Plan, s: State) {
    NamesInv(plan, s) && GroupInv(plan, s) && OtherInv(plan, s)
  }

  // ---------------------------------------------------------------------
  // Every step keeps the invariant

  lemma InitInv(plan: Plan)
    requires ValidPlan(plan)
    ensures Inv(plan, Init())
  {
  }

  lemma OrderGood(plan: Plan, s: State)
    requires ValidPlan(plan)
    ensures GoodOrder(Order(plan, s), plan.deps, plan.excl)
  {
  }

  // A stage's result depends on the results of its own actions only.
  lemma StageResultFrame(plan: Plan, order: seq<seq<Name>>, before: Results, after: Results, err: bool)
    requires StageResult(plan, order, before, err)
    requires forall i, n | 0 <= i < |order| && n in order[i] :: n in before && n in after && after[n] == before[n]
    ensures StageResult(plan, order, after, err)
  {
    forall i | 0 <= i < |order|
      ensures GroupContinues(plan, order[i], before) <==> GroupContinues(plan, order[i], after)
    {
    }
    if err {
      var k :| StoppedAt(plan, order, before, k);
      assert StoppedAt(plan, order, after, k);
    }
  }

  // A change of results to names outside main, or to nothing at rest in it.
  lemma OtherFrame(plan: Plan, s: State, s': State)
    requires OtherInv(plan, s) && s.stage != Done
    requires s'.stage == s.stage && s'.detached == s.detached
    requires s'.mainErr == s.mainErr && s'.finErr == s.finErr && (s.cancelled ==> s'.cancelled)
    requires forall n | n in s.results :: n in s'.results
    requires forall n | n in s'.results && !(n in s.results && s'.results[n] == s.results[n]) ::
               if s.stage == InMain then InOrder(plan.main, n) else InOrder(plan.fin, n)
    requires ValidPlan(plan)
    ensures OtherInv(plan, s')
  {
    if s.stage != InMain {
      forall n | InOrder(plan.main, n) && n in s'.results ensures n in s.results && s'.results[n] == s.results[n] {
      }
      if !s'.cancelled {
        forall i, n | 0 <= i < |plan.main| && n in plan.main[i]
          ensures n in s.results && n in s'.results && s'.results[n] == s.results[n]
        {
          assert InOrder(plan.main, n);
        }
        StageResultFrame(plan, plan.main, s.results, s'.results, s.mainErr);
      }
    }
  }

  // ---- One goroutine moves

  // s' differs from s in n's place and result, and perhaps by an error sent.
  ghost predicate MovedOnly(s: State, s': State, n: Name) {
    && n in s.pc && n in s'.pc && s'.pc == s.pc[n := s'.pc[n]]
    && s' == s.(pc := s'.pc, results := s'.results, errs := s'.errs)
    && (s.errs ==> s'.errs)
    && (forall m | m != n :: m in s.results <==> m in s'.results)
    && (forall m | m != n && m in s.results :: s'.results[m] == s.results[m])
    && (n in s.results ==> n in s'.results)
  }

  lemma MoveNames(plan: Plan, s: State, s': State, n: Name)
    requires ValidPlan(plan) && Inv(plan, s) && s.active && MovedOnly(s, s', n)
    requires PcInv(plan, s', n, s'.pc[n])
    ensures NamesInv(plan, s')
  {
    var order := Order(plan, s);
    assert n in Elems(order[s.k]);
    forall i, m | 0 <= i < |order| && m in order[i] ensures NameInv(plan, s', i, m) {
      assert NameInv(plan, s, i, m);
      if m == n {
        assert i == s.k;
      }
    }
  }

  lemma MoveDeps(plan: Plan, s: State, s': State, n: Name, m: Name)
    requires ValidPlan(plan) && Inv(plan, s) && s.active && MovedOnly(s, s', n) && m in s.pc
    ensures DepsMet(plan, s'.results, m)
  {
    var order := Order(plan, s);
    OrderGood(plan, s);
    assert m in Elems(order[s.k]) && n in Elems(order[s.k]);
    assert DepsMet(plan, s.results, m);
    forall d | d in Succ(plan.deps, m) ensures d != n {
      assert Earlier(order, s.k, d);
      var j :| 0 <= j < s.k && j < |order| && d in order[j];
    }
  }

  lemma MoveInv(plan: Plan, s: State, s': State, n: Name)
    requires ValidPlan(plan) && Inv(plan, s) && s.active && MovedOnly(s, s', n)
    requires PcInv(plan, s', n, s'.pc[n])
    requires |Holders(s'.pc)| <= Capacity(plan, |s.pc|)
    ensures Inv(plan, s')
  {
    hide *;
    MoveNames(plan, s, s', n);
    MoveGroup(plan, s, s', n);
    MoveOther(plan, s, s', n);
    InvParts(plan, s');
  }

  lemma MoveGroup(plan: Plan, s: State, s': State, n: Name)
    requires ValidPlan(plan) && Inv(plan, s) && s.active && MovedOnly(s, s', n)
    requires |Holders(s'.pc)| <= Capacity(plan, |s.pc|)
    ensures GroupInv(plan, s')
  {
    forall m | m in s'.pc ensures DepsMet(plan, s'.results, m) {
      MoveDeps(plan, s, s', n, m);
    }
    assert s'.pc.Keys == s.pc.Keys;
    assert |s'.pc| == |s'.pc.Keys| && |s.pc| == |s.pc.Keys|;
    hide ValidPlan, NamesInv, OtherInv, DepsMet, Capacity, Holders;
  }

  lemma MoveOther(plan: Plan, s: State, s': State, n: Name)
    requires ValidPlan(plan) && Inv(plan, s) && s.active && MovedOnly(s, s', n)
    ensures OtherInv(plan, s')
  {
    InvOther(plan, s);
    assert s.stage != Done && n in Elems(Order(plan, s)[s.k]);
    hide Inv, ValidPlan, OtherInv;
    if s.stage == InMain { assert InOrder(plan.main, n); } else { assert InOrder(plan.fin, n); }
    OtherFrame(plan, s, s');
  }

  lemma HoldersAfter(pc: map<Name, Pc>, n: Name, p: Pc)
    requires n in pc
    ensures Holds(p) ==> Holders(pc[n := p]) == Holders(pc) + {n}
    ensures !Holds(p) ==> Holders(pc[n := p]) == Holders(pc) - {n}
    ensures |Holders(pc[n := p])| <= |Holders(pc)| + 1
    ensures Holds(pc[n]) || !Holds(p) ==> |Holders(pc[n := p])| <= |Holders(pc)|
  {
    var after := Holders(pc[n := p]);
    if Holds(p) {
      assert after == Holders(pc) + {n};
      if Holds(pc[n]) { assert after == Holders(pc); }
    } else {
      assert after == Holders(pc) - {n};
      SubsetCard(after, Holders(pc));
    }
  }

  // The state of the name an event is about.
  lemma AtHand(plan: Plan, s: State, n: Name)
    requires ValidPlan(plan) && Inv(plan, s) && s.active && n in s.pc
    ensures PcInv(plan, s, n, s.pc[n]) && |Holders(s.pc)| <= Capacity(plan, |s.pc|)
  {
    assert n in Elems(Order(plan, s)[s.k]);
    assert NameInv(plan, s, s.k, n);
  }

  predicate MovesOne(e: Event) {
    !e.Cancel? && !e.Enter? && !e.Join?
  }

  // The mark an event makes fits the place it moves its action to.
  lemma MoveEffect(plan: Plan, s: State, e: Event)
    requires Enabled(plan, s, e) && MovesOne(e) && e.n in s.pc && PcInv(plan, s, e.n, s.pc[e.n])
    ensures e.n in Next(plan, s, e).pc && PcInv(plan, Next(plan, s, e), e.n, Next(plan, s, e).pc[e.n])
  {
    hide *;
    if e.Succeed? || e.Fail? || e.TimeOut? {
      EndEffect(plan, s, e);
    } else {
      StepEffect(plan, s, e);
    }
  }

  lemma EndEffect(plan: Plan, s: State, e: Event)
    requires Enabled(plan, s, e) && (e.Succeed? || e.Fail? || e.TimeOut?)
    requires e.n in s.pc && PcInv(plan, s, e.n, s.pc[e.n])
    ensures e.n in Next(plan, s, e).pc && PcInv(plan, Next(plan, s, e), e.n, Next(plan, s, e).pc[e.n])
  {
    hide Holders, EnterGroup, JoinGroup, Capacity, StageCancelled;
  }

  lemma StepEffect(plan: Plan, s: State, e: Event)
    requires Enabled(plan, s, e) && MovesOne(e) && !(e.Succeed? || e.Fail? || e.TimeOut?)
    requires e.n in s.pc && PcInv(plan, s, e.n, s.pc[e.n])
    ensures e.n in Next(plan, s, e).pc && PcInv(plan, Next(plan, s, e), e.n, Next(plan, s, e).pc[e.n])
  {
    hide Holders, EnterGroup, JoinGroup, Capacity;
    match e {
      case Acquire(_) =>
      case GiveUp(_) =>
      case Start(_) =>
      case SkipEarly(_, _) =>
      case FailEarly(_, _) =>
      case _ =>
    }
  }

  lemma MoveFrame(plan: Plan, s: State, e: Event)
    requires Enabled(plan, s, e) && MovesOne(e)
    ensures MovedOnly(s, Next(plan, s, e), e.n)
    ensures e.Acquire? || Holds(s.pc[e.n]) || !Holds(Next(plan, s, e).pc[e.n])
    ensures Next(plan, s, e).pc == s.pc[e.n := Next(plan, s, e).pc[e.n]]
  {
    hide Holders, EnterGroup, JoinGroup, Capacity;
  }

  lemma MoveEnabled(plan: Plan, s: State, e: Event)
    requires Enabled(plan, s, e) && MovesOne(e)
    ensures s.active && e.n in s.pc
    ensures e.Acquire? ==> |Holders(s.pc)| < Capacity(plan, |s.pc|)
  {
  }

  lemma MoveStep(plan: Plan, s: State, e: Event)
    requires ValidPlan(plan) && Inv(plan, s) && Enabled(plan, s, e) && MovesOne(e)
    ensures Inv(plan, Next(plan, s, e))
  {
    MoveEnabled(plan, s, e);
    hide *;
    AtHand(plan, s, e.n);
    MoveFrame(plan, s, e);
    MoveEffect(plan, s, e);
    var s' := Next(plan, s, e);
    HoldersAfter(s.pc, e.n, s'.pc[e.n]);
    MoveInv(plan, s, s', e.n);
  }

  // ---- The context is cancelled

  lemma CancelStep(plan: Plan, s: State)
    requires ValidPlan(plan) && Inv(plan, s) && Enabled(plan, s, Cancel)
    ensures Inv(plan, Next(plan, s, Cancel))
  {
    var s' := Next(plan, s, Cancel);
    forall i, n | 0 <= i < |Order(plan, s)| && n in Order(plan, s)[i] ensures NameInv(plan, s', i, n) {
      assert NameInv(plan, s, i, n);
    }
    OtherFrame(plan, s, s');
  }

  // ---- A stage ends

  // The current stage is over: its names are at rest, and if the run is not
  // cancelled it ended as a stage should.
  ghost predicate StageOver(plan: Plan, s: State, err: bool) {
    && (forall n | n in s.results && InOrder(Order(plan, s), n) :: AtRest(s.results[n]))
    && (!StageCancelled(s) ==> StageResult(plan, Order(plan, s), s.results, err))
  }

  lemma LeaveInv(plan: Plan, s: State, err: bool)
    requires ValidPlan(plan) && OtherInv(plan, s) && s.stage != Done && StageOver(plan, s, err)
    ensures Inv(plan, LeaveStage(plan, s, err))
  {
    hide Passed, PcInv, Filtered, Holders, Capacity, DepsMet, StageResult, AtRest, GoodOrder;
    var s' := LeaveStage(plan, s, err);
    EmptyStage(plan, s'.results);
    if s.stage == InMain {
      forall i, n | 0 <= i < |plan.fin| && n in plan.fin[i] ensures n !in s'.results {
        assert InOrder(plan.fin, n);
      }
    }
  }

  lemma EmptyStage(plan: Plan, results: Results)
    ensures StageResult(plan, [], results, false)
  {
  }

  lemma AllGroupsPassed(plan: Plan, s: State)
    requires Inv(plan, s) && !s.active && s.stage != Done && s.k >= |Order(plan, s)|
    ensures StageOver(plan, s, false)
  {
    var order := Order(plan, s);
    forall i, n | 0 <= i < |order| && n in order[i] ensures Passed(plan, s, n) {
      assert NameInv(plan, s, i, n);
    }
  }

  // ---- A group is entered

  lemma EnterCancelled(plan: Plan, s: State)
    requires ValidPlan(plan) && Inv(plan, s) && !s.active && s.stage != Done
    requires s.k < |Order(plan, s)| && StageCancelled(s)
    ensures Inv(plan, EnterGroup(plan, s))
  {
    var order := Order(plan, s);
    var mid := s.(results := AllCancelled(s.results, order[s.k]));
    forall n | n in mid.results && InOrder(order, n) ensures AtRest(mid.results[n]) {
      var i :| 0 <= i < |order| && n in order[i];
      assert NameInv(plan, s, i, n);
    }
    forall n | n in order[s.k] ensures InOrder(order, n) && n !in s.results {
      assert NameInv(plan, s, s.k, n);
    }
    OtherFrame(plan, s, mid);
    LeaveInv(plan, mid, true);
  }

  // Filtering marks names of this group only, and spawning starts the others.
  ghost predicate FilteredState(plan: Plan, s: State, mid: State) {
    && s.k < |Order(plan, s)|
    && mid == s.(results := SkipSet(s.results, Blocked(plan, s, Order(plan, s)[s.k]), DependencyFailed))
  }

  lemma FilterOther(plan: Plan, s: State, mid: State)
    requires ValidPlan(plan) && Inv(plan, s) && !s.active && s.stage != Done && FilteredState(plan, s, mid)
    ensures OtherInv(plan, mid)
  {
    var group := Order(plan, s)[s.k];
    forall n | n in Blocked(plan, s, group) ensures InOrder(Order(plan, s), n) {
      assert n in group;
    }
    OtherFrame(plan, s, mid);
  }

  lemma UnblockedDepsMet(plan: Plan, s: State, mid: State, n: Name)
    requires ValidPlan(plan) && Inv(plan, s) && !s.active && s.stage != Done && FilteredState(plan, s, mid)
    requires !StageCancelled(s) && n in Order(plan, s)[s.k] && n !in Blocked(plan, s, Order(plan, s)[s.k])
    ensures DepsMet(plan, mid.results, n)
  {
    var order := Order(plan, s);
    OrderGood(plan, s);
    forall d | d in Succ(plan.deps, n)
      ensures d in mid.results && (mid.results[d].status == Succeeded || mid.results[d].status == Skipped)
    {
      assert Earlier(order, s.k, d);
      var j :| 0 <= j < s.k && j < |order| && d in order[j];
      assert NameInv(plan, s, j, d);
      assert !DependencyFailure(plan, s.results, n);
    }
  }

  lemma EnterSpawn(plan: Plan, s: State)
    requires ValidPlan(plan) && Inv(plan, s) && !s.active && s.stage != Done
    requires s.k < |Order(plan, s)| && !StageCancelled(s)
    ensures Inv(plan, EnterGroup(plan, s))
  {
    var mid := s.(results := SkipSet(s.results, Blocked(plan, s, Order(plan, s)[s.k]), DependencyFailed));
    var s' := EnterGroup(plan, s);
    SpawnShape(plan, s, s', mid);
    hide *;
    FilterOther(plan, s, mid);
    SpawnNames(plan, s, s');
    SpawnGroup(plan, s, s', mid);
    SameOther(plan, mid, s');
    InvParts(plan, s');
  }

  lemma SpawnShape(plan: Plan, s: State, s': State, mid: State)
    requires s.k < |Order(plan, s)| && !StageCancelled(s) && s' == EnterGroup(plan, s) && !s.active
    requires mid == s.(results := SkipSet(s.results, Blocked(plan, s, Order(plan, s)[s.k]), DependencyFailed))
    ensures FilteredState(plan, s, mid)
    ensures s'.results == mid.results && s'.stage == mid.stage && s'.cancelled == mid.cancelled
    ensures s'.detached == mid.detached && s'.mainErr == mid.mainErr && s'.finErr == mid.finErr
  {
    hide Blocked, SkipSet;
  }

  lemma SpawnGroup(plan: Plan, s: State, s': State, mid: State)
    requires ValidPlan(plan) && Inv(plan, s) && !s.active && s.stage != Done && FilteredState(plan, s, mid)
    requires s.k < |Order(plan, s)| && !StageCancelled(s) && s' == EnterGroup(plan, s) && s'.results == mid.results
    ensures GroupInv(plan, s')
  {
    GroupParts(plan, s);
    SpawnedPc(plan, s, s');
    hide *;
    if s'.active {
      forall n | n in s'.pc ensures DepsMet(plan, s'.results, n) {
        UnblockedDepsMet(plan, s, mid, n);
      }
    }
    FreshGroup(plan, s');
  }

  // The goroutines spawned: the names not blocked, all waiting.
  lemma SpawnedPc(plan: Plan, s: State, s': State)
    requires s.k < |Order(plan, s)| && !StageCancelled(s) && s' == EnterGroup(plan, s) && !s.active
    requires s.pc == map[] && !s.errs && s.stage != Done
    ensures s'.stage == s.stage && Order(plan, s') == Order(plan, s)
    ensures forall n :: n in s'.pc <==> n in Order(plan, s)[s.k] && n !in Blocked(plan, s, Order(plan, s)[s.k])
    ensures forall n | n in s'.pc :: s'.pc[n] == Waiting
    ensures s'.active ==> s'.k == s.k && s'.pc != map[]
    ensures !s'.active ==> s'.pc == map[] && !s'.errs && s'.k == s.k + 1
  {
    hide Blocked, SkipSet, Order;
    var toRun := Elems(Order(plan, s)[s.k]) - Blocked(plan, s, Order(plan, s)[s.k]);
    assert s'.pc.Keys == toRun;
    assert forall n :: n in s'.pc <==> n in s'.pc.Keys;
    OrderOfStage(plan, s, s');
  }

  lemma OrderOfStage(plan: Plan, s: State, s': State)
    ensures s'.stage == s.stage ==> Order(plan, s') == Order(plan, s)
  {
  }

  lemma FreshGroup(plan: Plan, s: State)
    requires s.active ==>
               && s.stage != Done && s.k < |Order(plan, s)| && s.pc != map[]
               && (forall n | n in s.pc :: n in Order(plan, s)[s.k])
               && (forall n | n in s.pc :: s.pc[n] == Waiting)
               && (forall n | n in s.pc :: DepsMet(plan, s.results, n))
    requires !s.active ==> s.pc == map[] && !s.errs && s.k <= |Order(plan, s)|
    ensures GroupInv(plan, s)
  {
    hide DepsMet, Order;
    if s.active {
      assert Holders(s.pc) == {};
    }
  }

  lemma GroupParts(plan: Plan, s: State)
    requires Inv(plan, s) && !s.active
    ensures s.pc == map[] && !s.errs
  {
  }

  lemma InvParts(plan: Plan, s: State)
    requires NamesInv(plan, s) && GroupInv(plan, s) && OtherInv(plan, s)
    ensures Inv(plan, s)
  {
  }

  lemma SameOther(plan: Plan, s: State, s': State)
    requires OtherInv(plan, s)
    requires s'.stage == s.stage && s'.results == s.results && s'.cancelled == s.cancelled
    requires s'.detached == s.detached && s'.mainErr == s.mainErr && s'.finErr == s.finErr
    ensures OtherInv(plan, s')
  {
  }

  lemma SpawnNames(plan: Plan, s: State, s': State)
    requires ValidPlan(plan) && Inv(plan, s) && !s.active && s.stage != Done
    requires s.k < |Order(plan, s)| && !StageCancelled(s) && s' == EnterGroup(plan, s)
    ensures NamesInv(plan, s')
  {
    var order, blocked := Order(plan, s), Blocked(plan, s, Order(plan, s)[s.k]);
    OrderGood(plan, s);
    GroupParts(plan, s);
    SpawnedPc(plan, s, s');
    var mid := s.(results := SkipSet(s.results, blocked, DependencyFailed));
    SpawnShape(plan, s, s', mid);
    forall i, n | 0 <= i < |order| && n in order[i] ensures NameInv(plan, s', i, n) {
      assert NameInv(plan, s, i, n) && (n in order[s.k] ==> i == s.k);
      assert n in blocked ==> n in order[s.k];
      hide *;
      SpawnName(plan, s, s', blocked, i, n);
    }
  }

  lemma SpawnName(plan: Plan, s: State, s': State, blocked: set<Name>, i: nat, n: Name)
    requires NameInv(plan, s, i, n) && !s.active && (n in blocked ==> i == s.k)
    requires s'.results == SkipSet(s.results, blocked, DependencyFailed)
    requires s'.stage == s.stage && s'.cancelled == s.cancelled && s'.detached == s.detached
    requires if s'.active then s'.k == s.k else s'.k == s.k + 1
    requires i == s.k ==> (n in s'.pc <==> n !in blocked) && (n in s'.pc ==> s'.pc[n] == Waiting)
    requires !s'.active ==> s'.pc == map[]
    requires i < s.k ==> s'.active ==> !StageCancelled(s)
    ensures NameInv(plan, s', i, n)
  {
    SkipSetAt(s.results, blocked, DependencyFailed, n);
    hide SkipSet;
  }

  // ---- A group is joined

  // Every name of a joined group is at rest; failures were sent or continue.
  lemma JoinedAtRest(plan: Plan, s: State, n: Name)
    requires ValidPlan(plan) && Inv(plan, s) && Enabled(plan, s, Join)
    requires n in Order(plan, s)[s.k]
    ensures n in s.results && AtRest(s.results[n])
    ensures s.results[n].status == Cancelled ==> StageCancelled(s)
    ensures Failing(s.results[n].status) ==> s.errs || n in plan.continues
  {
    assert NameInv(plan, s, s.k, n);
  }

  lemma JoinOn(plan: Plan, s: State)
    requires ValidPlan(plan) && Inv(plan, s) && Enabled(plan, s, Join)
    requires !s.errs || AllContinue(plan, s, Order(plan, s)[s.k])
    ensures Inv(plan, NextGroup(s))
  {
    var order := Order(plan, s);
    var s' := NextGroup(s);
    OrderGood(plan, s);
    forall i, n | 0 <= i < |order| && n in order[i] ensures NameInv(plan, s', i, n) {
      assert NameInv(plan, s, i, n);
      if i == s.k {
        JoinedAtRest(plan, s, n);
      }
    }
    SameOther(plan, s, s');
  }

  lemma JoinStop(plan: Plan, s: State)
    requires ValidPlan(plan) && Inv(plan, s) && Enabled(plan, s, Join)
    requires s.errs && !AllContinue(plan, s, Order(plan, s)[s.k])
    ensures Inv(plan, JoinGroup(plan, s))
  {
    var order := Order(plan, s);
    OrderGood(plan, s);
    var later := LaterNames(order, s.k);
    var mid := s.(results := SkipSet(s.results, later, DependencyFailed));
    StopResults(plan, s, mid);
    forall n | n in later ensures InOrder(order, n) {
      var i :| s.k < i < |order| && n in order[i];
    }
    LaterNew(plan, s);
    OtherFrame(plan, s, mid);
    LeaveInv(plan, mid, true);
  }

  lemma LaterNew(plan: Plan, s: State)
    requires ValidPlan(plan) && Inv(plan, s) && s.active
    ensures forall n | n in LaterNames(Order(plan, s), s.k) :: n !in s.results
  {
    var order := Order(plan, s);
    forall n | n in LaterNames(order, s.k) ensures n !in s.results {
      var i :| s.k < i < |order| && n in order[i];
      assert NameInv(plan, s, i, n);
    }
  }

  lemma PassedContinues(plan: Plan, s: State, i: nat)
    requires Inv(plan, s) && i < s.k && i < |Order(plan, s)|
    ensures GroupContinues(plan, Order(plan, s)[i], s.results)
  {
    forall n | n in Order(plan, s)[i] ensures Passed(plan, s, n) {
      assert NameInv(plan, s, i, n);
    }
  }

  // Some failure of the group at hand does not continue.
  lemma StopFails(plan: Plan, s: State, after: Results)
    requires Inv(plan, s) && Enabled(plan, s, Join) && ValidPlan(plan)
    requires s.errs && !AllContinue(plan, s, Order(plan, s)[s.k])
    requires forall n | n in Order(plan, s)[s.k] && n in s.results :: n in after && after[n] == s.results[n]
    ensures !GroupContinues(plan, Order(plan, s)[s.k], after)
  {
    var n :| n in Order(plan, s)[s.k] && n in s.results && s.results[n].error != "" && n !in plan.continues;
    JoinedAtRest(plan, s, n);
  }

  lemma StopPassed(plan: Plan, s: State, after: Results, i: nat)
    requires Inv(plan, s) && i < s.k && i < |Order(plan, s)|
    requires forall n | n in Order(plan, s)[i] && n in after :: n in s.results && after[n] == s.results[n]
    ensures GroupContinues(plan, Order(plan, s)[i], after)
  {
    PassedContinues(plan, s, i);
  }

  ghost predicate Stopped(order: seq<seq<Name>>, before: Results, after: Results, k: nat, i: nat, n: Name) {
    && n in after && AtRest(after[n])
    && (i > k ==> after[n] == ActionResult(Skipped, DependencyFailed, "", 0))
    && (i <= k ==> n in before && after[n] == before[n])
  }

  lemma StopResults(plan: Plan, s: State, mid: State)
    requires ValidPlan(plan) && Inv(plan, s) && Enabled(plan, s, Join)
    requires s.errs && !AllContinue(plan, s, Order(plan, s)[s.k])
    requires mid == s.(results := SkipSet(s.results, LaterNames(Order(plan, s), s.k), DependencyFailed))
    ensures StageOver(plan, mid, true)
  {
    InvOther(plan, s);
    var order := Order(plan, s);
    assert Order(plan, mid) == order;
    EnabledJoin(plan, s);
    hide *;
    forall i, n | 0 <= i < |order| && n in order[i]
      ensures Stopped(order, s.results, mid.results, s.k, i, n)
      ensures mid.results[n].status == Cancelled ==> StageCancelled(s)
    {
      StopResult(plan, s, i, n);
    }
    StoppedAgree(order, s.results, mid.results, s.k);
    StopFails(plan, s, mid.results);
    forall i | 0 <= i < s.k ensures GroupContinues(plan, order[i], mid.results) {
      StopPassed(plan, s, mid.results, i);
    }
    StopOver(plan, order, mid, s.results, s.k);
  }

  lemma EnabledJoin(plan: Plan, s: State)
    requires Enabled(plan, s, Join)
    ensures s.active
  {
  }

  lemma StoppedAgree(order: seq<seq<Name>>, before: Results, after: Results, k: nat)
    requires forall i, n | 0 <= i < |order| && n in order[i] :: Stopped(order, before, after, k, i, n)
    ensures forall i, n | 0 <= i <= k && i < |order| && n in order[i] ::
              n in before && n in after && after[n] == before[n]
  {
  }

  lemma StopOver(plan: Plan, order: seq<seq<Name>>, s: State, before: Results, k: nat)
    requires order == Order(plan, s) && k < |order|
    requires forall i, n | 0 <= i < |order| && n in order[i] ::
               && Stopped(order, before, s.results, k, i, n)
               && (s.results[n].status == Cancelled ==> StageCancelled(s))
    requires !GroupContinues(plan, order[k], s.results)
    requires forall i | 0 <= i < k :: GroupContinues(plan, order[i], s.results)
    ensures StageOver(plan, s, true)
  {
    hide GroupContinues, AtRest, Order;
    forall i, n | k < i < |order| && n in order[i]
      ensures n in s.results && s.results[n] == ActionResult(Skipped, DependencyFailed, "", 0)
    {
      assert Stopped(order, before, s.results, k, i, n);
    }
    assert StoppedAt(plan, order, s.results, k);
    forall i, n | 0 <= i < |order| && n in order[i]
      ensures n in s.results && AtRest(s.results[n]) && (s.results[n].status == Cancelled ==> StageCancelled(s))
    {
      assert Stopped(order, before, s.results, k, i, n);
    }
    forall n | n in s.results && InOrder(order, n) ensures AtRest(s.results[n]) {
      var i :| 0 <= i < |order| && n in order[i];
      assert Stopped(order, before, s.results, k, i, n);
    }
  }

  lemma JoinedOrBefore(plan: Plan, s: State, i: nat, n: Name)
    requires ValidPlan(plan) && Inv(plan, s) && Enabled(plan, s, Join)
    requires i < |Order(plan, s)| && n in Order(plan, s)[i] && i <= s.k
    ensures n in s.results && AtRest(s.results[n])
    ensures s.results[n].status == Cancelled ==> StageCancelled(s)
  {
    assert NameInv(plan, s, i, n);
    if i == s.k { JoinedAtRest(plan, s, n); }
  }

  lemma StopResult(plan: Plan, s: State, i: nat, n: Name)
    requires ValidPlan(plan) && Inv(plan, s) && Enabled(plan, s, Join)
    requires i < |Order(plan, s)| && n in Order(plan, s)[i]
    ensures var after := SkipSet(s.results, LaterNames(Order(plan, s), s.k), DependencyFailed);
      && Stopped(Order(plan, s), s.results, after, s.k, i, n)
      && (after[n].status == Cancelled ==> StageCancelled(s))
  {
    EnabledJoin(plan, s);
    LaterNew(plan, s);
    hide Inv, ValidPlan, Enabled, Order, SkipSet;
    var later := LaterNames(Order(plan, s), s.k);
    SkipSetAt(s.results, later, DependencyFailed, n);
    assert i > s.k ==> n in later;
    hide *;
    if i <= s.k {
      JoinedOrBefore(plan, s, i, n);
    }
    StoppedFrom(plan, s, later, i, n);
  }

  lemma StoppedFrom(plan: Plan, s: State, later: set<Name>, i: nat, n: Name)
    requires (i > s.k ==> n in later) && forall x | x in later :: x !in s.results
    requires i <= s.k ==>
               && n in s.results && AtRest(s.results[n])
               && (s.results[n].status == Cancelled ==> StageCancelled(s))
    ensures Stopped(Order(plan, s), s.results, SkipSet(s.results, later, DependencyFailed), s.k, i, n)
    ensures SkipSet(s.results, later, DependencyFailed)[n].status == Cancelled ==> StageCancelled(s)
  {
    hide StageCancelled, Order;
  }

  lemma SkipSetAt(m: Results, names: set<Name>, reason: SkipReason, n: Name)
    ensures n in SkipSet(m, names, reason) <==> n in m || n in names
    ensures n in names ==> SkipSet(m, names, reason)[n] == ActionResult(Skipped, reason, "", 0)
    ensures n in m && n !in names ==> SkipSet(m, names, reason)[n] == m[n]
  {
  }

  lemma EnterStep(plan: Plan, s: State)
    requires ValidPlan(plan) && Inv(plan, s) && Enabled(plan, s, Enter)
    ensures Inv(plan, Next(plan, s, Enter))
  {
    hide ValidPlan, Inv, LeaveStage, AllCancelled;
    if s.k >= |Order(plan, s)| {
      AllGroupsPassed(plan, s);
      InvOther(plan, s);
      LeaveInv(plan, s, false);
    } else if StageCancelled(s) {
      EnterCancelled(plan, s);
    } else {
      EnterSpawn(plan, s);
    }
  }

  lemma InvOther(plan: Plan, s: State)
    requires Inv(plan, s)
    ensures OtherInv(plan, s)
    ensures s.active ==> s.k < |Order(plan, s)|
  {
  }

  lemma JoinStep(plan: Plan, s: State)
    requires ValidPlan(plan) && Inv(plan, s) && Enabled(plan, s, Join)
    ensures Inv(plan, Next(plan, s, Join))
  {
    InvOther(plan, s);
    EnabledJoin(plan, s);
    JoinIs(plan, s);
    hide *;
    if !s.errs || AllContinue(plan, s, Order(plan, s)[s.k]) {
      JoinOn(plan, s);
    } else {
      JoinStop(plan, s);
    }
  }

  lemma JoinIs(plan: Plan, s: State)
    requires Enabled(plan, s, Join)
    ensures Next(plan, s, Join) == JoinGroup(plan, s)
    ensures s.k < |Order(plan, s)| && (!s.errs || AllContinue(plan, s, Order(plan, s)[s.k])) ==>
              JoinGroup(plan, s) == NextGroup(s)
  {
    hide NextGroup, LeaveStage, AllContinue, Order, SkipSet, LaterNames;
  }

  lemma StepInv(plan: Plan, s: State, e: Event)
    requires ValidPlan(plan) && Inv(plan, s) && Enabled(plan, s, e)
    ensures Inv(plan, Next(plan, s, e))
  {
    hide *;
    match e {
      case Cancel => CancelStep(plan, s);
      case Enter => EnterStep(plan, s);
      case Join => JoinStep(plan, s);
      case _ => OneMoves(e); MoveStep(plan, s, e);
    }
  }

  lemma OneMoves(e: Event)
    ensures MovesOne(e) <==> !e.Cancel? && !e.Enter? && !e.Join?
  {
  }

  // In every run, after every event.
  lemma {:induction false} RunInv(plan: Plan, es: seq<Event>)
    requires ValidPlan(plan) && ValidRun(plan, es)
    ensures Inv(plan, After(plan, es))
    decreases |es|
  {
    if es == [] {
      InitInv(plan);
    } else {
      var init := es[..|es| - 1];
      RunInv(plan, init);
      StepInv(plan, After(plan, init), es[|es| - 1]);
    }
  }
}
