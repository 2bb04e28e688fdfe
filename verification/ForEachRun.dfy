/** Running the iterations of a forEach (foreach.go: Execute and
    executeIteration), as a state machine over the atomic steps of the spawning
    loop and of its goroutines. */
module ForEachRun {
  import opened Base
  import opened Names
  import opened ActionContext

  datatype Iteration = Iteration(index: nat, name: string, status: Status, error: string)

  // concurrency: the configured limit; stopOnError: onError is "fail".
  datatype Job = Job(actionName: string, total: nat, concurrency: int, stopOnError: bool)

  // How a context ended, if it did.
  datatype Ending = Live | Canceled | DeadlineExceeded

  // Where iteration i's goroutine is. Finished: executeIteration has returned;
  // Written: its result is stored; Aborting: its error was sent and cancel() is
  // next; Leaving: only the release of the semaphore is left.
  datatype Pc = Unborn | Waiting | Executing | Finished(r: Iteration) | Written(r: Iteration)
              | Aborting | Leaving | Gone

  // next: the spawning loop's index; checked: it is past its look at the
  // context. parent: how the caller's context ended; sent: errors sent.
  datatype State = State(next: nat, checked: bool, pc: seq<Pc>, results: seq<Option<Iteration>>,
                         parent: Ending, ctx: Ending, sent: nat)

  datatype Event = ParentEnds(how: Ending) | Check | Spawn | Acquire(i: nat) | GiveUp(i: nat)
                 | Finish(i: nat, error: Option<string>) | Write(i: nat) | Signal(i: nat)
                 | Abort(i: nat) | Release(i: nat)

  function Init(job: Job): State {
    State(0, false, seq(job.total, _ => Unborn), seq(job.total, _ => None), Live, Live, 0)
  }

  function Capacity(job: Job): nat {
    if job.concurrency <= 0 || job.concurrency > job.total then job.total else job.concurrency
  }

  predicate Holds(pc: Pc) {
    pc.Executing? || pc.Finished? || pc.Written? || pc.Aborting? || pc.Leaving?
  }

  ghost function Holders(pc: seq<Pc>): set<nat> {
    set i: nat | i < |pc| && Holds(pc[i])
  }

  function CancelledResult(job: Job, i: nat): Iteration {
    Iteration(i, CreateIterationName(job.actionName, i), Cancelled, "")
  }

  // executeIteration, with the provider's outcome given. The context's end
  // takes precedence over it.
  function Outcome(job: Job, i: nat, ctx: Ending, error: Option<string>): Iteration {
    var name := CreateIterationName(job.actionName, i);
    match ctx
    case DeadlineExceeded => Iteration(i, name, Timeout, "iteration timed out")
    case Canceled => Iteration(i, name, Cancelled, "")
    case Live =>
      match error
      case Some(text) => Iteration(i, name, Failed, text)
      case None => Iteration(i, name, Succeeded, "")
  }

  predicate At(s: State, i: nat, pc: Pc) {
    i < |s.pc| && s.pc[i] == pc
  }

  ghost predicate Enabled(job: Job, s: State, e: Event) {
    match e
    case ParentEnds(how) => s.parent == Live && how != Live
    case Check => s.next < job.total && !s.checked
    case Spawn => s.next < job.total && s.checked
    case Acquire(i) => At(s, i, Waiting) && |Holders(s.pc)| < Capacity(job)
    case GiveUp(i) => At(s, i, Waiting) && s.ctx != Live
    case Finish(i, _) => At(s, i, Executing)
    case Write(i) => i < |s.pc| && s.pc[i].Finished?
    case Signal(i) => i < |s.pc| && s.pc[i].Written?
    case Abort(i) => At(s, i, Aborting)
    case Release(i) => At(s, i, Leaving)
  }

  function Move(s: State, i: nat, pc: Pc): State
    requires i < |s.pc|
  {
    s.(pc := s.pc[i := pc])
  }

  // Every iteration from i on gets a cancelled result, spawned or not.
  ghost function MarkFrom(job: Job, results: seq<Option<Iteration>>, i: nat): seq<Option<Iteration>> {
    seq(|results|, j requires 0 <= j < |results| => if j >= i then Some(CancelledResult(job, j)) else results[j])
  }

  ghost predicate Shape(job: Job, s: State) {
    |s.pc| == job.total && |s.results| == job.total && s.next <= job.total && (s.checked ==> s.next < job.total)
  }

  ghost function Next(job: Job, s: State, e: Event): State
    requires Shape(job, s) && Enabled(job, s, e)
  {
    match e
    case ParentEnds(how) => s.(parent := how, ctx := if s.ctx == Live then how else s.ctx)
    case Check =>
      s.(checked := true, results := if s.ctx != Live then MarkFrom(job, s.results, s.next) else s.results)
    case Spawn => Move(s, s.next, Waiting).(next := s.next + 1, checked := false)
    case Acquire(i) => Move(s, i, Executing)
    case GiveUp(i) => Move(s, i, Gone).(results := s.results[i := Some(CancelledResult(job, i))])
    case Finish(i, error) => Move(s, i, Finished(Outcome(job, i, s.ctx, error)))
    case Write(i) => Move(s, i, Written(s.pc[i].r)).(results := s.results[i := Some(s.pc[i].r)])
    case Signal(i) =>
      if Failing(s.pc[i].r.status) && job.stopOnError && s.sent == 0
      then Move(s, i, Aborting).(sent := 1)
      else Move(s, i, Leaving)
    case Abort(i) => Move(s, i, Leaving).(ctx := if s.ctx == Live then Canceled else s.ctx)
    case Release(i) => Move(s, i, Gone)
  }

  // ---------------------------------------------------------------------
  // The invariant

  ghost predicate WellFormed(job: Job, i: nat, r: Iteration) {
    && r.index == i && r.name == CreateIterationName(job.actionName, i)
    && r.status in {Succeeded, Failed, Timeout, Cancelled}
    && (r.status == Timeout ==> r.error != "") && (r.error != "" ==> Failing(r.status))
  }

  // Before the goroutine's own result is stored, only the loop's mark is.
  ghost predicate Unwritten(job: Job, s: State, i: nat)
    requires i < |s.results|
  {
    s.results[i].None? || (s.results[i] == Some(CancelledResult(job, i)) && s.ctx != Live)
  }

  ghost predicate Recorded(job: Job, s: State, i: nat)
    requires i < |s.results|
  {
    s.results[i].Some? && WellFormed(job, i, s.results[i].value)
  }

  // The error of a recorded failure was sent, or another one was.
  ghost predicate Reported(job: Job, s: State, i: nat)
    requires i < |s.results|
  {
    Recorded(job, s, i) && (Failing(s.results[i].value.status) && job.stopOnError ==> s.sent == 1)
  }

  ghost predicate PcInv(job: Job, s: State, i: nat)
    requires Shape(job, s) && i < job.total
  {
    match s.pc[i]
    case Unborn => i >= s.next && Unwritten(job, s, i)
    case Waiting => i < s.next && Unwritten(job, s, i)
    case Executing => i < s.next && Unwritten(job, s, i)
    case Finished(r) => i < s.next && Unwritten(job, s, i) && WellFormed(job, i, r)
    case Written(r) => i < s.next && s.results[i] == Some(r) && WellFormed(job, i, r)
    case Aborting => i < s.next && Reported(job, s, i) && s.sent == 1 && IsFailure(s, i)
    case Leaving => i < s.next && Reported(job, s, i)
    case Gone => i < s.next && Reported(job, s, i)
  }

  ghost predicate IsFailure(s: State, i: nat) {
    i < |s.results| && s.results[i].Some? && Failing(s.results[i].value.status)
  }

  ghost predicate IsSender(s: State, i: nat) {
    i < |s.pc| && (s.pc[i].Aborting? || s.pc[i].Leaving? || s.pc[i].Gone?) && IsFailure(s, i)
  }

  // Whoever sent the error has yet to cancel, or the context has ended.
  ghost predicate SendInv(job: Job, s: State) {
    && s.sent <= 1
    && (s.sent == 1 ==> job.stopOnError && exists i :: IsSender(s, i))
    && (s.sent == 1 && s.ctx == Live ==> exists i :: At(s, i, Aborting))
    && (s.ctx != Live ==> s.parent != Live || s.sent == 1)
    && (s.parent != Live ==> s.ctx != Live)
    && (s.ctx == DeadlineExceeded ==> s.parent == DeadlineExceeded)
  }

  ghost predicate Inv(job: Job, s: State) {
    && Shape(job, s)
    && (forall i: nat | i < job.total :: PcInv(job, s, i))
    && SendInv(job, s)
    && |Holders(s.pc)| <= Capacity(job)
  }

  lemma InitInv(job: Job)
    ensures Inv(job, Init(job))
  {
    assert Holders(Init(job).pc) == {};
  }

  lemma HoldersMove(pc: seq<Pc>, i: nat, p: Pc)
    requires i < |pc|
    ensures Holders(pc[i := p]) == if Holds(p) then Holders(pc) + {i} else Holders(pc) - {i}
  {
  }

  lemma NextShape(job: Job, s: State, e: Event)
    requires Inv(job, s) && Enabled(job, s, e)
    ensures Shape(job, Next(job, s, e))
    ensures s.next <= Next(job, s, e).next
    ensures e.Check? ==> Next(job, s, e).pc == s.pc
  {
  }

  lemma NextPc(job: Job, s: State, e: Event, i: nat)
    requires Inv(job, s) && Enabled(job, s, e) && Shape(job, Next(job, s, e)) && i < job.total
    ensures PcInv(job, Next(job, s, e), i)
  {
    assert PcInv(job, s, i);
    if Mover(s, e) == Some(i) {
      MovedPc(job, s, e, i);
    } else {
      OthersStay(job, s, e, i);
      NextOnward(job, s, e);
      hide Inv, Next, Enabled, PcInv, Shape;
      StayedPc(job, s, Next(job, s, e), i);
    }
  }

  // What an event never takes back.
  ghost predicate Onward(s: State, s': State) {
    && s.next <= s'.next && (s.ctx != Live ==> s'.ctx != Live)
    && (s.sent == 1 ==> s'.sent == 1)
  }

  lemma NextOnward(job: Job, s: State, e: Event)
    requires Inv(job, s) && Enabled(job, s, e)
    ensures Onward(s, Next(job, s, e))
    ensures forall i: nat | i < job.total && i >= s.next && Mover(s, e) != Some(i) :: i >= Next(job, s, e).next
    ensures e.Check? ==> Next(job, s, e).ctx == s.ctx
  {
    hide PcInv, Outcome, MarkFrom;
  }

  lemma StayedPc(job: Job, s: State, s': State, i: nat)
    requires Shape(job, s) && Shape(job, s') && i < job.total && PcInv(job, s, i) && Onward(s, s')
    requires s'.pc[i] == s.pc[i] && (i >= s.next ==> i >= s'.next)
    requires s'.results[i] == s.results[i]
             || (i >= s.next && s'.ctx != Live && s'.results[i] == Some(CancelledResult(job, i)))
    ensures PcInv(job, s', i)
  {
    hide WellFormed, CancelledResult;
  }

  lemma MovedPc(job: Job, s: State, e: Event, i: nat)
    requires Inv(job, s) && Enabled(job, s, e) && Shape(job, Next(job, s, e)) && i < job.total
    requires Mover(s, e) == Some(i)
    ensures PcInv(job, Next(job, s, e), i)
  {
    assert PcInv(job, s, i);
    OutcomeWellFormed(job, i, s.ctx);
    hide WellFormed, CancelledResult, Outcome, MarkFrom, Holders, Capacity;
  }

  lemma OutcomeWellFormed(job: Job, i: nat, ctx: Ending)
    ensures WellFormed(job, i, CancelledResult(job, i)) && CancelledResult(job, i).status == Cancelled
    ensures forall error :: WellFormed(job, i, Outcome(job, i, ctx, error))
  {
  }

  lemma NextSend(job: Job, s: State, e: Event)
    requires Inv(job, s) && Enabled(job, s, e)
    ensures SendInv(job, Next(job, s, e))
  {
    var s' := Next(job, s, e);
    if e.Signal? && s'.pc[e.i] == Aborting {
      assert PcInv(job, s, e.i);
      assert At(s', e.i, Aborting) && IsSender(s', e.i);
    }
    if e.Abort? { assert PcInv(job, s, e.i); }
    if s.sent == 1 {
      var i :| IsSender(s, i);
      SenderStays(job, s, e, i);
      if s.ctx == Live && !e.Abort? {
        var k :| At(s, k, Aborting);
        assert PcInv(job, s, k);
        OthersStay(job, s, e, k);
        assert At(s', k, Aborting);
      }
    }
  }

  // The goroutine an event is a step of; the loop's index at a Spawn.
  function Mover(s: State, e: Event): Option<nat> {
    match e
    case ParentEnds(_) => None
    case Check => None
    case Spawn => Some(s.next)
    case _ => Some(e.i)
  }

  lemma OthersStay(job: Job, s: State, e: Event, i: nat)
    requires Inv(job, s) && Enabled(job, s, e) && i < job.total && Mover(s, e) != Some(i)
    ensures Shape(job, Next(job, s, e)) && Next(job, s, e).pc[i] == s.pc[i]
    ensures Next(job, s, e).results[i]
            == if e.Check? && s.ctx != Live && i >= s.next then Some(CancelledResult(job, i)) else s.results[i]
  {
    hide PcInv, Outcome, CancelledResult, Holders, Capacity;
  }

  lemma SenderStays(job: Job, s: State, e: Event, i: nat)
    requires Inv(job, s) && Enabled(job, s, e) && IsSender(s, i)
    ensures IsSender(Next(job, s, e), i)
  {
    assert PcInv(job, s, i);
    if Mover(s, e) != Some(i) { OthersStay(job, s, e, i); }
  }

  lemma NextHolders(job: Job, s: State, e: Event)
    requires Inv(job, s) && Enabled(job, s, e)
    ensures |Holders(Next(job, s, e).pc)| <= Capacity(job)
  {
    MoveFrom(job, s, e);
    hide Inv, Next;
    var s' := Next(job, s, e);
    if Mover(s, e).Some? {
      var i := Mover(s, e).value;
      HoldersMove(s.pc, i, s'.pc[i]);
      if !e.Acquire? { SubsetCard(Holders(s'.pc), Holders(s.pc)); }
    }
  }

  // An event moves its goroutine on, one or more ranks down, and only an
  // acquisition makes it a holder.
  lemma MoveFrom(job: Job, s: State, e: Event)
    requires Inv(job, s) && Enabled(job, s, e)
    ensures |Holders(s.pc)| <= Capacity(job)
    ensures match Mover(s, e)
            case None => Next(job, s, e).pc == s.pc
            case Some(i) =>
              && i < |s.pc| && i < |Next(job, s, e).pc|
              && Next(job, s, e).pc == s.pc[i := Next(job, s, e).pc[i]]
              && Rank(Next(job, s, e).pc[i]) < Rank(s.pc[i])
              && (!e.Acquire? && Holds(Next(job, s, e).pc[i]) ==> Holds(s.pc[i]))
  {
    if e.Spawn? { assert PcInv(job, s, s.next); }
  }

  lemma NextInv(job: Job, s: State, e: Event)
    requires Inv(job, s) && Enabled(job, s, e)
    ensures Inv(job, Next(job, s, e))
  {
    NextShape(job, s, e);
    NextSend(job, s, e);
    NextHolders(job, s, e);
    forall i: nat | i < job.total ensures PcInv(job, Next(job, s, e), i) {
      NextPc(job, s, e, i);
    }
  }

  // ---------------------------------------------------------------------
  // Runs

  // s -> s' by the events es, each enabled where it happens.
  ghost predicate Leads(job: Job, s: State, es: seq<Event>, s': State)
    decreases |es|
  {
    if es == [] then s' == s
    else Shape(job, s) && Enabled(job, s, es[0]) && Leads(job, Next(job, s, es[0]), es[1..], s')
  }

  ghost predicate Reachable(job: Job, s: State) {
    exists es :: Leads(job, Init(job), es, s)
  }

  lemma {:induction false} LeadsInv(job: Job, s: State, es: seq<Event>, s': State)
    requires Inv(job, s) && Leads(job, s, es, s')
    ensures Inv(job, s')
    decreases |es|
  {
    if es != [] {
      NextInv(job, s, es[0]);
      LeadsInv(job, Next(job, s, es[0]), es[1..], s');
    }
  }

  // In every interleaving: the semaphore's bound, at most one abort error, and
  // no result that is not its iteration's own.
  lemma ReachableInv(job: Job, s: State)
    requires Reachable(job, s)
    ensures Inv(job, s)
    ensures |Holders(s.pc)| <= Capacity(job) && s.sent <= 1
    ensures forall i: nat | i < job.total && s.results[i].Some? :: WellFormed(job, i, s.results[i].value)
  {
    var es :| Leads(job, Init(job), es, s);
    InitInv(job);
    LeadsInv(job, Init(job), es, s);
    forall i: nat | i < job.total && s.results[i].Some? ensures WellFormed(job, i, s.results[i].value) {
      assert PcInv(job, s, i);
    }
  }

  // What a goroutine stored is never overwritten, by the loop or by another.
  ghost predicate Stored(s: State, i: nat) {
    i < |s.pc| && (s.pc[i].Written? || s.pc[i].Aborting? || s.pc[i].Leaving? || s.pc[i].Gone?)
  }

  lemma {:induction false} StoredStays(job: Job, s: State, es: seq<Event>, s': State, i: nat)
    requires Inv(job, s) && Leads(job, s, es, s') && Stored(s, i)
    ensures Inv(job, s') && Stored(s', i) && s'.results[i] == s.results[i]
    decreases |es|
  {
    if es != [] {
      NextInv(job, s, es[0]);
      StoredStep(job, s, es[0], i);
      hide Inv, Next, Enabled, Stored;
      StoredStays(job, Next(job, s, es[0]), es[1..], s', i);
    }
  }

  lemma StoredStep(job: Job, s: State, e: Event, i: nat)
    requires Inv(job, s) && Enabled(job, s, e) && Stored(s, i)
    ensures Inv(job, Next(job, s, e))
    ensures Stored(Next(job, s, e), i) && Next(job, s, e).results[i] == s.results[i]
  {
    NextInv(job, s, e);
    assert PcInv(job, s, i);
    if Mover(s, e) != Some(i) { OthersStay(job, s, e, i); }
  }

  // Once the context has ended, an iteration still without an outcome ends
  // cancelled or, under a deadline, timed out: it neither succeeds nor fails.
  ghost predicate EndsLate(s: State, i: nat)
    requires i < |s.pc| && i < |s.results|
  {
    match s.pc[i]
    case Unborn => true
    case Waiting => true
    case Executing => true
    case Finished(r) => Late(s, r)
    case _ => s.results[i].Some? && Late(s, s.results[i].value)
  }

  ghost predicate Late(s: State, r: Iteration) {
    r.status == Cancelled || (r.status == Timeout && s.ctx == DeadlineExceeded)
  }

  lemma {:induction false} LateIterations(job: Job, s: State, es: seq<Event>, s': State, i: nat)
    requires Inv(job, s) && Leads(job, s, es, s') && i < job.total && s.ctx != Live && EndsLate(s, i)
    ensures Inv(job, s') && s'.ctx == s.ctx && EndsLate(s', i)
    decreases |es|
  {
    if es != [] {
      NextInv(job, s, es[0]);
      LateStep(job, s, es[0], i);
      LateIterations(job, Next(job, s, es[0]), es[1..], s', i);
    }
  }

  lemma LateStep(job: Job, s: State, e: Event, i: nat)
    requires Inv(job, s) && Enabled(job, s, e) && i < job.total && s.ctx != Live && EndsLate(s, i)
    ensures Inv(job, Next(job, s, e))
    ensures Next(job, s, e).ctx == s.ctx && EndsLate(Next(job, s, e), i)
  {
    NextInv(job, s, e);
    hide PcInv, SendInv;
    if Mover(s, e) != Some(i) {
      OthersStay(job, s, e, i);
      if e.Check? && i >= s.next { UnspawnedUnborn(job, s, i); }
    }
  }

  lemma UnspawnedUnborn(job: Job, s: State, i: nat)
    requires Inv(job, s) && s.next <= i < job.total
    ensures s.pc[i] == Unborn
  {
    assert PcInv(job, s, i);
  }

  // ---------------------------------------------------------------------
  // One at a time

  ghost predicate HasFailed(s: State, i: nat) {
    i < |s.pc| && i < |s.results| &&
    match s.pc[i]
    case Finished(r) => r.status == Failed
    case _ => s.results[i].Some? && s.results[i].value.status == Failed
  }

  // A failure whose goroutine is past its own cancel() ended the context.
  ghost predicate SerialInv(s: State) {
    && (forall i: nat | HasFailed(s, i) && (s.pc[i].Leaving? || s.pc[i].Gone?) :: s.ctx != Live)
    && (forall i: nat, j: nat | HasFailed(s, i) && HasFailed(s, j) :: i == j)
  }

  lemma OneHolder(job: Job, s: State, i: nat, j: nat)
    requires Inv(job, s) && Capacity(job) == 1
    requires i < |s.pc| && j < |s.pc| && Holds(s.pc[i]) && Holds(s.pc[j])
    ensures i == j
  {
    SubsetCard({i, j}, Holders(s.pc));
  }

  // The only holder fails only if nobody failed before it.
  lemma FailsFirst(job: Job, s: State, i: nat, j: nat)
    requires Inv(job, s) && SerialInv(s) && Capacity(job) == 1
    requires At(s, i, Executing) && s.ctx == Live && HasFailed(s, j)
    ensures i == j
  {
    assert PcInv(job, s, j);
    if Holds(s.pc[j]) { OneHolder(job, s, i, j); }
  }

  lemma FailedBefore(job: Job, s: State, e: Event, i: nat)
    requires Inv(job, s) && Enabled(job, s, e) && HasFailed(Next(job, s, e), i)
    ensures HasFailed(s, i) || (e.Finish? && e.i == i && s.ctx == Live)
  {
    assert PcInv(job, s, i);
    if Mover(s, e) != Some(i) {
      OthersStay(job, s, e, i);
      hide Inv, Next, Enabled, PcInv, Shape;
    } else {
      hide Holders, Capacity, CancelledResult, WellFormed;
    }
  }

  // A failure leaves only after some cancel().
  lemma LeavesAfterAbort(job: Job, s: State, e: Event, i: nat)
    requires Inv(job, s) && Enabled(job, s, e) && SerialInv(s) && Capacity(job) == 1 && job.stopOnError
    requires HasFailed(s, i) && Shape(job, Next(job, s, e))
    requires Next(job, s, e).pc[i].Leaving? || Next(job, s, e).pc[i].Gone?
    ensures Next(job, s, e).ctx != Live
  {
    assert PcInv(job, s, i);
    if Mover(s, e) != Some(i) {
      OthersStay(job, s, e, i);
    } else if e.Signal? && s.ctx == Live {
      var k :| At(s, k, Aborting);
      OneHolder(job, s, k, i);
    }
  }

  lemma SerialStep(job: Job, s: State, e: Event)
    requires Inv(job, s) && Enabled(job, s, e) && SerialInv(s)
    requires Capacity(job) == 1 && job.stopOnError
    ensures SerialInv(Next(job, s, e))
  {
    var s' := Next(job, s, e);
    NextShape(job, s, e);
    FinishShape(job, s, e);
    hide Inv, Next, Capacity, HasFailed;
    forall i: nat | HasFailed(s', i) && (s'.pc[i].Leaving? || s'.pc[i].Gone?) ensures s'.ctx != Live {
      FailedBefore(job, s, e, i);
      if HasFailed(s, i) { LeavesAfterAbort(job, s, e, i); }
    }
    forall i: nat, j: nat | HasFailed(s', i) && HasFailed(s', j) ensures i == j {
      FailedBefore(job, s, e, i);
      FailedBefore(job, s, e, j);
      if e.Finish? && s.ctx == Live {
        if HasFailed(s, i) { FailsFirst(job, s, e.i, i); }
        if HasFailed(s, j) { FailsFirst(job, s, e.i, j); }
      }
    }
  }

  lemma FinishShape(job: Job, s: State, e: Event)
    requires Inv(job, s) && Enabled(job, s, e)
    ensures e.Finish? ==> e.i < |s.pc| && At(s, e.i, Executing) && Next(job, s, e).pc[e.i].Finished?
    ensures forall i: nat | HasFailed(Next(job, s, e), i) :: i < |Next(job, s, e).pc|
  {
  }

  lemma {:induction false} SerialLeads(job: Job, s: State, es: seq<Event>, s': State)
    requires Inv(job, s) && Leads(job, s, es, s') && SerialInv(s)
    requires Capacity(job) == 1 && job.stopOnError
    ensures SerialInv(s')
    decreases |es|
  {
    if es != [] {
      NextInv(job, s, es[0]);
      SerialStep(job, s, es[0]);
      SerialLeads(job, Next(job, s, es[0]), es[1..], s');
    }
  }

  // With one iteration at a time and onError "fail", at most one fails.
  lemma SerialFailsOnce(job: Job, s: State, i: nat, j: nat)
    requires Reachable(job, s) && Capacity(job) == 1 && job.stopOnError
    requires HasFailed(s, i) && HasFailed(s, j)
    ensures i == j
  {
    var es :| Leads(job, Init(job), es, s);
    InitInv(job);
    SerialLeads(job, Init(job), es, s);
  }

  // ---------------------------------------------------------------------
  // The end of a run

  // The loop is over and wg.Wait returned.
  ghost predicate Over(job: Job, s: State) {
    s.next == job.total && forall i: nat | i < |s.pc| :: s.pc[i] == Gone
  }

  // Every index holds one terminal result carrying that index, and the context
  // ended exactly if the caller's did or a failure aborted the run.
  lemma OverResults(job: Job, s: State)
    requires Reachable(job, s) && Over(job, s)
    ensures |s.results| == job.total
    ensures forall i: nat | i < job.total :: Recorded(job, s, i)
    ensures s.ctx != Live <==> s.parent != Live || (job.stopOnError && exists i: nat :: IsFailure(s, i))
  {
    ReachableInv(job, s);
    forall i: nat | i < job.total ensures Recorded(job, s, i) {
      assert PcInv(job, s, i);
    }
    if job.stopOnError && exists i: nat :: IsFailure(s, i) {
      var i: nat :| IsFailure(s, i);
      assert PcInv(job, s, i);
      assert forall k :: !At(s, k, Aborting);
    }
    if s.ctx != Live && s.parent == Live {
      var i :| IsSender(s, i);
      assert IsFailure(s, i);
    }
  }

  // Until then some event of the run itself is enabled: nobody waits for ever.
  lemma Progress(job: Job, s: State)
    requires Reachable(job, s) && !Over(job, s)
    ensures exists e: Event :: !e.ParentEnds? && Enabled(job, s, e)
  {
    ReachableInv(job, s);
    if s.next < job.total {
      assert Enabled(job, s, if s.checked then Spawn else Check);
    } else {
      var i: nat :| i < |s.pc| && s.pc[i] != Gone;
      assert PcInv(job, s, i);
      if exists k: nat :: k < |s.pc| && Holds(s.pc[k]) {
        var k: nat :| k < |s.pc| && Holds(s.pc[k]);
        HolderMoves(job, s, k);
      } else {
        assert Holders(s.pc) == {};
        assert Enabled(job, s, Acquire(i));
      }
    }
  }

  lemma HolderMoves(job: Job, s: State, k: nat)
    requires k < |s.pc| && Holds(s.pc[k])
    ensures exists e: Event :: !e.ParentEnds? && Enabled(job, s, e)
  {
    var e := match s.pc[k]
      case Executing => Finish(k, None)
      case Finished(_) => Write(k)
      case Written(_) => Signal(k)
      case Aborting => Abort(k)
      case _ => Release(k);
    assert Enabled(job, s, e);
  }

  function Rank(pc: Pc): nat {
    match pc
    case Unborn => 7
    case Waiting => 6
    case Executing => 5
    case Finished(_) => 4
    case Written(_) => 3
    case Aborting => 2
    case Leaving => 1
    case Gone => 0
  }

  ghost function Ranks(pc: seq<Pc>): nat {
    if pc == [] then 0 else Rank(pc[0]) + Ranks(pc[1..])
  }

  ghost function Left(job: Job, s: State): int {
    Ranks(s.pc) + 2 * (job.total - s.next) - (if s.checked then 1 else 0) + (if s.parent == Live then 1 else 0)
  }

  lemma {:induction false} RanksMove(pc: seq<Pc>, i: nat, p: Pc)
    requires i < |pc|
    ensures Ranks(pc[i := p]) == Ranks(pc) - Rank(pc[i]) + Rank(p)
  {
    if i == 0 {
      assert pc[0 := p][1..] == pc[1..];
    } else {
      RanksMove(pc[1..], i - 1, p);
      assert pc[i := p][1..] == pc[1..][i - 1 := p];
    }
  }

  // Every event uses up some of a bounded amount of work: a run ends.
  lemma EveryEventCounts(job: Job, s: State, e: Event)
    requires Inv(job, s) && Enabled(job, s, e)
    ensures 0 <= Left(job, Next(job, s, e)) < Left(job, s)
  {
    MoveFrom(job, s, e);
    NextLoop(job, s, e);
    hide Next, Inv, Ranks;
    if Mover(s, e).Some? {
      RanksMove(s.pc, Mover(s, e).value, Next(job, s, e).pc[Mover(s, e).value]);
    }
  }

  lemma NextLoop(job: Job, s: State, e: Event)
    requires Inv(job, s) && Enabled(job, s, e)
    ensures var s' := Next(job, s, e);
      && s.next <= job.total && (s.checked ==> s.next < job.total)
      && s'.next <= job.total && (s'.checked ==> s'.next < job.total)
      && s'.next == s.next + (if e.Spawn? then 1 else 0)
      && s'.checked == (e.Check? || (s.checked && !e.Spawn?))
      && (s'.parent == Live <==> s.parent == Live && !e.ParentEnds?)
    ensures e.Check? ==> !s.checked
    ensures e.Spawn? ==> s.checked
    ensures e.ParentEnds? ==> s.parent == Live
  {
  }

  // ---------------------------------------------------------------------
  // The statistics

  datatype Summary = Summary(successCount: nat, failureCount: nat, allSucceeded: bool,
                             firstError: Option<string>, error: Option<string>)

  ghost function WithStatus(results: seq<Iteration>, statuses: set<Status>): set<nat> {
    set i: nat | i < |results| && results[i].status in statuses
  }

  lemma WithStatusOneMore(seen: seq<Iteration>, r: Iteration, statuses: set<Status>)
    ensures |WithStatus(seen + [r], statuses)|
            == |WithStatus(seen, statuses)| + (if r.status in statuses then 1 else 0)
  {
    assert forall i | 0 <= i < |seen| :: (seen + [r])[i] == seen[i];
    assert WithStatus(seen + [r], statuses)
        == WithStatus(seen, statuses) + (if r.status in statuses then {|seen|} else {});
  }

  // What the loop knows of the results it has seen.
  ghost predicate Tallied(seen: seq<Iteration>, success: nat, failure: nat, firstError: Option<string>) {
    && success == |WithStatus(seen, {Succeeded})|
    && failure == |WithStatus(seen, {Failed, Timeout})|
    && (failure == 0 <==> NoFailure(seen))
    && (firstError.None? <==> NoErrorText(seen))
    && (firstError.Some? ==> FirstErrorIs(seen, firstError.value))
  }

  ghost predicate FirstErrorIs(seen: seq<Iteration>, text: string) {
    exists i: nat :: IsFirstError(seen, i) && text == "iteration " + Itoa(seen[i].index) + ": " + seen[i].error
  }

  ghost predicate NoFailure(seen: seq<Iteration>) {
    forall r | r in seen :: !Failing(r.status)
  }

  ghost predicate NoErrorText(seen: seq<Iteration>) {
    forall r | r in seen && Failing(r.status) :: r.error == ""
  }

  lemma QuietOneMore(seen: seq<Iteration>, r: Iteration)
    ensures NoFailure(seen + [r]) <==> NoFailure(seen) && !Failing(r.status)
    ensures NoErrorText(seen + [r]) <==> NoErrorText(seen) && (Failing(r.status) ==> r.error == "")
  {
    assert forall x :: x in seen + [r] <==> x in seen || x == r;
  }

  lemma TallyOneMore(results: seq<Iteration>, k: nat, success: nat, failure: nat, firstError: Option<string>)
    requires k < |results| && Tallied(results[..k], success, failure, firstError)
    ensures var r := results[k];
      Tallied(results[..k + 1], success + (if r.status == Succeeded then 1 else 0),
              failure + (if Failing(r.status) then 1 else 0),
              if firstError == None && Failing(r.status) && r.error != "" then Some(ErrorText(r)) else firstError)
  {
    var seen, r := results[..k], results[k];
    assert results[..k + 1] == seen + [r];
    WithStatusOneMore(seen, r, {Succeeded});
    WithStatusOneMore(seen, r, {Failed, Timeout});
    FirstErrorOneMore(seen, r, firstError);
    assert r.status in {Failed, Timeout} <==> Failing(r.status);
    QuietOneMore(seen, r);
    hide WithStatus, ErrorText, NoFailure, NoErrorText, FirstErrorIs, Failing;
  }

  lemma FirstErrorOneMore(seen: seq<Iteration>, r: Iteration, firstError: Option<string>)
    requires firstError.None? ==> NoErrorText(seen)
    requires firstError.Some? ==> FirstErrorIs(seen, firstError.value)
    ensures firstError.Some? ==> FirstErrorIs(seen + [r], firstError.value)
    ensures firstError.None? && Failing(r.status) && r.error != "" ==> FirstErrorIs(seen + [r], ErrorText(r))
  {
    hide Failing;
    var more := seen + [r];
    if firstError.Some? {
      var i: nat :| IsFirstError(seen, i) && firstError.value == ErrorText(seen[i]);
      assert IsFirstError(more, i) && more[i] == seen[i];
    } else if Failing(r.status) && r.error != "" {
      forall j | 0 <= j < |seen| ensures !Failing(more[j].status) || more[j].error == "" {
        assert more[j] == seen[j] && seen[j] in seen;
      }
      assert IsFirstError(more, |seen|) && more[|seen|] == r;
    }
  }

  // The counts over final results; the error returned beside them.
  method Summarise(results: seq<Iteration>, stopOnError: bool) returns (summary: Summary)
    ensures Tallied(results, summary.successCount, summary.failureCount, summary.firstError)
    ensures summary.allSucceeded <==> NoFailure(results)
    ensures summary.error == if stopOnError then summary.firstError else None
  {
    var success, failure, firstError := 0, 0, None;
    NothingTallied(results);
    hide Tallied, NoFailure;
    for k := 0 to |results|
      invariant Tallied(results[..k], success, failure, firstError)
    {
      TallyOneMore(results, k, success, failure, firstError);
      var r := results[k];
      match r.status {
        case Succeeded => success := success + 1;
        case Failed | Timeout =>
          failure := failure + 1;
          if firstError == None && r.error != "" {
            firstError := Some(ErrorText(r));
          }
        case _ =>
      }
    }
    assert results[..|results|] == results;
    NoFailureNoError(results, success, failure, firstError);
    summary := Summary(success, failure, failure == 0, firstError,
                       if failure != 0 && stopOnError then firstError else None);
  }

  lemma NothingTallied(results: seq<Iteration>)
    ensures Tallied(results[..0], 0, 0, None)
  {
    assert WithStatus(results[..0], {Succeeded}) == {} && WithStatus(results[..0], {Failed, Timeout}) == {};
  }

  lemma NoFailureNoError(seen: seq<Iteration>, success: nat, failure: nat, firstError: Option<string>)
    requires Tallied(seen, success, failure, firstError)
    ensures failure == 0 ==> firstError.None?
    ensures failure == 0 <==> NoFailure(seen)
  {
  }

  function ErrorText(r: Iteration): string {
    "iteration " + Itoa(r.index) + ": " + r.error
  }

  // The earliest failure by index that has an error text.
  ghost predicate IsFirstError(results: seq<Iteration>, i: nat) {
    && i < |results| && Failing(results[i].status) && results[i].error != ""
    && forall j | 0 <= j < i :: !Failing(results[j].status) || results[j].error == ""
  }

  ghost function Values(results: seq<Option<Iteration>>): seq<Iteration>
    requires forall i | 0 <= i < |results| :: results[i].Some?
  {
    seq(|results|, i requires 0 <= i < |results| => results[i].value)
  }

  // Succeeded, failed and cancelled iterations add up to the total.
  lemma CountsAddUp(job: Job, s: State)
    requires Reachable(job, s) && Over(job, s)
    ensures forall i | 0 <= i < |s.results| :: s.results[i].Some?
    ensures var rs := Values(s.results);
      |WithStatus(rs, {Succeeded})| + |WithStatus(rs, {Failed, Timeout})| + |WithStatus(rs, {Cancelled})| == job.total
  {
    OverResults(job, s);
    hide Reachable, Over;
    forall i | 0 <= i < |s.results| ensures s.results[i].Some? { assert Recorded(job, s, i); }
    var rs := Values(s.results);
    forall r | r in rs ensures r.status in {Succeeded, Failed, Timeout, Cancelled} {
      var i :| 0 <= i < |rs| && rs[i] == r;
      assert Recorded(job, s, i);
    }
    ThreeClasses(rs);
  }

  lemma ThreeClasses(rs: seq<Iteration>)
    requires forall r | r in rs :: r.status in {Succeeded, Failed, Timeout, Cancelled}
    ensures |WithStatus(rs, {Succeeded})| + |WithStatus(rs, {Failed, Timeout})| + |WithStatus(rs, {Cancelled})| == |rs|
  {
    var a, b, c := WithStatus(rs, {Succeeded}), WithStatus(rs, {Failed, Timeout}), WithStatus(rs, {Cancelled});
    IndicesCard(|rs|);
    forall i: nat ensures i in a + b + c <==> i in Indices(|rs|) {
      if i < |rs| { assert rs[i] in rs; }
    }
    assert a + b + c == Indices(|rs|);
    assert a !! b && (a + b) !! c;
  }

  ghost function Indices(n: nat): set<nat> {
    if n == 0 then {} else Indices(n - 1) + {n - 1}
  }

  lemma {:induction false} IndicesCard(n: nat)
    ensures |Indices(n)| == n
    ensures forall i: nat :: i in Indices(n) <==> i < n
  {
    if n > 0 { IndicesCard(n - 1); }
  }
}
