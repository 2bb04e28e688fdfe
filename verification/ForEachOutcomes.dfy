/** Which event of a forEach run decides each iteration's result (foreach.go). */
module ForEachOutcomes {
  import opened Base
  import opened ActionContext
  import opened ForEachRun

  // i's goroutine executed and came back in context ctx, with that error or none.
  predicate Returned(e: Event, m: State, i: nat, error: Option<string>, ctx: Ending) {
    e == Finish(i, error) && m.ctx == ctx
  }

  // An event that decides iteration i.
  predicate Decides(e: Event, i: nat) {
    (e.Finish? && e.i == i) || e == GiveUp(i)
  }

  // What it decides, where it happens.
  predicate Decided(e: Event, m: State, i: nat, r: Iteration) {
    match e
    case Finish(j, error) =>
      j == i &&
      (match m.ctx
       case Live => if error.Some? then r.status == Failed && r.error == error.value
                    else r.status == Succeeded && r.error == ""
       case DeadlineExceeded => r.status == Timeout && r.error == "iteration timed out"
       case Canceled => r.status == Cancelled && r.error == "")
    case GiveUp(j) => j == i && r.status == Cancelled && r.error == ""
    case _ => false
  }

  // The state in which event k of a run happens.
  ghost predicate StateAt(job: Job, es: seq<Event>, k: nat, m: State) {
    k <= |es| && Leads(job, Init(job), es[..k], m)
  }

  // Event k decides i, and has decided r.
  ghost predicate DecidedAt(job: Job, es: seq<Event>, k: nat, i: nat, r: Iteration) {
    k < |es| && exists m :: StateAt(job, es, k, m) && Decided(es[k], m, i, r)
  }

  // ---------------------------------------------------------------------
  // Runs, seen from their end

  lemma {:induction false} LastEvent(job: Job, s: State, es: seq<Event>, s': State) returns (m: State)
    requires Leads(job, s, es, s') && es != []
    ensures Leads(job, s, es[..|es| - 1], m) && Shape(job, m) && Enabled(job, m, es[|es| - 1])
    ensures s' == Next(job, m, es[|es| - 1])
    decreases |es|
  {
    if |es| == 1 {
      m := s;
      assert es[1..] == [] && es[..0] == [];
    } else {
      m := LastEvent(job, Next(job, s, es[0]), es[1..], s');
      var init := es[..|es| - 1];
      assert es[1..][..|es| - 2] == init[1..] && init[0] == es[0];
      assert es[1..][|es| - 2] == es[|es| - 1];
    }
  }

  lemma {:induction false} SameEnd(job: Job, s: State, es: seq<Event>, a: State, b: State)
    requires Leads(job, s, es, a) && Leads(job, s, es, b)
    ensures a == b
    decreases |es|
  {
    if es != [] { SameEnd(job, Next(job, s, es[0]), es[1..], a, b); }
  }

  // The caller's context ends, or an iteration's failure stops the run.
  predicate EndsContext(e: Event) {
    e.ParentEnds? || e.Abort?
  }

  ghost predicate FirstEnd(es: seq<Event>, k: nat) {
    k < |es| && EndsContext(es[k]) && forall j | 0 <= j < k :: !EndsContext(es[j])
  }

  // The iterations' context is live until the first such event, which decides for
  // good whether it is past its deadline or cancelled.
  lemma {:induction false} ContextExactly(job: Job, es: seq<Event>, s: State)
    requires Leads(job, Init(job), es, s)
    ensures s.ctx == Live <==> forall k | 0 <= k < |es| :: !EndsContext(es[k])
    ensures forall k: nat | FirstEnd(es, k) ::
              s.ctx == if es[k] == ParentEnds(DeadlineExceeded) then DeadlineExceeded else Canceled
    decreases |es|
  {
    if es == [] {
      assert s.ctx == Live && forall k: nat :: !FirstEnd(es, k);
    } else {
      hide *;
      var init, e := es[..|es| - 1], es[|es| - 1];
      var m := LastEvent(job, Init(job), es, s);
      ContextExactly(job, init, m);
      ContextStep(job, m, e);
      ContextSeen(init, e, m.ctx, s.ctx);
      assert es == init + [e];
    }
  }

  lemma ContextSeen(es: seq<Event>, e: Event, before: Ending, after: Ending)
    requires before == Live <==> forall k | 0 <= k < |es| :: !EndsContext(es[k])
    requires forall k: nat | FirstEnd(es, k) ::
               before == if es[k] == ParentEnds(DeadlineExceeded) then DeadlineExceeded else Canceled
    requires before != Live ==> after == before
    requires before == Live ==> after == if !EndsContext(e) then Live
                                         else if e == ParentEnds(DeadlineExceeded) then DeadlineExceeded else Canceled
    ensures var all := es + [e];
      && (after == Live <==> forall k | 0 <= k < |all| :: !EndsContext(all[k]))
      && forall k: nat | FirstEnd(all, k) ::
           after == if all[k] == ParentEnds(DeadlineExceeded) then DeadlineExceeded else Canceled
  {
    var all := es + [e];
    assert forall k | 0 <= k < |es| :: all[k] == es[k];
    assert all[|es|] == e;
    if before != Live {
      var j :| 0 <= j < |es| && EndsContext(es[j]);
      assert EndsContext(all[j]);
      forall k: nat | FirstEnd(all, k) ensures FirstEnd(es, k) {}
    }
  }

  lemma ContextStep(job: Job, s: State, e: Event)
    requires Shape(job, s) && Enabled(job, s, e)
    ensures s.ctx != Live ==> Next(job, s, e).ctx == s.ctx
    ensures s.ctx == Live ==>
              Next(job, s, e).ctx == if !EndsContext(e) then Live
                                     else if e == ParentEnds(DeadlineExceeded) then DeadlineExceeded else Canceled
  {
  }

  // ---------------------------------------------------------------------
  // One event

  // The result i's goroutine has, stored or not.
  ghost predicate Has(s: State, i: nat, r: Iteration) {
    i < |s.pc| && i < |s.results| &&
    match s.pc[i]
    case Unborn => false
    case Waiting => false
    case Executing => false
    case Finished(q) => q == r
    case Written(q) => q == r
    case _ => s.results[i] == Some(r)
  }

  predicate Undecided(s: State, i: nat) {
    i < |s.pc| && (s.pc[i] == Unborn || s.pc[i] == Waiting || s.pc[i] == Executing)
  }

  lemma DecidingEvent(job: Job, s: State, e: Event, i: nat)
    requires Inv(job, s) && Enabled(job, s, e) && Decides(e, i) && i < job.total
    ensures Undecided(s, i) && !Undecided(Next(job, s, e), i)
    ensures exists r :: Has(Next(job, s, e), i, r) && Decided(e, s, i, r)
  {
    hide PcInv, SendInv, Holders, Capacity, CancelledResult, Outcome;
    var s' := Next(job, s, e);
    if e.GiveUp? {
      CancelledIs(job, i);
      assert Has(s', i, CancelledResult(job, i));
    } else {
      OutcomeIs(job, i, s.ctx, e.error);
      assert Has(s', i, Outcome(job, i, s.ctx, e.error));
    }
  }

  lemma CancelledIs(job: Job, i: nat)
    ensures CancelledResult(job, i).status == Cancelled && CancelledResult(job, i).error == ""
  {
  }

  lemma OutcomeIs(job: Job, i: nat, ctx: Ending, error: Option<string>)
    ensures var r := Outcome(job, i, ctx, error);
      match ctx
      case Live => if error.Some? then r.status == Failed && r.error == error.value
                   else r.status == Succeeded && r.error == ""
      case DeadlineExceeded => r.status == Timeout && r.error == "iteration timed out"
      case Canceled => r.status == Cancelled && r.error == ""
  {
  }

  lemma OtherEvent(job: Job, s: State, e: Event, i: nat)
    requires Inv(job, s) && Enabled(job, s, e) && !Decides(e, i) && i < job.total
    ensures Undecided(Next(job, s, e), i) <==> Undecided(s, i)
    ensures forall r :: Has(s, i, r) ==> Has(Next(job, s, e), i, r)
  {
    assert PcInv(job, s, i);
    if Mover(s, e) != Some(i) {
      OthersStay(job, s, e, i);
      hide Next, Enabled, SendInv;
    } else {
      hide *;
      OwnEvent(job, s, e, i);
    }
  }

  lemma OwnEvent(job: Job, s: State, e: Event, i: nat)
    requires Inv(job, s) && Enabled(job, s, e) && !Decides(e, i) && i < job.total && Mover(s, e) == Some(i)
    ensures Undecided(Next(job, s, e), i) <==> Undecided(s, i)
    ensures forall r :: Has(s, i, r) ==> Has(Next(job, s, e), i, r)
  {
    assert PcInv(job, s, i);
    hide SendInv, Holders, Capacity, CancelledResult, Outcome, Unwritten, WellFormed, Recorded, Reported, IsFailure;
  }

  // ---------------------------------------------------------------------
  // Whole runs

  // Nothing has decided i yet; or every event that decided i decided r, which i
  // has, and there is one.
  ghost predicate Settled(job: Job, es: seq<Event>, s: State, i: nat) {
    if Undecided(s, i) then forall k | 0 <= k < |es| :: !Decides(es[k], i)
    else exists r :: SettledAs(job, es, s, i, r)
  }

  ghost predicate SettledAs(job: Job, es: seq<Event>, s: State, i: nat, r: Iteration) {
    && Has(s, i, r)
    && (forall k | 0 <= k < |es| && Decides(es[k], i) :: DecidedAt(job, es, k, i, r))
    && exists k :: 0 <= k < |es| && Decides(es[k], i)
  }

  lemma SameStateAt(job: Job, es: seq<Event>, e: Event, k: nat, i: nat, r: Iteration)
    requires k < |es|
    ensures DecidedAt(job, es + [e], k, i, r) <==> DecidedAt(job, es, k, i, r)
  {
    assert (es + [e])[..k] == es[..k] && (es + [e])[k] == es[k];
    hide Leads, Decided;
    forall m ensures StateAt(job, es + [e], k, m) <==> StateAt(job, es, k, m) {}
  }

  lemma {:induction false} RunSettled(job: Job, es: seq<Event>, s: State, i: nat)
    requires Leads(job, Init(job), es, s) && i < job.total
    ensures Inv(job, s) && Settled(job, es, s, i)
    decreases |es|
  {
    InitInv(job);
    LeadsInv(job, Init(job), es, s);
    if es == [] {
      assert Undecided(s, i);
      hide Leads, Inv;
    } else {
      var init, e := es[..|es| - 1], es[|es| - 1];
      var m := LastEvent(job, Init(job), es, s);
      RunSettled(job, init, m, i);
      assert es == init + [e];
      hide Leads, Inv, Enabled, Next, Shape;
      SettledNext(job, init, e, m, s, i);
    }
  }

  lemma SettledNext(job: Job, es: seq<Event>, e: Event, m: State, s: State, i: nat)
    requires Leads(job, Init(job), es, m) && Inv(job, m) && Enabled(job, m, e) && s == Next(job, m, e)
    requires i < job.total && Settled(job, es, m, i)
    ensures Settled(job, es + [e], s, i)
  {
    var all := es + [e];
    assert all[..|es|] == es;
    hide Leads, Inv, Enabled, Next, Decided;
    if Decides(e, i) {
      DecidingEvent(job, m, e, i);
      var r :| Has(s, i, r) && Decided(e, m, i, r);
      assert StateAt(job, all, |es|, m);
      assert DecidedAt(job, all, |es|, i, r);
      assert all[|es|] == e;
      assert SettledAs(job, all, s, i, r);
    } else {
      OtherEvent(job, m, e, i);
      if !Undecided(m, i) {
        var r :| SettledAs(job, es, m, i, r);
        StillSettled(job, es, e, m, s, i, r);
      }
    }
  }

  lemma StillSettled(job: Job, es: seq<Event>, e: Event, m: State, s: State, i: nat, r: Iteration)
    requires SettledAs(job, es, m, i, r) && !Decides(e, i) && Has(s, i, r)
    ensures SettledAs(job, es + [e], s, i, r)
  {
    var all := es + [e];
    hide DecidedAt, Has;
    forall k | 0 <= k < |all| && Decides(all[k], i) ensures DecidedAt(job, all, k, i, r) {
      assert all[k] == es[k];
      SameStateAt(job, es, e, k, i, r);
    }
    var k :| 0 <= k < |es| && Decides(es[k], i);
    assert all[k] == es[k];
  }

  // Some execution of i came back in that context, with that error or none.
  ghost predicate CameBack(job: Job, es: seq<Event>, i: nat, error: Option<string>, ctx: Ending) {
    exists k: nat, m :: StateAt(job, es, k, m) && k < |es| && Returned(es[k], m, i, error, ctx)
  }

  // When a run is over: an iteration has succeeded exactly if it was executed
  // without error while the context was live, failed with a text exactly if it
  // was executed with that error then, timed out exactly if it was executed until
  // after the deadline, and is cancelled exactly if it was executed until after a
  // cancellation or gave up waiting.
  lemma OutcomeExactly(job: Job, es: seq<Event>, s: State, i: nat)
    requires Leads(job, Init(job), es, s) && Over(job, s) && i < job.total
    ensures i < |s.results| && s.results[i].Some?
    ensures var r := s.results[i].value;
      && (r.status == Succeeded <==> CameBack(job, es, i, None, Live))
      && (forall text :: r.status == Failed && r.error == text <==> CameBack(job, es, i, Some(text), Live))
      && (r.status == Timeout <==> exists error :: CameBack(job, es, i, error, DeadlineExceeded))
      && (r.status == Cancelled <==> GiveUp(i) in es || exists error :: CameBack(job, es, i, error, Canceled))
  {
    RunSettled(job, es, s, i);
    hide Leads, Inv;
    var r :| SettledAs(job, es, s, i, r);
    assert s.results[i] == Some(r);
    hide Has, Over;
    forall error, ctx | CameBack(job, es, i, error, ctx) ensures Explains(error, ctx, r) {
      CameBackDecides(job, es, s, i, r, error, ctx);
    }
    if GiveUp(i) in es { GaveUpDecides(job, es, s, i, r); }
    var error, ctx := Explained(job, es, s, i, r);
    hide SettledAs, CameBack;
  }

  predicate Explains(error: Option<string>, ctx: Ending, r: Iteration) {
    match ctx
    case Live => if error.Some? then r.status == Failed && r.error == error.value else r.status == Succeeded
    case DeadlineExceeded => r.status == Timeout
    case Canceled => r.status == Cancelled
  }

  lemma CameBackDecides(job: Job, es: seq<Event>, s: State, i: nat, r: Iteration, error: Option<string>, ctx: Ending)
    requires SettledAs(job, es, s, i, r) && CameBack(job, es, i, error, ctx)
    ensures Explains(error, ctx, r)
  {
    var k: nat, m :| StateAt(job, es, k, m) && k < |es| && Returned(es[k], m, i, error, ctx);
    assert DecidedAt(job, es, k, i, r);
    var m' :| StateAt(job, es, k, m') && Decided(es[k], m', i, r);
    SameEnd(job, Init(job), es[..k], m, m');
    hide Leads, Has;
  }

  lemma GaveUpDecides(job: Job, es: seq<Event>, s: State, i: nat, r: Iteration)
    requires SettledAs(job, es, s, i, r) && GiveUp(i) in es
    ensures r.status == Cancelled
  {
    var k :| 0 <= k < |es| && es[k] == GiveUp(i);
    assert DecidedAt(job, es, k, i, r);
    hide Leads, Has;
  }

  lemma Explained(job: Job, es: seq<Event>, s: State, i: nat, r: Iteration) returns (error: Option<string>, ctx: Ending)
    requires SettledAs(job, es, s, i, r)
    ensures (CameBack(job, es, i, error, ctx) && Explains(error, ctx, r)) || (GiveUp(i) in es && r.status == Cancelled)
  {
    var k :| 0 <= k < |es| && Decides(es[k], i);
    assert DecidedAt(job, es, k, i, r);
    hide Leads, Has;
    var m :| StateAt(job, es, k, m) && Decided(es[k], m, i, r);
    error, ctx := None, Live;
    if es[k].Finish? {
      error, ctx := es[k].error, m.ctx;
      assert Returned(es[k], m, i, error, ctx);
      assert CameBack(job, es, i, error, ctx);
    }
  }

  // ---------------------------------------------------------------------
  // What the surroundings decide

  lemma {:induction false} LeadsOn(job: Job, s: State, es: seq<Event>, m: State, e: Event)
    requires Leads(job, s, es, m) && Shape(job, m) && Enabled(job, m, e)
    ensures Leads(job, s, es + [e], Next(job, m, e))
    decreases |es|
  {
    if es == [] {
      assert [] + [e] == [e] && [e][1..] == [];
    } else {
      LeadsOn(job, Next(job, s, es[0]), es[1..], m, e);
      assert (es + [e])[1..] == es[1..] + [e] && (es + [e])[0] == es[0];
    }
  }

  // The caller's context can end once, in either way, at any time; a goroutine
  // that waits can give up once the iterations' context has ended, whatever ended
  // it; one that executes can come back without error or with any.
  lemma AnythingMayHappen(job: Job, es: seq<Event>, s: State, i: nat, e: Event)
    requires Leads(job, Init(job), es, s)
    requires || (e.ParentEnds? && e.how != Live && s.parent == Live)
             || (e == GiveUp(i) && i < |s.pc| && s.pc[i] == Waiting && s.ctx != Live)
             || (e.Finish? && e.i == i && i < |s.pc| && s.pc[i] == Executing)
    ensures exists s' :: Leads(job, Init(job), es + [e], s')
  {
    InitInv(job);
    LeadsInv(job, Init(job), es, s);
    LeadsOn(job, Init(job), es, s, e);
  }

  // ---------------------------------------------------------------------
  // Concurrency

  // A waiting goroutine gets the semaphore exactly while fewer than the limit
  // hold it, and at any time if there is no limit.
  lemma AcquiresExactly(job: Job, s: State, i: nat)
    requires Reachable(job, s) && At(s, i, Waiting)
    ensures Enabled(job, s, Acquire(i)) <==> job.concurrency <= 0 || |Holders(s.pc)| < job.concurrency
  {
    ReachableInv(job, s);
    var all := Indices(|s.pc|);
    IndicesCard(|s.pc|);
    assert Holders(s.pc) <= all - {i};
    SubsetCard(Holders(s.pc), all - {i});
    hide Holders, Reachable;
  }
}
