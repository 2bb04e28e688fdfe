/** How often the fallback is called for a name, and what becomes of registered
    handlers, over whole runs (auth/registry.go). */
module HandlerCalls {
  import opened Base
  import opened HandlerRegistry

  // The state in which event i happens.
  ghost function Before(fallback: bool, es: seq<Event>, i: nat): State
    requires ValidRun(fallback, es) && i <= |es|
  {
    PrefixValid(fallback, es, i);
    After(fallback, es[..i])
  }

  lemma StepAt(fallback: bool, es: seq<Event>, i: nat)
    requires ValidRun(fallback, es) && i < |es|
    ensures Enabled(Before(fallback, es, i), es[i])
    ensures Before(fallback, es, i + 1) == Next(Before(fallback, es, i), es[i])
  {
    PrefixValid(fallback, es, i + 1);
    assert es[..i + 1][..i] == es[..i];
  }

  // ---------------------------------------------------------------------
  // Registered handlers

  lemma HandlerKept(s: State, e: Event, name: Name)
    requires Enabled(s, e) && name in s.handlers && e != Unregister(name)
    ensures name in Next(s, e).handlers
    ensures !(e.Disable? && e.name == name) ==> Next(s, e).handlers[name] == s.handlers[name]
  {
  }

  // A registered handler is never replaced, by a resolution or otherwise, in any
  // run that does not disable or unregister it.
  lemma {:induction false} NeverOverwrites(fallback: bool, es: seq<Event>, i: nat, j: nat, name: Name)
    requires ValidRun(fallback, es) && i <= j <= |es| && name in Before(fallback, es, i).handlers
    requires forall k | i <= k < j :: es[k] != Unregister(name) && !(es[k].Disable? && es[k].name == name)
    ensures name in Before(fallback, es, j).handlers
    ensures Before(fallback, es, j).handlers[name] == Before(fallback, es, i).handlers[name]
    decreases j - i
  {
    if i < j {
      NeverOverwrites(fallback, es, i, j - 1, name);
      StepAt(fallback, es, j - 1);
      HandlerKept(Before(fallback, es, j - 1), es[j - 1], name);
    }
  }

  lemma {:induction false} StaysRegistered(fallback: bool, es: seq<Event>, i: nat, j: nat, name: Name)
    requires ValidRun(fallback, es) && i <= j <= |es| && name in Before(fallback, es, i).handlers
    requires forall k | i <= k < j :: es[k] != Unregister(name)
    ensures name in Before(fallback, es, j).handlers
    decreases j - i
  {
    if i < j {
      StaysRegistered(fallback, es, i, j - 1, name);
      StepAt(fallback, es, j - 1);
      HandlerKept(Before(fallback, es, j - 1), es[j - 1], name);
    }
  }

  // ---------------------------------------------------------------------
  // Calls and their ends

  // Event i calls the fallback for name.
  ghost predicate Invokes(fallback: bool, es: seq<Event>, i: nat, name: Name)
    requires ValidRun(fallback, es)
  {
    i < |es| && InvokesNow(Before(fallback, es, i), es[i], name)
  }

  predicate InvokesNow(s: State, e: Event, name: Name) {
    e.LoadOrStore? && e.t in s.pc && s.pc[e.t] == Missed(name) && name !in s.resolving
  }

  // Event i ends a call for name: without a handler, or storing the one it got.
  ghost predicate Fails(fallback: bool, es: seq<Event>, i: nat, name: Name)
    requires ValidRun(fallback, es)
  {
    i < |es| && FailsNow(Before(fallback, es, i), es[i], name)
  }

  predicate FailsNow(s: State, e: Event, name: Name) {
    e.FallbackReturns? && e.result == None && e.t in s.pc && s.pc[e.t].Resolving? && s.pc[e.t].name == name
  }

  ghost predicate Stores(fallback: bool, es: seq<Event>, i: nat, name: Name)
    requires ValidRun(fallback, es)
  {
    i < |es| && StoresNow(Before(fallback, es, i), es[i], name)
  }

  predicate StoresNow(s: State, e: Event, name: Name) {
    e.StoreIfAbsent? && e.t in s.pc && s.pc[e.t].Got? && s.pc[e.t].name == name
  }

  // t's call for name is in flight, or its handler is not stored yet.
  predicate Unstored(s: State, t: Caller, name: Name) {
    t in s.pc && (s.pc[t].Resolving? || s.pc[t].Got?) && s.pc[t].name == name
  }

  lemma UnstoredNext(s: State, e: Event, t: Caller, name: Name)
    requires Enabled(s, e)
    ensures InvokesNow(s, e, name) && e.t == t ==> Unstored(Next(s, e), t, name)
    ensures Unstored(s, t, name) ==> Unstored(Next(s, e), t, name) || FailsNow(s, e, name) || StoresNow(s, e, name)
    ensures Unstored(Next(s, e), t, name) ==> Unstored(s, t, name) || (InvokesNow(s, e, name) && e.t == t)
  {
    if Mover(e) != Some(t) { OthersStay(s, e, t); }
  }

  lemma UnstoredStep(fallback: bool, es: seq<Event>, i: nat, t: Caller, name: Name)
    requires ValidRun(fallback, es) && i < |es|
    ensures Invokes(fallback, es, i, name) && es[i].t == t ==> Unstored(Before(fallback, es, i + 1), t, name)
    ensures Unstored(Before(fallback, es, i), t, name) ==>
              Unstored(Before(fallback, es, i + 1), t, name) || Fails(fallback, es, i, name)
              || Stores(fallback, es, i, name)
    ensures Unstored(Before(fallback, es, i + 1), t, name) ==>
              Unstored(Before(fallback, es, i), t, name) || (Invokes(fallback, es, i, name) && es[i].t == t)
  {
    StepAt(fallback, es, i);
    UnstoredNext(Before(fallback, es, i), es[i], t, name);
    hide Next, Before, Enabled, Unstored, FailsNow, StoresNow, InvokesNow;
  }

  // A call is still under way at j, or has ended before.
  lemma {:induction false} EndsBetween(fallback: bool, es: seq<Event>, i: nat, j: nat, name: Name) returns (k: nat)
    requires ValidRun(fallback, es) && Invokes(fallback, es, i, name) && i < j <= |es|
    requires !Unstored(Before(fallback, es, j), es[i].t, name)
    ensures i < k < j && (Fails(fallback, es, k, name) || Stores(fallback, es, k, name))
    decreases j
  {
    hide *;
    InvokesInRange(fallback, es, i, name);
    UnstoredStep(fallback, es, j - 1, es[i].t, name);
    if i < j - 1 && !Unstored(Before(fallback, es, j - 1), es[i].t, name) {
      k := EndsBetween(fallback, es, i, j - 1, name);
    } else {
      k := j - 1;
      NotItsOwnEnd(fallback, es, i, name);
    }
  }

  lemma InvokesInRange(fallback: bool, es: seq<Event>, i: nat, name: Name)
    requires ValidRun(fallback, es) && Invokes(fallback, es, i, name)
    ensures i < |es| && es[i].LoadOrStore?
  {
  }

  lemma NotItsOwnEnd(fallback: bool, es: seq<Event>, i: nat, name: Name)
    requires ValidRun(fallback, es) && Invokes(fallback, es, i, name)
    ensures !Fails(fallback, es, i, name) && !Stores(fallback, es, i, name)
  {
  }

  lemma UnstoredBlocks(fallback: bool, es: seq<Event>, j: nat, t: Caller, name: Name)
    requires ValidRun(fallback, es) && j <= |es| && Unstored(Before(fallback, es, j), t, name)
    ensures name in Before(fallback, es, j).resolving && !Invokes(fallback, es, j, name)
  {
    RunInv(fallback, es[..j]) by { PrefixValid(fallback, es, j); }
    assert CallerInv(Before(fallback, es, j), t);
  }

  // Whoever ends a call began it.
  lemma {:induction false} InvokedBefore(fallback: bool, es: seq<Event>, j: nat, t: Caller, name: Name) returns (i: nat)
    requires ValidRun(fallback, es) && j <= |es| && Unstored(Before(fallback, es, j), t, name)
    ensures i < j && Invokes(fallback, es, i, name)
    decreases j
  {
    NobodyAtFirst(fallback, es, t, name);
    hide *;
    UnstoredStep(fallback, es, j - 1, t, name);
    if Invokes(fallback, es, j - 1, name) {
      i := j - 1;
    } else {
      i := InvokedBefore(fallback, es, j - 1, t, name);
    }
  }

  lemma NobodyAtFirst(fallback: bool, es: seq<Event>, t: Caller, name: Name)
    requires ValidRun(fallback, es)
    ensures !Unstored(Before(fallback, es, 0), t, name)
  {
  }

  lemma EndHasCaller(fallback: bool, es: seq<Event>, k: nat, name: Name) returns (t: Caller)
    requires ValidRun(fallback, es) && (Fails(fallback, es, k, name) || Stores(fallback, es, k, name))
    ensures k < |es| && Unstored(Before(fallback, es, k), t, name)
  {
    t := es[k].t;
  }

  // ---------------------------------------------------------------------
  // How often a name is resolved

  // Why a call can come after another one for the same name. An earlier call
  // failed; or its handler was unregistered since; or the handler is there, but
  // was stored only after this caller looked, and nobody resolves it any more.
  ghost predicate FailedBefore(fallback: bool, es: seq<Event>, j: nat, name: Name)
    requires ValidRun(fallback, es)
  {
    exists k: nat :: k < j && Fails(fallback, es, k, name)
  }

  ghost predicate RemovedBefore(fallback: bool, es: seq<Event>, j: nat, name: Name)
    requires ValidRun(fallback, es) && j <= |es|
  {
    exists k: nat, l: nat :: k < l < j && Stores(fallback, es, k, name) && es[l] == Unregister(name)
  }

  ghost predicate Overtaken(fallback: bool, es: seq<Event>, j: nat, name: Name)
    requires ValidRun(fallback, es) && j <= |es|
  {
    name in Before(fallback, es, j).handlers && exists k: nat :: k < j && Stores(fallback, es, k, name)
  }

  lemma StoredIsRegistered(fallback: bool, es: seq<Event>, k: nat, name: Name)
    requires ValidRun(fallback, es) && Stores(fallback, es, k, name)
    ensures k < |es| && name in Before(fallback, es, k + 1).handlers
  {
    StepAt(fallback, es, k);
  }

  // Every repeated call has one of the three causes.
  lemma RepeatHasCause(fallback: bool, es: seq<Event>, i: nat, j: nat, name: Name)
    requires ValidRun(fallback, es) && i < j
    requires Invokes(fallback, es, i, name) && Invokes(fallback, es, j, name)
    ensures j < |es|
    ensures FailedBefore(fallback, es, j, name) || RemovedBefore(fallback, es, j, name)
            || Overtaken(fallback, es, j, name)
  {
    InvokesInRange(fallback, es, i, name);
    InvokesInRange(fallback, es, j, name);
    if Unstored(Before(fallback, es, j), es[i].t, name) {
      UnstoredBlocks(fallback, es, j, es[i].t, name);
    }
    var k := EndsBetween(fallback, es, i, j, name);
    hide Fails, Stores, Invokes, Before, Unstored;
    if !Fails(fallback, es, k, name) {
      StoredIsRegistered(fallback, es, k, name);
      if forall l | k < l < j :: es[l] != Unregister(name) {
        StaysRegistered(fallback, es, k + 1, j, name);
      }
    }
  }

  // The documented "at most once per name" fails in exactly the runs that make a
  // call after a failed one, after the removal of a resolved handler, or
  // overtaken by the resolution it missed.
  lemma AtMostOnceExactly(fallback: bool, es: seq<Event>, name: Name)
    requires ValidRun(fallback, es)
    ensures (exists i, j :: i < j && Invokes(fallback, es, i, name) && Invokes(fallback, es, j, name))
            <==> exists j :: Repeatable(fallback, es, j, name)
  {
    hide Fails, Stores, Invokes, Before, FailedBefore, RemovedBefore, Overtaken, Unstored;
    if i, j :| i < j && Invokes(fallback, es, i, name) && Invokes(fallback, es, j, name) {
      RepeatHasCause(fallback, es, i, j, name);
      assert Repeatable(fallback, es, j, name);
    }
    if j: nat :| Repeatable(fallback, es, j, name) {
      var k := EndBefore(fallback, es, j, name);
      var t := EndHasCaller(fallback, es, k, name);
      var i := InvokedBefore(fallback, es, k, t, name);
    }
  }

  ghost predicate Repeatable(fallback: bool, es: seq<Event>, j: nat, name: Name)
    requires ValidRun(fallback, es)
  {
    && j < |es| && Invokes(fallback, es, j, name)
    && (FailedBefore(fallback, es, j, name) || RemovedBefore(fallback, es, j, name) || Overtaken(fallback, es, j, name))
  }

  lemma EndBefore(fallback: bool, es: seq<Event>, j: nat, name: Name) returns (k: nat)
    requires ValidRun(fallback, es) && j <= |es|
    requires FailedBefore(fallback, es, j, name) || RemovedBefore(fallback, es, j, name)
             || Overtaken(fallback, es, j, name)
    ensures k < j && (Fails(fallback, es, k, name) || Stores(fallback, es, k, name))
  {
    hide Fails, Stores, Before;
    if FailedBefore(fallback, es, j, name) {
      k :| k < j && Fails(fallback, es, k, name);
    } else if RemovedBefore(fallback, es, j, name) {
      var k': nat, l: nat :| k' < l < j && Stores(fallback, es, k', name) && es[l] == Unregister(name);
      k := k';
    } else {
      k :| k < j && Stores(fallback, es, k, name);
    }
  }

  lemma ProvidedNext(s: State, e: Event, name: Name)
    requires Enabled(s, e) && name in Next(s, e).handlers && name !in s.handlers
    ensures StoresNow(s, e, name) || (e.Register? && e.name == name)
  {
  }

  // A name found registered was registered by hand, or stored by a call.
  lemma {:induction false} RegisteredBySomebody(fallback: bool, es: seq<Event>, j: nat, name: Name) returns (k: nat)
    requires ValidRun(fallback, es) && j <= |es| && name in Before(fallback, es, j).handlers
    ensures k < j && (Stores(fallback, es, k, name) || (es[k].Register? && es[k].name == name))
  {
    assert Before(fallback, es, 0) == Init(fallback);
    StepAt(fallback, es, j - 1);
    k := j - 1;
    if name in Before(fallback, es, j - 1).handlers {
      k := RegisteredBySomebody(fallback, es, j - 1, name);
    } else {
      ProvidedNext(Before(fallback, es, j - 1), es[j - 1], name);
    }
  }

  // ---------------------------------------------------------------------
  // A run with an overtaken call

  function FirstEvents(): seq<Event> {
    [Lookup(0, "entra"), Lookup(1, "entra"), LoadOrStore(0), FallbackReturns(0, Some(5)), StoreIfAbsent(0),
     DeleteResolving(0), CloseChannel(0)]
  }

  function BothMissed(): State {
    State(map[], true, map[], {}, 0, map[0 := Missed("entra"), 1 := Missed("entra")])
  }

  function FirstStored(): State {
    State(map["entra" := 5], true, map["entra" := 0], {}, 1,
          map[0 := Deleting("entra", 0, Some(5)), 1 := Missed("entra")])
  }

  function FirstDone(): State {
    State(map["entra" := 5], true, map[], {0}, 1, map[0 := Answered(Some(5)), 1 := Missed("entra")])
  }

  // Caller 1 looks the name up before caller 0's handler is stored, and comes to
  // LoadOrStore after caller 0 has cleaned up.
  lemma InvokedTwice()
    ensures var es := FirstEvents() + [LoadOrStore(1)];
      ValidRun(true, es) && Invokes(true, es, 2, "entra") && Invokes(true, es, 7, "entra")
  {
    FirstLookups();
    FirstCall();
    SecondCall();
  }

  lemma FirstLookups()
    ensures ValidRun(true, FirstEvents()[..2]) && After(true, FirstEvents()[..2]) == BothMissed()
  {
    var es1, s1 := Append(true, [], Lookup(0, "entra"), Init(true));
    var es2, s2 := Append(true, es1, Lookup(1, "entra"), s1);
    hide ValidRun, After;
    assert es2 == FirstEvents()[..2];
  }

  lemma FirstCall()
    ensures ValidRun(true, FirstEvents()) && After(true, FirstEvents()) == FirstDone()
  {
    FirstStore();
    hide ValidRun, After;
    var es6, s6 := Append(true, FirstEvents()[..5], DeleteResolving(0), FirstStored());
    var es7, s7 := Append(true, es6, CloseChannel(0), s6);
    assert es7 == FirstEvents();
    assert s7 == FirstDone();
  }

  lemma FirstStore()
    ensures ValidRun(true, FirstEvents()[..5]) && After(true, FirstEvents()[..5]) == FirstStored()
  {
    FirstLookups();
    hide ValidRun, After;
    var es3, s3 := Append(true, FirstEvents()[..2], LoadOrStore(0), BothMissed());
    var es4, s4 := Append(true, es3, FallbackReturns(0, Some(5)), s3);
    var es5, s5 := Append(true, es4, StoreIfAbsent(0), s4);
    assert es5 == FirstEvents()[..5];
    assert s5 == FirstStored();
  }

  lemma SecondCall()
    requires ValidRun(true, FirstEvents()[..2]) && After(true, FirstEvents()[..2]) == BothMissed()
    requires ValidRun(true, FirstEvents()) && After(true, FirstEvents()) == FirstDone()
    ensures var es := FirstEvents() + [LoadOrStore(1)];
      ValidRun(true, es) && Invokes(true, es, 2, "entra") && Invokes(true, es, 7, "entra")
  {
    var es, _ := Append(true, FirstEvents(), LoadOrStore(1), FirstDone());
    hide ValidRun, After;
    InvokesAt(es, 2, BothMissed());
    InvokesAt(es, 7, FirstDone());
  }

  lemma InvokesAt(es: seq<Event>, i: nat, s: State)
    requires ValidRun(true, es) && i < |es| && ValidRun(true, es[..i]) && After(true, es[..i]) == s
    requires InvokesNow(s, es[i], "entra")
    ensures Invokes(true, es, i, "entra")
  {
    hide ValidRun, After, InvokesNow;
  }

  // One step further along a known run.
  lemma Append(fallback: bool, es: seq<Event>, e: Event, s: State) returns (es': seq<Event>, s': State)
    requires ValidRun(fallback, es) && After(fallback, es) == s && Enabled(s, e)
    ensures es' == es + [e] && s' == Next(s, e)
    ensures ValidRun(fallback, es') && After(fallback, es') == s'
  {
    es', s' := es + [e], Next(s, e);
    assert es'[..|es|] == es;
    hide Next, Enabled;
  }
}
