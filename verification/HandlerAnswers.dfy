/** What a caller of the registry is answered, and which handler is registered
    (auth/registry.go). */
module HandlerAnswers {
  import opened Base
  import opened HandlerRegistry
  import opened HandlerCalls

  // ---------------------------------------------------------------------
  // Answers

  // The name t asked for last.
  ghost function Asked(es: seq<Event>, t: Caller): Option<Name> {
    if es == [] then None
    else
      var e := es[|es| - 1];
      if e.Lookup? && e.t == t then Some(e.name) else Asked(es[..|es| - 1], t)
  }

  // The event e of caller t, which asked for name, settles its answer: the
  // handler registered when it looked, or none if there was none and no
  // fallback; none if its context ended; what is registered when it looks again;
  // or what its own call of the fallback gave.
  predicate Settles(s: State, e: Event, t: Caller, name: Name, answer: Option<Handler>) {
    || (e == Lookup(t, name) && name in s.handlers && answer == Some(s.handlers[name]))
    || (e == Lookup(t, name) && name !in s.handlers && !s.fallback && answer == None)
    || (e == ContextDone(t) && answer == None)
    || (e == Recheck(t) && name in s.handlers && answer == Some(s.handlers[name]))
    || (e == Recheck(t) && name !in s.handlers && answer == None)
    || e == FallbackReturns(t, answer)
  }

  // The answer t will give, once it is settled.
  function Settled(pc: Pc): Option<Option<Handler>> {
    match pc
    case Got(_, _, h) => Some(Some(h))
    case Deleting(_, _, answer) => Some(answer)
    case Closing(_, _, answer) => Some(answer)
    case Answered(answer) => Some(answer)
    case _ => None
  }

  ghost predicate SettledAt(fallback: bool, es: seq<Event>, k: nat, t: Caller, name: Name, answer: Option<Handler>)
    requires ValidRun(fallback, es)
  {
    && k < |es| && Settles(Before(fallback, es, k), es[k], t, name, answer)
    && forall j | k < j < |es| :: !AsksOrEnds(es[j], t)
  }

  predicate AsksOrEnds(e: Event, t: Caller) {
    (e.Lookup? && e.t == t) || e == Return(t)
  }

  // Until its answer is settled a caller keeps to the name it asked for.
  predicate AtName(pc: Pc, name: Name) {
    !pc.Answered? ==> pc.name == name
  }

  lemma SettleStep(s: State, e: Event, t: Caller, name: Name)
    requires Enabled(s, e) && t in Next(s, e).pc
    requires t in s.pc ==> AtName(s.pc[t], name)
    requires e.Lookup? && e.t == t ==> e.name == name
    ensures AtName(Next(s, e).pc[t], name)
    ensures Settled(Next(s, e).pc[t]).Some? ==>
              Settles(s, e, t, name, Settled(Next(s, e).pc[t]).value)
              || (t in s.pc && Settled(s.pc[t]) == Settled(Next(s, e).pc[t]) && !AsksOrEnds(e, t))
    ensures t !in s.pc ==> e.Lookup? && e.t == t
  {
    if Mover(e) != Some(t) { OthersStay(s, e, t); }
  }

  // Whatever a caller answers was settled by one of its own events since it
  // asked, for the name it asked for.
  lemma {:induction false} AnswerSettled(fallback: bool, es: seq<Event>, t: Caller)
    requires ValidRun(fallback, es) && t in After(fallback, es).pc
    ensures var pc := After(fallback, es).pc[t];
      && Asked(es, t).Some? && AtName(pc, Asked(es, t).value)
      && (Settled(pc).Some? ==> exists k :: SettledAt(fallback, es, k, t, Asked(es, t).value, Settled(pc).value))
    decreases |es|
  {
    if es == [] {
      NobodyYet(fallback);
    } else {
      var n := |es| - 1;
      var init, e := es[..n], es[n];
      StepAt(fallback, es, n);
      LastBefore(fallback, es);
      var s, s' := After(fallback, init), After(fallback, es);
      if t in s.pc { AnswerSettled(fallback, init, t); }
      CallerEnters(s, e, t);
      var name := Asked(es, t).value;
      hide Next, Enabled, ValidRun, After, Settles, Before;
      SettleStep(s, e, t, name);
      if Settled(s'.pc[t]).Some? {
        var answer := Settled(s'.pc[t]).value;
        if Settles(s, e, t, name, answer) {
          assert SettledAt(fallback, es, n, t, name, answer);
        } else {
          var k: nat :| SettledAt(fallback, init, k, t, name, answer);
          SettledLater(fallback, es, k, t, name, answer);
        }
      }
    }
  }

  lemma NobodyYet(fallback: bool)
    ensures ValidRun(fallback, []) && After(fallback, []).pc == map[]
  {
  }

  lemma CallerEnters(s: State, e: Event, t: Caller)
    requires Enabled(s, e) && t in Next(s, e).pc
    ensures t !in s.pc ==> e.Lookup? && e.t == t
    ensures t in s.pc ==> !(e.Lookup? && e.t == t)
  {
    if Mover(e) != Some(t) { OthersStay(s, e, t); }
  }

  lemma LastBefore(fallback: bool, es: seq<Event>)
    requires ValidRun(fallback, es) && es != []
    ensures ValidRun(fallback, es[..|es| - 1]) && Before(fallback, es, |es| - 1) == After(fallback, es[..|es| - 1])
    ensures Before(fallback, es, |es|) == After(fallback, es)
  {
    assert es[..|es|] == es;
  }

  lemma SettledLater(fallback: bool, es: seq<Event>, k: nat, t: Caller, name: Name, answer: Option<Handler>)
    requires ValidRun(fallback, es) && es != [] && ValidRun(fallback, es[..|es| - 1])
    requires SettledAt(fallback, es[..|es| - 1], k, t, name, answer) && !AsksOrEnds(es[|es| - 1], t)
    ensures SettledAt(fallback, es, k, t, name, answer)
  {
    var init := es[..|es| - 1];
    assert init[..k] == es[..k] && init[k] == es[k];
    assert forall j | 0 <= j < |init| :: init[j] == es[j];
    hide ValidRun, After, Settles;
  }

  // ---------------------------------------------------------------------
  // Registered handlers

  // What was provided under name last, by hand, or by a caller storing what its
  // call of the fallback gave where nothing was registered; none once removed.
  ghost function Provided(fallback: bool, es: seq<Event>, name: Name): Option<Handler>
    requires ValidRun(fallback, es)
  {
    if es == [] then None
    else
      var s, e, before := After(fallback, es[..|es| - 1]), es[|es| - 1], Provided(fallback, es[..|es| - 1], name);
      match e
      case Register(m, h) => if m == name then Some(h) else before
      case Disable(m, h) => if m == name then Some(h) else before
      case Unregister(m) => if m == name then None else before
      case StoreIfAbsent(t) => if before == None && s.pc[t].name == name then Some(s.pc[t].handler) else before
      case _ => before
  }

  // The handler under a name is the one provided last.
  lemma {:induction false} RegisteredExactly(fallback: bool, es: seq<Event>, name: Name)
    requires ValidRun(fallback, es)
    ensures Provided(fallback, es, name)
            == if name in After(fallback, es).handlers then Some(After(fallback, es).handlers[name]) else None
  {
    if es != [] {
      var init, e := es[..|es| - 1], es[|es| - 1];
      RegisteredExactly(fallback, init, name);
      HandlersNext(After(fallback, init), e);
      hide Next, Enabled;
    }
  }

  lemma HandlersNext(s: State, e: Event)
    requires Enabled(s, e)
    ensures Next(s, e).handlers
            == match e
               case Register(name, h) => s.handlers[name := h]
               case Disable(name, h) => s.handlers[name := h]
               case Unregister(name) => s.handlers - {name}
               case StoreIfAbsent(t) =>
                 if s.pc[t].name in s.handlers then s.handlers else s.handlers[s.pc[t].name := s.pc[t].handler]
               case _ => s.handlers
    ensures e.StoreIfAbsent? ==> e.t in s.pc && s.pc[e.t].Got?
  {
  }

  // What a caller is about to store is what its call of the fallback gave.
  lemma {:induction false} GotFromFallback(fallback: bool, es: seq<Event>, t: Caller) returns (k: nat)
    requires ValidRun(fallback, es) && t in After(fallback, es).pc && After(fallback, es).pc[t].Got?
    ensures k < |es| && es[k] == FallbackReturns(t, Some(After(fallback, es).pc[t].handler))
    ensures forall j | k < j < |es| :: Mover(es[j]) != Some(t)
    decreases |es|
  {
    var n := |es| - 1;
    var init, e := es[..n], es[n];
    var s := After(fallback, init);
    if Mover(e) == Some(t) {
      k := n;
    } else {
      OthersStay(s, e, t);
      k := GotFromFallback(fallback, init, t);
    }
  }

  // ---------------------------------------------------------------------
  // What the surroundings decide

  // Anybody not asking can ask for any name; a caller that waits can find its
  // context ended; a fallback call can come back with any handler or none; a name
  // that is free can be registered, one that is not can be given up or replaced.
  lemma AnythingMayHappen(fallback: bool, es: seq<Event>, t: Caller, name: Name, e: Event)
    requires ValidRun(fallback, es)
    requires var s := After(fallback, es);
      || (e == Lookup(t, name) && t !in s.pc)
      || (e == ContextDone(t) && t in s.pc && s.pc[t].Waiting?)
      || (e.FallbackReturns? && e.t == t && t in s.pc && s.pc[t].Resolving?)
      || (e.Register? && e.name == name && name != "" && name !in s.handlers)
      || (e == Unregister(name) && name in s.handlers)
      || (e.Disable? && e.name == name && name in s.handlers)
    ensures ValidRun(fallback, es + [e])
  {
    assert Enabled(After(fallback, es), e) by { hide ValidRun, After; }
    hide *;
    var es', s' := Append(fallback, es, e, After(fallback, es));
  }
}
