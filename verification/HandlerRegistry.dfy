/** Demand-driven resolution of auth handlers (auth/registry.go): GetContext and
    resolveWithFallbackContext as a state machine over the atomic steps of any
    number of callers. */
module HandlerRegistry {
  import opened Base

  type Caller = nat
  type Channel = nat
  type Handler = nat

  // Where a caller of GetContext is. Missed: it found no handler, and a
  // fallback; Resolving: its fallback call is in flight; Got: the call gave a
  // handler; Deleting and Closing: the two deferred steps; Answered: returning.
  datatype Pc = Missed(name: Name)
              | Waiting(name: Name, ch: Channel)
              | Woken(name: Name)
              | Resolving(name: Name, ch: Channel)
              | Got(name: Name, ch: Channel, handler: Handler)
              | Deleting(name: Name, ch: Channel, answer: Option<Handler>)
              | Closing(name: Name, ch: Channel, answer: Option<Handler>)
              | Answered(answer: Option<Handler>)

  // Channels are numbered in creation order; next is the first unused number.
  datatype State = State(handlers: map<Name, Handler>, fallback: bool, resolving: map<Name, Channel>,
                         closed: set<Channel>, next: Channel, pc: map<Caller, Pc>)

  datatype Event =
    | Lookup(t: Caller, name: Name)
    | LoadOrStore(t: Caller)
    | Wake(t: Caller)
    | ContextDone(t: Caller)
    | Recheck(t: Caller)
    | FallbackReturns(t: Caller, result: Option<Handler>)
    | StoreIfAbsent(t: Caller)
    | DeleteResolving(t: Caller)
    | CloseChannel(t: Caller)
    | Return(t: Caller)
    | Register(name: Name, handler: Handler)
    | Unregister(name: Name)
    | Disable(name: Name, wrapped: Handler)
    | SetFallback(present: bool)

  function Init(fallback: bool): State {
    State(map[], fallback, map[], {}, 0, map[])
  }

  function Get(m: map<Name, Handler>, name: Name): Option<Handler> {
    if name in m then Some(m[name]) else None
  }

  predicate Enabled(s: State, e: Event) {
    match e
    case Lookup(t, _) => t !in s.pc
    case LoadOrStore(t) => t in s.pc && s.pc[t].Missed?
    case Wake(t) => t in s.pc && s.pc[t].Waiting? && s.pc[t].ch in s.closed
    case ContextDone(t) => t in s.pc && s.pc[t].Waiting?
    case Recheck(t) => t in s.pc && s.pc[t].Woken?
    case FallbackReturns(t, _) => t in s.pc && s.pc[t].Resolving?
    case StoreIfAbsent(t) => t in s.pc && s.pc[t].Got?
    case DeleteResolving(t) => t in s.pc && s.pc[t].Deleting?
    case CloseChannel(t) => t in s.pc && s.pc[t].Closing?
    case Return(t) => t in s.pc && s.pc[t].Answered?
    case Register(name, _) => name != "" && name !in s.handlers
    case Unregister(name) => name in s.handlers
    case Disable(name, _) => name in s.handlers
    case SetFallback(_) => true
  }

  function At(s: State, t: Caller, pc: Pc): State {
    s.(pc := s.pc[t := pc])
  }

  function Next(s: State, e: Event): State
    requires Enabled(s, e)
  {
    match e
    case Lookup(t, name) =>
      if name in s.handlers then At(s, t, Answered(Some(s.handlers[name])))
      else if s.fallback then At(s, t, Missed(name))
      else At(s, t, Answered(None))
    case LoadOrStore(t) =>
      var name := s.pc[t].name;
      if name in s.resolving then At(s, t, Waiting(name, s.resolving[name]))
      else At(s, t, Resolving(name, s.next)).(resolving := s.resolving[name := s.next], next := s.next + 1)
    case Wake(t) => At(s, t, Woken(s.pc[t].name))
    case ContextDone(t) => At(s, t, Answered(None))
    case Recheck(t) => At(s, t, Answered(Get(s.handlers, s.pc[t].name)))
    case FallbackReturns(t, result) =>
      (match result
       case Some(h) => At(s, t, Got(s.pc[t].name, s.pc[t].ch, h))
       case None => At(s, t, Deleting(s.pc[t].name, s.pc[t].ch, None)))
    case StoreIfAbsent(t) =>
      var Got(name, ch, h) := s.pc[t];
      At(s, t, Deleting(name, ch, Some(h)))
        .(handlers := if name in s.handlers then s.handlers else s.handlers[name := h])
    case DeleteResolving(t) =>
      var Deleting(name, ch, answer) := s.pc[t];
      At(s, t, Closing(name, ch, answer)).(resolving := s.resolving - {name})
    case CloseChannel(t) =>
      var Closing(_, ch, answer) := s.pc[t];
      At(s, t, Answered(answer)).(closed := s.closed + {ch})
    case Return(t) => s.(pc := s.pc - {t})
    case Register(name, h) => s.(handlers := s.handlers[name := h])
    case Unregister(name) => s.(handlers := s.handlers - {name})
    case Disable(name, h) => s.(handlers := s.handlers[name := h])
    case SetFallback(present) => s.(fallback := present)
  }

  // ---------------------------------------------------------------------
  // The invariant

  predicate Owning(pc: Pc) {
    pc.Resolving? || pc.Got? || pc.Deleting?
  }

  // t will close ch, which it made for name.
  predicate WillClose(s: State, t: Caller, name: Name, ch: Channel) {
    t in s.pc && (Owning(s.pc[t]) || s.pc[t].Closing?) && s.pc[t].name == name && s.pc[t].ch == ch
  }

  predicate Owns(s: State, t: Caller, name: Name, ch: Channel) {
    WillClose(s, t, name, ch) && Owning(s.pc[t])
  }

  ghost predicate CallerInv(s: State, t: Caller)
    requires t in s.pc
  {
    match s.pc[t]
    case Waiting(name, ch) => ch in s.closed || exists u :: WillClose(s, u, name, ch)
    case Resolving(name, ch) => name in s.resolving && s.resolving[name] == ch
    case Got(name, ch, _) => name in s.resolving && s.resolving[name] == ch
    case Deleting(name, ch, _) => name in s.resolving && s.resolving[name] == ch
    case _ => true
  }

  ghost predicate Fresh(s: State) {
    && (forall ch | ch in s.closed :: ch < s.next)
    && forall t | t in s.pc && (Owning(s.pc[t]) || s.pc[t].Closing?) :: s.pc[t].ch < s.next && s.pc[t].ch !in s.closed
  }

  ghost predicate OneCloser(s: State) {
    forall t, u, m, n, ch | WillClose(s, t, m, ch) && WillClose(s, u, n, ch) :: t == u
  }

  ghost predicate Owned(s: State) {
    forall name | name in s.resolving :: exists t :: Owns(s, t, name, s.resolving[name])
  }

  ghost predicate Inv(s: State) {
    Fresh(s) && OneCloser(s) && Owned(s) && forall t | t in s.pc :: CallerInv(s, t)
  }

  // Only the event's own caller moves.
  function Mover(e: Event): Option<Caller> {
    match e
    case Register(_, _) => None
    case Unregister(_) => None
    case Disable(_, _) => None
    case SetFallback(_) => None
    case _ => Some(e.t)
  }

  lemma OthersStay(s: State, e: Event, t: Caller)
    requires Enabled(s, e) && Mover(e) != Some(t)
    ensures t in Next(s, e).pc <==> t in s.pc
    ensures t in s.pc ==> Next(s, e).pc[t] == s.pc[t]
  {
  }

  // Who will close a channel: its maker, until it does.
  lemma WillCloseNext(s: State, e: Event, t: Caller, name: Name, ch: Channel)
    requires Enabled(s, e)
    ensures WillClose(Next(s, e), t, name, ch) <==>
            (WillClose(s, t, name, ch) && e != CloseChannel(t))
            || (e == LoadOrStore(t) && s.pc[t].name == name && name !in s.resolving && ch == s.next)
  {
    if Mover(e) != Some(t) { OthersStay(s, e, t); }
  }

  lemma NextFresh(s: State, e: Event)
    requires Inv(s) && Enabled(s, e)
    ensures Fresh(Next(s, e)) && OneCloser(Next(s, e))
  {
    var s' := Next(s, e);
    NextChannels(s, e);
    hide Next;
    forall t | t in s'.pc && (Owning(s'.pc[t]) || s'.pc[t].Closing?)
      ensures s'.pc[t].ch < s'.next && s'.pc[t].ch !in s'.closed
    {
      var name, ch := s'.pc[t].name, s'.pc[t].ch;
      WillCloseNext(s, e, t, name, ch);
      if e.CloseChannel? { assert WillClose(s, e.t, s.pc[e.t].name, s.pc[e.t].ch); }
    }
    forall t, u, m, n, ch | WillClose(s', t, m, ch) && WillClose(s', u, n, ch) ensures t == u {
      WillCloseNext(s, e, t, m, ch);
      WillCloseNext(s, e, u, n, ch);
    }
  }

  lemma NextChannels(s: State, e: Event)
    requires Inv(s) && Enabled(s, e)
    ensures Next(s, e).next == if e.LoadOrStore? && s.pc[e.t].name !in s.resolving then s.next + 1 else s.next
    ensures Next(s, e).closed == if e.CloseChannel? then s.closed + {s.pc[e.t].ch} else s.closed
    ensures forall ch | ch in Next(s, e).closed :: ch < Next(s, e).next
  {
  }

  lemma NextResolving(s: State, e: Event)
    requires Enabled(s, e)
    ensures Next(s, e).resolving ==
            if e.LoadOrStore? && s.pc[e.t].name !in s.resolving then s.resolving[s.pc[e.t].name := s.next]
            else if e.DeleteResolving? then s.resolving - {s.pc[e.t].name}
            else s.resolving
  {
  }

  lemma OwnsNext(s: State, e: Event, t: Caller, name: Name, ch: Channel)
    requires Enabled(s, e) && Owns(s, t, name, ch) && e != DeleteResolving(t)
    ensures Owns(Next(s, e), t, name, ch)
  {
    if Mover(e) != Some(t) { OthersStay(s, e, t); }
  }

  lemma NextOwned(s: State, e: Event)
    requires Inv(s) && Enabled(s, e)
    ensures Owned(Next(s, e))
  {
    var s' := Next(s, e);
    NextResolving(s, e);
    if e.LoadOrStore? && s.pc[e.t].name !in s.resolving {
      assert Owns(s', e.t, s.pc[e.t].name, s.next);
    }
    if e.DeleteResolving? { assert CallerInv(s, e.t); }
    hide Next;
    forall name | name in s'.resolving ensures exists t :: Owns(s', t, name, s'.resolving[name]) {
      if name in s.resolving {
        var t :| Owns(s, t, name, s.resolving[name]);
        OwnsNext(s, e, t, name, s.resolving[name]);
      }
    }
  }

  lemma OwnsUnique(s: State, t: Caller, u: Caller, name: Name)
    requires Inv(s) && t in s.pc && u in s.pc && Owning(s.pc[t]) && Owning(s.pc[u])
    requires s.pc[t].name == name && s.pc[u].name == name
    ensures t == u
  {
    assert CallerInv(s, t) && CallerInv(s, u);
    assert WillClose(s, t, name, s.pc[t].ch) && WillClose(s, u, name, s.pc[t].ch);
  }

  lemma NextCaller(s: State, e: Event, t: Caller)
    requires Inv(s) && Enabled(s, e) && t in Next(s, e).pc
    ensures CallerInv(Next(s, e), t)
  {
    var s' := Next(s, e);
    if Mover(e) != Some(t) {
      OthersStay(s, e, t);
      assert CallerInv(s, t);
      if s.pc[t].Waiting? {
        WaiterStays(s, e, s.pc[t].name, s.pc[t].ch);
      } else if Owning(s.pc[t]) {
        NextResolving(s, e);
        if e.DeleteResolving? && s.pc[e.t].name == s.pc[t].name { OwnsUnique(s, t, e.t, s.pc[t].name); }
      }
    } else {
      MoverStays(s, e, t);
    }
  }

  lemma MoverStays(s: State, e: Event, t: Caller)
    requires Inv(s) && Enabled(s, e) && t in Next(s, e).pc && Mover(e) == Some(t)
    ensures CallerInv(Next(s, e), t)
  {
    if t in s.pc { assert CallerInv(s, t); }
    var s' := Next(s, e);
    if e.LoadOrStore? && s.pc[t].name in s.resolving {
      var name := s.pc[t].name;
      var u :| Owns(s, u, name, s.resolving[name]);
      assert WillClose(s', u, name, s.resolving[name]);
    }
  }

  lemma WaiterStays(s: State, e: Event, name: Name, ch: Channel)
    requires Inv(s) && Enabled(s, e)
    requires ch in s.closed || exists u :: WillClose(s, u, name, ch)
    ensures ch in Next(s, e).closed || exists u :: WillClose(Next(s, e), u, name, ch)
  {
    NextChannels(s, e);
    if ch !in s.closed {
      var u :| WillClose(s, u, name, ch);
      WillCloseNext(s, e, u, name, ch);
    }
  }

  lemma NextInv(s: State, e: Event)
    requires Inv(s) && Enabled(s, e)
    ensures Inv(Next(s, e))
  {
    NextFresh(s, e);
    NextOwned(s, e);
    forall t | t in Next(s, e).pc ensures CallerInv(Next(s, e), t) {
      NextCaller(s, e, t);
    }
  }

  // ---------------------------------------------------------------------
  // Runs

  ghost predicate ValidRun(fallback: bool, es: seq<Event>)
    decreases |es|, 0
  {
    es == [] ||
    (ValidRun(fallback, es[..|es| - 1]) && Enabled(After(fallback, es[..|es| - 1]), es[|es| - 1]))
  }

  ghost function After(fallback: bool, es: seq<Event>): State
    requires ValidRun(fallback, es)
    decreases |es|, 1
  {
    if es == [] then Init(fallback) else Next(After(fallback, es[..|es| - 1]), es[|es| - 1])
  }

  lemma {:induction false} RunInv(fallback: bool, es: seq<Event>)
    requires ValidRun(fallback, es)
    ensures Inv(After(fallback, es))
  {
    if es != [] {
      RunInv(fallback, es[..|es| - 1]);
      NextInv(After(fallback, es[..|es| - 1]), es[|es| - 1]);
    }
  }

  lemma {:induction false} PrefixValid(fallback: bool, es: seq<Event>, i: nat)
    requires ValidRun(fallback, es) && i <= |es|
    ensures ValidRun(fallback, es[..i])
    decreases |es|
  {
    if i < |es| {
      PrefixValid(fallback, es[..|es| - 1], i);
      assert es[..|es| - 1][..i] == es[..i];
    } else {
      assert es[..i] == es;
    }
  }

  // At most one fallback call per name is in flight.
  lemma AtMostOneInFlight(fallback: bool, es: seq<Event>, t: Caller, u: Caller)
    requires ValidRun(fallback, es)
    requires var s := After(fallback, es);
      t in s.pc && u in s.pc && s.pc[t].Resolving? && s.pc[u].Resolving? && s.pc[t].name == s.pc[u].name
    ensures t == u
  {
    RunInv(fallback, es);
    OwnsUnique(After(fallback, es), t, u, After(fallback, es).pc[t].name);
  }

  // A waiter's channel is closed, or somebody's next steps close it: at most
  // four of them, once its fallback call returns.
  lemma NoLostWakeUp(fallback: bool, es: seq<Event>, t: Caller) returns (more: seq<Event>)
    requires ValidRun(fallback, es)
    requires t in After(fallback, es).pc && After(fallback, es).pc[t].Waiting?
    ensures |more| <= 4 && ValidRun(fallback, es + more)
    ensures forall i, j | 0 <= i < j < |more| :: Mover(more[i]) == Mover(more[j])
    ensures Enabled(After(fallback, es + more), Wake(t))
  {
    hide *;
    var s := After(fallback, es);
    var name, ch := s.pc[t].name, s.pc[t].ch;
    more := [];
    assert es + more == es;
    var u := CloserOf(fallback, es, t);
    while ch !in After(fallback, es + more).closed
      invariant ValidRun(fallback, es + more)
      invariant forall i | 0 <= i < |more| :: Mover(more[i]) == Some(u)
      invariant var s' := After(fallback, es + more);
        t in s'.pc && s'.pc[t] == s.pc[t] &&
        (ch in s'.closed || (WillClose(s', u, name, ch) && u in s'.pc && |more| + StepsLeft(s'.pc[u]) <= 4))
      invariant |more| <= 4
      decreases 4 - |more|
    {
      more := OneStepOn(fallback, es, more, u, name, ch, t);
    }
    WakeEnabled(After(fallback, es + more), t);
  }

  lemma WakeEnabled(s: State, t: Caller)
    requires t in s.pc && s.pc[t].Waiting? && s.pc[t].ch in s.closed
    ensures Enabled(s, Wake(t))
  {
  }

  lemma CloserOf(fallback: bool, es: seq<Event>, t: Caller) returns (u: Caller)
    requires ValidRun(fallback, es)
    requires t in After(fallback, es).pc && After(fallback, es).pc[t].Waiting?
    ensures var s := After(fallback, es);
      s.pc[t].ch in s.closed ||
      (WillClose(s, u, s.pc[t].name, s.pc[t].ch) && u in s.pc && StepsLeft(s.pc[u]) <= 4)
  {
    var s := After(fallback, es);
    RunInv(fallback, es);
    assert CallerInv(s, t);
    if s.pc[t].ch in s.closed {
      u := t;
    } else {
      u :| WillClose(s, u, s.pc[t].name, s.pc[t].ch);
    }
  }

  function StepsLeft(pc: Pc): nat {
    match pc
    case Resolving(_, _) => 4
    case Got(_, _, _) => 3
    case Deleting(_, _, _) => 2
    case Closing(_, _, _) => 1
    case _ => 0
  }

  function CloserStep(pc: Pc, u: Caller): Event {
    match pc
    case Resolving(_, _) => FallbackReturns(u, None)
    case Got(_, _, _) => StoreIfAbsent(u)
    case Deleting(_, _, _) => DeleteResolving(u)
    case _ => CloseChannel(u)
  }

  lemma OneStepOn(fallback: bool, es: seq<Event>, more: seq<Event>, u: Caller, name: Name, ch: Channel, t: Caller)
    returns (more': seq<Event>)
    requires ValidRun(fallback, es + more) && WillClose(After(fallback, es + more), u, name, ch)
    requires t in After(fallback, es + more).pc && After(fallback, es + more).pc[t].Waiting?
    ensures |more'| == |more| + 1 && more'[..|more|] == more && Mover(more'[|more|]) == Some(u)
    ensures ValidRun(fallback, es + more')
    ensures var s, s' := After(fallback, es + more), After(fallback, es + more');
      && t in s'.pc && s'.pc[t] == s.pc[t] && u in s.pc && StepsLeft(s.pc[u]) > 0
      && (ch in s'.closed
          || (WillClose(s', u, name, ch) && u in s'.pc && StepsLeft(s'.pc[u]) < StepsLeft(s.pc[u])))
  {
    var s := After(fallback, es + more);
    var e := CloserStep(s.pc[u], u);
    more' := more + [e];
    assert (es + more')[..|es + more|] == es + more && (es + more')[|es + more|] == e;
    CloserAdvances(s, u, name, ch);
    hide Enabled, Next, CloserStep, WillClose, StepsLeft;
    OthersStay(s, e, t);
  }

  lemma CloserAdvances(s: State, u: Caller, name: Name, ch: Channel)
    requires WillClose(s, u, name, ch)
    ensures var e := CloserStep(s.pc[u], u);
      && Mover(e) == Some(u) && Enabled(s, e) && StepsLeft(s.pc[u]) > 0 && !s.pc[u].Waiting?
      && (ch in Next(s, e).closed
          || (WillClose(Next(s, e), u, name, ch) && u in Next(s, e).pc
              && StepsLeft(Next(s, e).pc[u]) < StepsLeft(s.pc[u])))
  {
  }
}
