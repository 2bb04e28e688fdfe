/** The per-run memo behind call de-duplication (call/memo.go), under any
    interleaving of its callers. Callers include every attempt of every retried
    action that shares the memo. */
module Memo {
  import opened Base

  type Caller = nat
  type EntryId = nat
  type Val = string

  // The result of a computation: a value or an error; both are kept.
  datatype Outcome = Value(v: Val) | Failure(error: string)

  // sync.Once: nobody yet, somebody at it, done.
  datatype Once = Unstarted | Started(owner: Caller) | Done(out: Outcome)

  datatype Pc = Holding(key: string, e: EntryId) | Computing(key: string, e: EntryId)
              | Answered(key: string, out: Outcome)

  // computed logs the keys for which fn was called.
  datatype State = State(entries: map<string, EntryId>, once: map<EntryId, Once>, next: EntryId, pc: map<Caller, Pc>,
                         computed: seq<string>)

  datatype Event = Lookup(t: Caller, key: string) | Begin(t: Caller) | Finish(t: Caller, out: Outcome)
                 | Observe(t: Caller) | Leave(t: Caller)

  function Init(): State {
    State(map[], map[], 0, map[], [])
  }

  predicate Enabled(s: State, e: Event) {
    match e
    case Lookup(t, _) => t !in s.pc
    case Begin(t) => t in s.pc && s.pc[t].Holding? && s.pc[t].e in s.once && s.once[s.pc[t].e].Unstarted?
    case Finish(t, _) => t in s.pc && s.pc[t].Computing?
    case Observe(t) => t in s.pc && s.pc[t].Holding? && s.pc[t].e in s.once && s.once[s.pc[t].e].Done?
    case Leave(t) => t in s.pc && s.pc[t].Answered?
  }

  function Next(s: State, e: Event): State
    requires Enabled(s, e)
  {
    match e
    case Lookup(t, key) =>
      if key in s.entries then s.(pc := s.pc[t := Holding(key, s.entries[key])])
      else s.(entries := s.entries[key := s.next], once := s.once[s.next := Unstarted], next := s.next + 1,
              pc := s.pc[t := Holding(key, s.next)])
    case Begin(t) =>
      s.(once := s.once[s.pc[t].e := Started(t)], pc := s.pc[t := Computing(s.pc[t].key, s.pc[t].e)],
         computed := s.computed + [s.pc[t].key])
    case Finish(t, out) =>
      s.(once := s.once[s.pc[t].e := Done(out)], pc := s.pc[t := Answered(s.pc[t].key, out)])
    case Observe(t) => s.(pc := s.pc[t := Answered(s.pc[t].key, s.once[s.pc[t].e].out)])
    case Leave(t) => s.(pc := s.pc - {t})
  }

  ghost predicate CallerInv(s: State, t: Caller)
    requires t in s.pc
  {
    match s.pc[t]
    case Holding(key, e) => key in s.entries && s.entries[key] == e
    case Computing(key, e) => key in s.entries && s.entries[key] == e && e in s.once && s.once[e] == Started(t)
    case Answered(key, out) => key in s.entries && s.entries[key] in s.once && s.once[s.entries[key]] == Done(out)
  }

  // Keys have different entries; a key was computed exactly if its entry was begun.
  ghost predicate EntriesInv(s: State) {
    && (forall e | e in s.once :: e < s.next)
    && (forall k | k in s.entries :: s.entries[k] in s.once)
    && (forall j, k | j in s.entries && k in s.entries && s.entries[j] == s.entries[k] :: j == k)
    && (forall k | k in s.entries :: k in s.computed <==> !s.once[s.entries[k]].Unstarted?)
    && (forall k | k in s.computed :: k in s.entries)
    && Distinct(s.computed)
  }

  ghost predicate Inv(s: State) {
    EntriesInv(s) && forall t | t in s.pc :: CallerInv(s, t)
  }

  lemma NextEntries(s: State, e: Event)
    requires Inv(s) && Enabled(s, e)
    ensures EntriesInv(Next(s, e))
  {
    if e.Begin? || e.Finish? { assert CallerInv(s, e.t); }
    hide CallerInv, Inv;
    assert EntriesInv(s) by { InvEntries(s); }
    match e {
      case Lookup(_, _) =>
      case Begin(t) => BeginEntries(s, t);
      case _ =>
    }
  }

  lemma InvEntries(s: State)
    requires Inv(s)
    ensures EntriesInv(s)
  {
    hide EntriesInv, CallerInv;
  }

  lemma BeginEntries(s: State, t: Caller)
    requires EntriesInv(s) && Enabled(s, Begin(t)) && s.pc[t].key in s.entries && s.entries[s.pc[t].key] == s.pc[t].e
    ensures EntriesInv(Next(s, Begin(t)))
  {
    var key := s.pc[t].key;
    assert key !in s.computed;
    assert forall k :: k in s.computed + [key] <==> k in s.computed || k == key;
    assert forall i | 0 <= i < |s.computed| :: s.computed[i] in s.computed;
  }

  lemma NextCaller(s: State, e: Event, t: Caller)
    requires Inv(s) && Enabled(s, e) && t in Next(s, e).pc
    ensures CallerInv(Next(s, e), t)
  {
    if t in s.pc { assert CallerInv(s, t); }
    if e.t in s.pc { assert CallerInv(s, e.t); }
  }

  lemma NextInv(s: State, e: Event)
    requires Inv(s) && Enabled(s, e)
    ensures Inv(Next(s, e))
  {
    NextEntries(s, e);
    forall t | t in Next(s, e).pc ensures CallerInv(Next(s, e), t) { NextCaller(s, e, t); }
  }

  ghost predicate Leads(s: State, es: seq<Event>, s': State)
    decreases |es|
  {
    if es == [] then s' == s else Enabled(s, es[0]) && Leads(Next(s, es[0]), es[1..], s')
  }

  lemma {:induction false} LeadsInv(s: State, es: seq<Event>, s': State)
    requires Inv(s) && Leads(s, es, s')
    ensures Inv(s')
    decreases |es|
  {
    if es != [] {
      NextInv(s, es[0]);
      LeadsInv(Next(s, es[0]), es[1..], s');
    }
  }

  // However callers interleave, each key is computed at most once, and all
  // callers of one key are answered alike, errors included.
  lemma OncePerKey(es: seq<Event>, s: State)
    requires Leads(Init(), es, s)
    ensures Distinct(s.computed)
    ensures forall t, u | t in s.pc && u in s.pc && s.pc[t].Answered? && s.pc[u].Answered?
              && s.pc[t].key == s.pc[u].key ::
              s.pc[t].out == s.pc[u].out
  {
    LeadsInv(Init(), es, s);
    forall t, u | t in s.pc && u in s.pc && s.pc[t].Answered? && s.pc[u].Answered? && s.pc[t].key == s.pc[u].key
      ensures s.pc[t].out == s.pc[u].out
    {
      assert CallerInv(s, t) && CallerInv(s, u);
    }
  }

  // An answer is for good: a later attempt with the key gets it again.
  lemma {:induction false} AnswerStays(s: State, es: seq<Event>, s': State, key: string, out: Outcome)
    requires Inv(s) && Leads(s, es, s')
    requires key in s.entries && s.entries[key] in s.once && s.once[s.entries[key]] == Done(out)
    ensures key in s'.entries && s'.entries[key] in s'.once && s'.once[s'.entries[key]] == Done(out)
    decreases |es|
  {
    if es != [] {
      NextInv(s, es[0]);
      if es[0].Finish? || es[0].Begin? { assert CallerInv(s, es[0].t); }
      AnswerStays(Next(s, es[0]), es[1..], s', key, out);
    }
  }

  // A caller that has to wait waits for one that computes its own key.
  lemma WaitsForSomebody(es: seq<Event>, s: State, t: Caller)
    requires Leads(Init(), es, s) && t in s.pc && s.pc[t].Holding?
    ensures s.pc[t].e in s.once
    ensures Enabled(s, Begin(t)) || Enabled(s, Observe(t)) || exists u :: ComputesFor(s, t, u)
  {
    StartedInvRun(Init(), es, s);
    LeadsInv(Init(), es, s);
    assert CallerInv(s, t);
    var e := s.pc[t].e;
    if s.once[e].Started? {
      var u := s.once[e].owner;
      assert CallerInv(s, u);
      assert ComputesFor(s, t, u);
    }
  }

  // u is computing the key t holds, and can finish.
  ghost predicate ComputesFor(s: State, t: Caller, u: Caller)
    requires t in s.pc && s.pc[t].Holding? && s.pc[t].e in s.once
  {
    && s.once[s.pc[t].e] == Started(u) && u in s.pc && s.pc[u] == Computing(s.pc[t].key, s.pc[t].e)
    && forall out :: Enabled(s, Finish(u, out))
  }

  ghost predicate StartedInv(s: State) {
    forall e | e in s.once && s.once[e].Started? ::
      s.once[e].owner in s.pc && s.pc[s.once[e].owner].Computing? && s.pc[s.once[e].owner].e == e
  }

  lemma {:induction false} StartedInvRun(s: State, es: seq<Event>, s': State)
    requires Inv(s) && StartedInv(s) && Leads(s, es, s')
    ensures StartedInv(s')
    decreases |es|
  {
    if es != [] {
      NextInv(s, es[0]);
      StartedInvNext(s, es[0]);
      hide Inv, StartedInv, Next;
      StartedInvRun(Next(s, es[0]), es[1..], s');
    }
  }

  lemma StartedInvNext(s: State, e: Event)
    requires Inv(s) && StartedInv(s) && Enabled(s, e)
    ensures StartedInv(Next(s, e))
  {
    if e.t in s.pc { assert CallerInv(s, e.t); }
    hide Inv;
  }

  // ---------------------------------------------------------------------
  // What the answers are

  lemma {:induction false} LastEvent(s: State, es: seq<Event>, s': State) returns (m: State)
    requires Leads(s, es, s') && es != []
    ensures Leads(s, es[..|es| - 1], m) && Enabled(m, es[|es| - 1]) && s' == Next(m, es[|es| - 1])
    decreases |es|
  {
    if |es| == 1 {
      m := s;
      assert es[1..] == [] && es[..0] == [];
    } else {
      m := LastEvent(Next(s, es[0]), es[1..], s');
      var init := es[..|es| - 1];
      assert es[1..][..|es| - 2] == init[1..] && init[0] == es[0];
      assert es[1..][|es| - 2] == es[|es| - 1];
    }
  }

  // The function was called for key in the run, and gave out.
  ghost predicate Gave(es: seq<Event>, key: string, out: Outcome) {
    exists k: nat, m :: GaveAt(es, k, m, key, out)
  }

  ghost predicate GaveAt(es: seq<Event>, k: nat, m: State, key: string, out: Outcome) {
    k < |es| && Leads(Init(), es[..k], m) && Gives(m, es[k], key, out)
  }

  predicate Gives(m: State, e: Event, key: string, out: Outcome) {
    e.Finish? && e.out == out && e.t in m.pc && m.pc[e.t].Computing? && m.pc[e.t].key == key
  }

  lemma GaveLater(es: seq<Event>, e: Event, key: string, out: Outcome)
    requires Gave(es, key, out)
    ensures Gave(es + [e], key, out)
  {
    hide Leads, Gives;
    var k: nat, m :| GaveAt(es, k, m, key, out);
    assert (es + [e])[..k] == es[..k] && (es + [e])[k] == es[k];
    assert GaveAt(es + [e], k, m, key, out);
  }

  lemma EntryStep(s: State, e: Event, key: string)
    requires Inv(s) && Enabled(s, e)
    requires key in Next(s, e).entries && Next(s, e).entries[key] in Next(s, e).once
    requires Next(s, e).once[Next(s, e).entries[key]].Done?
    ensures var out := Next(s, e).once[Next(s, e).entries[key]].out;
      Gives(s, e, key, out)
      || (key in s.entries && s.entries[key] in s.once && s.once[s.entries[key]] == Done(out))
  {
    if e.Finish? { assert CallerInv(s, e.t); }
    if e.Begin? { assert CallerInv(s, e.t); }
    hide CallerInv;
  }

  // A finished entry holds what the function gave for its key ...
  lemma {:induction false} EntryIsResult(es: seq<Event>, s: State, key: string)
    requires Leads(Init(), es, s) && key in s.entries && s.entries[key] in s.once && s.once[s.entries[key]].Done?
    ensures Gave(es, key, s.once[s.entries[key]].out)
    decreases |es|
  {
    if es != [] {
      var init, e := es[..|es| - 1], es[|es| - 1];
      var m := LastEvent(Init(), es, s);
      LeadsInv(Init(), init, m);
      assert es == init + [e];
      hide Leads, Inv, Enabled;
      EntryStep(m, e, key);
      hide Next;
      var out := s.once[s.entries[key]].out;
      if Gives(m, e, key, out) {
        assert GaveAt(es, |init|, m, key, out);
      } else {
        EntryIsResult(init, m, key);
        GaveLater(init, e, key, out);
      }
    }
  }

  // The key t asked for last.
  ghost function AskedKey(es: seq<Event>, t: Caller): Option<string> {
    if es == [] then None
    else
      var e := es[|es| - 1];
      if e.Lookup? && e.t == t then Some(e.key) else AskedKey(es[..|es| - 1], t)
  }

  lemma {:induction false} KeepsToKey(es: seq<Event>, s: State, t: Caller)
    requires Leads(Init(), es, s) && t in s.pc
    ensures AskedKey(es, t) == Some(s.pc[t].key)
    decreases |es|
  {
    if es != [] {
      var init, e := es[..|es| - 1], es[|es| - 1];
      var m := LastEvent(Init(), es, s);
      hide Leads;
      if t in m.pc { KeepsToKey(init, m, t); }
    }
  }

  // ... and so every caller is answered with what the function gave for the key
  // it asked for.
  lemma AnswerIsResult(es: seq<Event>, s: State, t: Caller)
    requires Leads(Init(), es, s) && t in s.pc && s.pc[t].Answered?
    ensures exists key :: AskedKey(es, t) == Some(key) && Gave(es, key, s.pc[t].out)
  {
    KeepsToKey(es, s, t);
    LeadsInv(Init(), es, s);
    assert CallerInv(s, t);
    EntryIsResult(es, s, s.pc[t].key);
  }

  // ---------------------------------------------------------------------
  // What the surroundings decide

  lemma {:induction false} LeadsOn(s: State, es: seq<Event>, m: State, e: Event)
    requires Leads(s, es, m) && Enabled(m, e)
    ensures Leads(s, es + [e], Next(m, e))
    decreases |es|
  {
    if es == [] {
      assert [] + [e] == [e] && [e][1..] == [];
    } else {
      LeadsOn(Next(s, es[0]), es[1..], m, e);
      assert (es + [e])[1..] == es[1..] + [e] && (es + [e])[0] == es[0];
    }
  }

  // Anybody can ask for any key, and a computation can come back with any value
  // or any error.
  lemma AnythingMayHappen(es: seq<Event>, s: State, t: Caller, e: Event)
    requires Leads(Init(), es, s)
    requires (e.Lookup? && e.t == t && t !in s.pc) || (e.Finish? && e.t == t && t in s.pc && s.pc[t].Computing?)
    ensures exists s' :: Leads(Init(), es + [e], s')
  {
    LeadsOn(Init(), es, s, e);
  }
}
