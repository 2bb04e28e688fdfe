/** Callers of the cache in any interleaving of its lock sections (ttlcache.go).
    Get gives the lock up between looking a key up and acting on what it found,
    so the element it acts on may have left the list in the meantime. */
module LruInterleaving {
  import opened Base
  import opened LruCache

  type Thread = nat

  // What a Get still has to do after its read section.
  datatype Pending<K> = ToPromote(e: Elem) | ToRemove(key: K, e: Elem)

  datatype System<K, V> = System(cache: Cache<K, V>, pending: map<Thread, Pending<K>>)

  // One lock section, by one caller. Find and Finish are the halves of a Get.
  datatype Section<K, V> = Find(t: Thread, key: K, now: int) | Finish(t: Thread)
                         | Store(key: K, value: V, expiresAt: int) | Discard(key: K) | Clean(now: int)

  // A section its caller cannot be in (a Find inside a Get, a Finish outside
  // one) changes nothing.
  ghost function Run<K, V>(s: System<K, V>, section: Section<K, V>): System<K, V> {
    match section
    case Find(t, key, now) =>
      if t in s.pending then s
      else
        (match Lookup(s.cache, key, now)
         case Missing => s
         case Stale(e) => s.(pending := s.pending[t := ToRemove(key, e)])
         case Hit(e, _) => s.(pending := s.pending[t := ToPromote(e)]))
    case Finish(t) =>
      if t !in s.pending then s
      else
        System(match s.pending[t]
               case ToPromote(e) => Promote(s.cache, e)
               case ToRemove(key, e) => RemoveEntry(s.cache, key, e),
               s.pending - {t})
    case Store(key, value, expiresAt) => s.(cache := SetIn(s.cache, key, value, expiresAt))
    case Discard(key) => s.(cache := DeleteIn(s.cache, key))
    case Clean(now) => s.(cache := CleanKeys(s.cache, s.cache.store.Keys, now))
  }

  ghost function After<K, V>(size: nat, buffer: int, run: seq<Section<K, V>>): System<K, V> {
    if run == [] then System(New(size, buffer), map[])
    else Run(After(size, buffer, run[..|run| - 1]), run[|run| - 1])
  }

  // ---------------------------------------------------------------------
  // What holds in every interleaving

  // The elements callers hold are allocated and carry the key they looked up.
  ghost predicate HeldElements<K, V>(s: System<K, V>) {
    forall t | t in s.pending :: HeldOk(s.cache.entries, s.pending[t])
  }

  ghost predicate HeldOk<K, V>(entries: map<Elem, Entry<K, V>>, p: Pending<K>) {
    p.e in entries && (p.ToRemove? ==> entries[p.e].key == p.key)
  }

  // Elements keep their key for ever.
  ghost predicate KeysKept<K, V>(c: Cache<K, V>, c': Cache<K, V>) {
    forall e | e in c.entries :: e in c'.entries && c'.entries[e].key == c.entries[e].key
  }

  lemma SetKeepsKeys<K, V>(c: Cache<K, V>, key: K, value: V, expiresAt: int)
    requires Weak(c)
    ensures KeysKept(c, SetIn(c, key, value, expiresAt))
  {
  }

  lemma RunWeak<K, V>(s: System<K, V>, section: Section<K, V>)
    requires Weak(s.cache) && HeldElements(s)
    ensures Weak(Run(s, section).cache) && HeldElements(Run(s, section))
    ensures !section.Finish? && Strong(s.cache) ==> Strong(Run(s, section).cache)
    ensures Run(s, section).cache.expiryBuffer == s.cache.expiryBuffer
  {
    match section {
      case Find(t, key, now) =>
      case Finish(t) =>
        if t in s.pending {
          assert HeldOk(s.cache.entries, s.pending[t]);
          match s.pending[t] {
            case ToPromote(e) => PromoteKeeps(s.cache, e);
            case ToRemove(key, e) => RemoveEntryKeeps(s.cache, key, e);
          }
        }
      case Store(key, value, expiresAt) =>
        SetKeeps(s.cache, key, value, expiresAt);
        SetKeepsKeys(s.cache, key, value, expiresAt);
      case Discard(key) => DeleteKeeps(s.cache, key);
      case Clean(now) => CleanKeysKeeps(s.cache, s.cache.store.Keys, now);
    }
  }

  // Whatever the interleaving, every value of the map is a listed element
  // carrying that key, and the list stays within its size.
  lemma {:induction false} WeakAlways<K, V>(size: nat, buffer: int, run: seq<Section<K, V>>)
    ensures Weak(After(size, buffer, run).cache) && HeldElements(After(size, buffer, run))
    ensures After(size, buffer, run).cache.expiryBuffer == buffer
  {
    if run != [] {
      WeakAlways(size, buffer, run[..|run| - 1]);
      RunWeak(After(size, buffer, run[..|run| - 1]), run[|run| - 1]);
    }
  }

  // A Finish that removes an entry whose key has been set anew since.
  ghost predicate Overtaken<K, V>(s: System<K, V>, section: Section<K, V>) {
    && section.Finish? && section.t in s.pending && s.pending[section.t].ToRemove?
    && s.pending[section.t].key in s.cache.store
    && s.cache.store[s.pending[section.t].key] != s.pending[section.t].e
  }

  ghost predicate NeverOvertaken<K, V>(size: nat, buffer: int, run: seq<Section<K, V>>) {
    forall i | 0 <= i < |run| :: !Overtaken(After(size, buffer, run[..i]), run[i])
  }

  lemma RunStrong<K, V>(s: System<K, V>, section: Section<K, V>)
    requires Strong(s.cache) && HeldElements(s)
    ensures Strong(Run(s, section).cache) <==> !Overtaken(s, section)
  {
    RunWeak(s, section);
    if section.Finish? && section.t in s.pending {
      assert HeldOk(s.cache.entries, s.pending[section.t]);
      match s.pending[section.t] {
        case ToPromote(e) => PromoteKeeps(s.cache, e);
        case ToRemove(key, e) => RemoveEntryExact(s.cache, key, e);
      }
    }
  }

  // Map and list stay in bijection all along a run exactly when no removal is
  // overtaken by a new Set of its key.
  lemma {:induction false} StrongExactly<K, V>(size: nat, buffer: int, run: seq<Section<K, V>>)
    ensures NeverOvertaken(size, buffer, run)
            <==> forall i | 0 <= i <= |run| :: Strong(After(size, buffer, run[..i]).cache)
  {
    hide Strong, Overtaken, Run;
    if NeverOvertaken(size, buffer, run) {
      forall i | 0 <= i <= |run| ensures Strong(After(size, buffer, run[..i]).cache) {
        StrongUpTo(size, buffer, run, i);
      }
    }
    if forall i | 0 <= i <= |run| :: Strong(After(size, buffer, run[..i]).cache) {
      forall i | 0 <= i < |run| ensures !Overtaken(After(size, buffer, run[..i]), run[i]) {
        assert run[..i + 1][..i] == run[..i];
        WeakAlways(size, buffer, run[..i]);
        assert Strong(After(size, buffer, run[..i + 1]).cache);
        RunStrong(After(size, buffer, run[..i]), run[i]);
      }
    }
  }

  lemma {:induction false} StrongUpTo<K, V>(size: nat, buffer: int, run: seq<Section<K, V>>, i: nat)
    requires NeverOvertaken(size, buffer, run) && i <= |run|
    ensures Strong(After(size, buffer, run[..i]).cache)
  {
    if i > 0 {
      assert run[..i][..i - 1] == run[..i - 1];
      StrongUpTo(size, buffer, run, i - 1);
      WeakAlways(size, buffer, run[..i - 1]);
      RunStrong(After(size, buffer, run[..i - 1]), run[i - 1]);
    }
  }

  // ---------------------------------------------------------------------
  // Answers are current even when sections interleave

  // The entry last stored under key and not discarded since.
  ghost function LastStored<K, V>(run: seq<Section<K, V>>, key: K): Option<Entry<K, V>> {
    if run == [] then None
    else
      match run[|run| - 1]
      case Store(k, value, expiresAt) =>
        if k == key then Some(Entry(key, value, expiresAt)) else LastStored(run[..|run| - 1], key)
      case Discard(k) => if k == key then None else LastStored(run[..|run| - 1], key)
      case _ => LastStored(run[..|run| - 1], key)
  }

  ghost function Held<K, V>(c: Cache<K, V>, key: K): Option<Entry<K, V>> {
    if key in c.store && c.store[key] in c.entries then Some(c.entries[c.store[key]]) else None
  }

  // One section either leaves a key's entry, loses it, or stores it.
  lemma RunHeld<K, V>(s: System<K, V>, section: Section<K, V>, key: K)
    requires Weak(s.cache) && Held(Run(s, section).cache, key).Some?
    ensures if section.Store? && section.key == key
            then Held(Run(s, section).cache, key) == Some(Entry(key, section.value, section.expiresAt))
            else Held(Run(s, section).cache, key) == Held(s.cache, key) && !(section.Discard? && section.key == key)
  {
    if section.Store? {
      StoreHeld(s.cache, section.key, section.value, section.expiresAt, key);
    }
  }

  lemma StoreHeld<K, V>(c: Cache<K, V>, k: K, value: V, expiresAt: int, key: K)
    requires Weak(c) && Held(SetIn(c, k, value, expiresAt), key).Some?
    ensures Held(SetIn(c, k, value, expiresAt), key)
            == if k == key then Some(Entry(key, value, expiresAt)) else Held(c, key)
  {
    if k !in c.store {
      var pushed := PushFront(c, k, value, expiresAt);
      if |pushed.order| > c.size {
        assert Held(pushed, key) == Held(EvictOldest(pushed), key);
      }
    }
  }

  lemma {:induction false} HeldIsLastStored<K, V>(size: nat, buffer: int, run: seq<Section<K, V>>, key: K)
    requires Held(After(size, buffer, run).cache, key).Some?
    ensures Held(After(size, buffer, run).cache, key) == LastStored(run, key)
  {
    if run != [] {
      var init := run[..|run| - 1];
      WeakAlways(size, buffer, init);
      RunHeld(After(size, buffer, init), run[|run| - 1], key);
      if Held(After(size, buffer, init).cache, key).Some? {
        HeldIsLastStored(size, buffer, init, key);
      }
    }
  }

  // In any interleaving, an answered Get returns the value last set when it
  // looked, and that value was not expired then.
  lemma AnswersAreCurrent<K, V>(size: nat, buffer: int, run: seq<Section<K, V>>, key: K, now: int)
    requires Lookup(After(size, buffer, run).cache, key, now).Hit?
    ensures LastStored(run, key).Some?
    ensures Lookup(After(size, buffer, run).cache, key, now).value == LastStored(run, key).value.value
    ensures now <= LastStored(run, key).value.expiresAt - buffer
  {
    HeldIsLastStored(size, buffer, run, key);
    WeakAlways(size, buffer, run);
  }

  // ---------------------------------------------------------------------
  // A run in which a freshly set key is lost

  // One caller finds key 7 expired; before it removes the entry, the key is
  // deleted and set again. The removal then takes the new mapping away and
  // leaves the new element on the list without one.
  lemma OvertakenLosesKey()
    ensures var run := [Store(7, 1, 10), Find(0, 7, 20), Discard(7), Store(7, 2, 90), Finish(0)];
      && LastStored(run, 7) == Some(Entry(7, 2, 90))
      && Lookup(After(4, 0, run).cache, 7, 21) == Missing
      && After(4, 0, run).cache.order == [1]
  {
    var r0: seq<Section<int, int>> := [];
    var r1 := r0 + [Store(7, 1, 10)];
    var r2 := r1 + [Find(0, 7, 20)];
    var r3 := r2 + [Discard(7)];
    var r4 := r3 + [Store(7, 2, 90)];
    var r5 := r4 + [Finish(0)];
    assert r5 == [Store(7, 1, 10), Find(0, 7, 20), Discard(7), Store(7, 2, 90), Finish(0)];
    LastStoredAppend(r4, Finish(0), 7);
    LastStoredAppend(r3, Store(7, 2, 90), 7);
    AfterAppend(4, 0, r0, Store(7, 1, 10));
    AfterAppend(4, 0, r1, Find(0, 7, 20));
    AfterAppend(4, 0, r2, Discard(7));
    AfterAppend(4, 0, r3, Store(7, 2, 90));
    AfterAppend(4, 0, r4, Finish(0));
    assert After(4, 0, r0) == System(New(4, 0), map[]);
    hide After;
    var old7, new7 := Entry(7, 1, 10), Entry(7, 2, 90);
    assert After(4, 0, r1) == System(Cache(4, 0, map[7 := 0], [0], map[0 := old7], 1), map[]);
    assert After(4, 0, r2) == System(Cache(4, 0, map[7 := 0], [0], map[0 := old7], 1), map[0 := ToRemove(7, 0)]);
    assert After(4, 0, r3) == System(Cache(4, 0, map[], [], map[0 := old7], 1), map[0 := ToRemove(7, 0)]);
    assert After(4, 0, r4)
        == System(Cache(4, 0, map[7 := 1], [1], map[0 := old7, 1 := new7], 2), map[0 := ToRemove(7, 0)]);
    assert Remove([1], 0) == [1] by { assert [1] == [1] + Remove([], 0); }
    assert After(4, 0, r5).cache == Cache(4, 0, map[], [1], map[0 := old7, 1 := new7], 2);
  }

  lemma AfterAppend<K, V>(size: nat, buffer: int, run: seq<Section<K, V>>, section: Section<K, V>)
    ensures After(size, buffer, run + [section]) == Run(After(size, buffer, run), section)
  {
    assert (run + [section])[..|run|] == run;
  }

  lemma LastStoredAppend<K, V>(run: seq<Section<K, V>>, section: Section<K, V>, key: K)
    ensures LastStored(run + [section], key)
            == match section
               case Store(k, value, expiresAt) =>
                 if k == key then Some(Entry(key, value, expiresAt)) else LastStored(run, key)
               case Discard(k) => if k == key then None else LastStored(run, key)
               case _ => LastStored(run, key)
  {
    assert (run + [section])[..|run|] == run;
  }
}
