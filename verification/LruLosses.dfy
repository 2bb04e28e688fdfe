/** When a key's entry is lost (ttlcache.go): over every interleaving of lock
    sections, exactly by which sections, and which of them take a live entry. */
module LruLosses {
  import opened Base
  import opened LruCache
  import opened LruInterleaving

  // A caller in t found key expired, and removes whatever it maps to by now.
  ghost predicate Removes<K, V>(s: System<K, V>, section: Section<K, V>, key: K) {
    section.Finish? && section.t in s.pending && s.pending[section.t].ToRemove? && s.pending[section.t].key == key
  }

  // A new key is set in a full cache, and the last element carries key.
  ghost predicate Evicts<K, V>(s: System<K, V>, section: Section<K, V>, key: K)
    requires Weak(s.cache)
  {
    var c := s.cache;
    section.Store? && section.key !in c.store && |c.order| == c.size && c.entries[c.order[|c.order| - 1]].key == key
  }

  // The section after which key has no entry, whatever it had before.
  ghost predicate Drops<K, V>(s: System<K, V>, section: Section<K, V>, key: K)
    requires Weak(s.cache)
  {
    || Removes(s, section, key)
    || Evicts(s, section, key)
    || (section.Discard? && section.key == key)
    || (section.Clean? && key in s.cache.store
        && IsExpired(s.cache.entries[s.cache.store[key]], s.cache.expiryBuffer, section.now))
  }

  ghost predicate Sets<K, V>(section: Section<K, V>, key: K) {
    section.Store? && section.key == key
  }

  lemma StoreDrops<K, V>(c: Cache<K, V>, k: K, value: V, expiresAt: int, key: K)
    requires Weak(c)
    ensures Held(SetIn(c, k, value, expiresAt), key)
            == if k !in c.store && |c.order| == c.size && c.entries[c.order[|c.order| - 1]].key == key then None
               else if k == key then Some(Entry(key, value, expiresAt))
               else Held(c, key)
  {
    if k !in c.store {
      PushDrops(c, k, value, expiresAt, key);
    } else {
      UpdateDrops(c, k, value, expiresAt, key);
    }
  }

  lemma PushDrops<K, V>(c: Cache<K, V>, k: K, value: V, expiresAt: int, key: K)
    requires Weak(c) && k !in c.store
    ensures Held(SetIn(c, k, value, expiresAt), key)
            == if |c.order| == c.size && c.entries[c.order[|c.order| - 1]].key == key then None
               else if k == key then Some(Entry(key, value, expiresAt))
               else Held(c, key)
  {
    var pushed := PushFront(c, k, value, expiresAt);
    assert c.next !in c.order;
    assert |c.order| == c.size ==> pushed.order[|pushed.order| - 1] == c.order[|c.order| - 1];
    hide Remove, Distinct;
  }

  lemma UpdateDrops<K, V>(c: Cache<K, V>, k: K, value: V, expiresAt: int, key: K)
    requires Weak(c) && k in c.store
    ensures Held(SetIn(c, k, value, expiresAt), key)
            == if k == key then Some(Entry(key, value, expiresAt)) else Held(c, key)
  {
    assert c.store[k] in c.order;
    assert c.entries[c.store[k]].key == k;
    if key in c.store { assert c.entries[c.store[key]].key == key; }
    hide MoveToFront, Distinct;
  }

  lemma CleanDrops<K, V>(c: Cache<K, V>, now: int, key: K)
    requires Weak(c)
    ensures Held(CleanKeys(c, c.store.Keys, now), key)
            == if key in c.store && IsExpired(c.entries[c.store[key]], c.expiryBuffer, now) then None else Held(c, key)
  {
    if key in c.store && c.store[key] in Dead(c, c.store.Keys, now) {
      var k :| k in c.store && c.store[k] == c.store[key] && IsExpired(c.entries[c.store[k]], c.expiryBuffer, now);
    }
  }

  // What one section does to a key's entry.
  lemma RunDrops<K, V>(s: System<K, V>, section: Section<K, V>, key: K)
    requires Weak(s.cache) && HeldElements(s)
    ensures Held(Run(s, section).cache, key)
            == if Drops(s, section, key) then None
               else if Sets(section, key) then Some(Entry(key, section.value, section.expiresAt))
               else Held(s.cache, key)
  {
    hide Weak, HeldElements;
    match section {
      case Find(t, k, now) =>
      case Finish(t) =>
      case Store(k, value, expiresAt) => StoreDrops(s.cache, k, value, expiresAt, key); hide SetIn, Held;
      case Discard(k) =>
      case Clean(now) => CleanDrops(s.cache, now, key); hide CleanKeys, Held;
    }
  }

  // Finishing a Get takes a live key away exactly when it removes a key that is
  // live by then: the entry found expired was set anew in the meantime, in place
  // or as a new element.
  lemma FinishLosesExactly<K, V>(s: System<K, V>, t: Thread, now: int)
    requires Weak(s.cache) && HeldElements(s) && t in s.pending
    ensures (exists key :: Lookup(s.cache, key, now).Hit? && !Lookup(Run(s, Finish(t)).cache, key, now).Hit?)
            <==> s.pending[t].ToRemove? && Lookup(s.cache, s.pending[t].key, now).Hit?
  {
    if s.pending[t].ToRemove? {
      assert !Lookup(Run(s, Finish(t)).cache, s.pending[t].key, now).Hit?;
    }
  }

  // ---------------------------------------------------------------------
  // Over runs

  // Section i drops key, and key is not set again after it.
  ghost predicate LostAt<K, V>(size: nat, buffer: int, run: seq<Section<K, V>>, key: K, i: nat) {
    && i < |run| && Weak(After(size, buffer, run[..i]).cache) && Drops(After(size, buffer, run[..i]), run[i], key)
    && forall j | i < j < |run| :: !Sets(run[j], key)
  }

  ghost predicate Lost<K, V>(size: nat, buffer: int, run: seq<Section<K, V>>, key: K) {
    exists i :: LostAt(size, buffer, run, key, i)
  }

  lemma LostStep<K, V>(size: nat, buffer: int, init: seq<Section<K, V>>, x: Section<K, V>, key: K)
    requires Weak(After(size, buffer, init).cache)
    ensures Lost(size, buffer, init + [x], key)
            <==> Drops(After(size, buffer, init), x, key) || (!Sets(x, key) && Lost(size, buffer, init, key))
  {
    hide Drops, Sets, After, Weak;
    var run := init + [x];
    assert run[..|init|] == init;
    assert LostAt(size, buffer, run, key, |init|) <==> Drops(After(size, buffer, init), x, key);
    forall i: nat | i < |init|
      ensures LostAt(size, buffer, run, key, i) <==> LostAt(size, buffer, init, key, i) && !Sets(x, key)
    {
      assert run[..i] == init[..i] && run[i] == init[i];
      assert forall j | 0 <= j < |init| :: run[j] == init[j];
      assert run[|init|] == x;
    }
    if i: nat :| LostAt(size, buffer, run, key, i) { assert i < |init| || i == |init|; }
    if i: nat :| LostAt(size, buffer, init, key, i) { assert LostAt(size, buffer, run, key, i) <==> !Sets(x, key); }
  }

  // After any run a key holds the entry last stored under it, unless a section
  // dropped it since.
  lemma {:induction false} HeldExactly<K, V>(size: nat, buffer: int, run: seq<Section<K, V>>, key: K)
    ensures Held(After(size, buffer, run).cache, key)
            == if Lost(size, buffer, run, key) then None else LastStored(run, key)
  {
    if run != [] {
      var init, x := run[..|run| - 1], run[|run| - 1];
      assert run == init + [x];
      HeldExactly(size, buffer, init, key);
      WeakAlways(size, buffer, init);
      RunDrops(After(size, buffer, init), x, key);
      LostStep(size, buffer, init, x, key);
      LastStoredAppend(init, x, key);
      AfterAppend(size, buffer, init, x);
      hide Drops, Lost, After, LastStored, Held, Weak, HeldElements, Run;
      DiscardDrops(After(size, buffer, init), x, key);
    }
  }

  lemma DiscardDrops<K, V>(s: System<K, V>, x: Section<K, V>, key: K)
    requires Weak(s.cache)
    ensures x.Discard? && x.key == key ==> Drops(s, x, key)
  {
  }

  // No cleanup ran later than now.
  ghost predicate CleanedBy<K, V>(run: seq<Section<K, V>>, now: int) {
    forall i | 0 <= i < |run| && run[i].Clean? :: run[i].now <= now
  }

  // Section i takes the entry of key away though it may be live: by eviction, or
  // by finishing a Get that found an earlier entry of key expired.
  ghost predicate TakenAt<K, V>(size: nat, buffer: int, run: seq<Section<K, V>>, key: K, i: nat) {
    && i < |run| && Weak(After(size, buffer, run[..i]).cache)
    && (Evicts(After(size, buffer, run[..i]), run[i], key) || Removes(After(size, buffer, run[..i]), run[i], key))
    && forall j | i < j < |run| :: !Sets(run[j], key)
  }

  // A key whose last stored entry is not expired is answered in every run,
  // except exactly after an eviction of the key, or after a Get that removes it
  // because it found it expired earlier, with no later Set of the key.
  lemma LiveLostExactly<K, V>(size: nat, buffer: int, run: seq<Section<K, V>>, key: K, now: int)
    requires LastStored(run, key).Some? && now <= LastStored(run, key).value.expiresAt - buffer && CleanedBy(run, now)
    ensures Lookup(After(size, buffer, run).cache, key, now).Hit? <==> !exists i :: TakenAt(size, buffer, run, key, i)
  {
    HeldExactly(size, buffer, run, key);
    WeakAlways(size, buffer, run);
    assert Lookup(After(size, buffer, run).cache, key, now).Hit? <==> !Lost(size, buffer, run, key);
    hide After, Lookup, Held, Weak, Evicts, Removes;
    forall i: nat ensures LostAt(size, buffer, run, key, i) <==> TakenAt(size, buffer, run, key, i) {
      if LostAt(size, buffer, run, key, i) && !TakenAt(size, buffer, run, key, i) {
        NotCleaned(size, buffer, run, key, i, now);
      }
    }
  }

  // What a Discard or a Clean drops is not the last stored entry, or is expired.
  lemma NotCleaned<K, V>(size: nat, buffer: int, run: seq<Section<K, V>>, key: K, i: nat, now: int)
    requires i < |run| && CleanedBy(run, now) && (forall j | i <= j < |run| :: !Sets(run[j], key))
    requires LastStored(run, key).Some? && now <= LastStored(run, key).value.expiresAt - buffer
    ensures run[i] != Discard(key)
    ensures var s := After(size, buffer, run[..i]);
      run[i].Clean? && key in s.cache.store && s.cache.store[key] in s.cache.entries ==>
        s.cache.expiryBuffer == buffer && !IsExpired(s.cache.entries[s.cache.store[key]], buffer, run[i].now)
  {
    LastStoredPrefix(run, key, i);
    WeakAlways(size, buffer, run[..i]);
    if Held(After(size, buffer, run[..i]).cache, key).Some? {
      HeldIsLastStored(size, buffer, run[..i], key);
    }
  }

  lemma {:induction false} LastStoredPrefix<K, V>(run: seq<Section<K, V>>, key: K, i: nat)
    requires i < |run| && LastStored(run, key).Some? && forall j | i <= j < |run| :: !Sets(run[j], key)
    ensures LastStored(run[..i], key) == LastStored(run, key) && run[i] != Discard(key)
    decreases |run|
  {
    var init := run[..|run| - 1];
    assert LastStored(run, key) == LastStored(init, key);
    if i < |init| {
      assert init[..i] == run[..i];
      assert forall j | 0 <= j < |init| :: init[j] == run[j];
      LastStoredPrefix(init, key, i);
    }
  }

  // ---------------------------------------------------------------------
  // A removal overtaken in place

  // The second Set refreshes the element the pending removal holds, so no
  // removal meets another element and map and list agree throughout; the fresh
  // entry is lost all the same.
  lemma InPlaceLosesKey()
    ensures var run := [Store(7, 1, 10), Find(0, 7, 20), Store(7, 2, 90), Finish(0)];
      && NeverOvertaken(4, 0, run) && LastStored(run, 7) == Some(Entry(7, 2, 90))
      && Lookup(After(4, 0, run[..3]).cache, 7, 21) == Hit(0, 2)
      && Lookup(After(4, 0, run).cache, 7, 21) == Missing && Strong(After(4, 0, run).cache)
  {
    var r0: seq<Section<int, int>> := [];
    var r1 := r0 + [Store(7, 1, 10)];
    var r2 := r1 + [Find(0, 7, 20)];
    var r3 := r2 + [Store(7, 2, 90)];
    var r4 := r3 + [Finish(0)];
    assert r4 == [Store(7, 1, 10), Find(0, 7, 20), Store(7, 2, 90), Finish(0)];
    assert r4[..0] == r0 && r4[..1] == r1 && r4[..2] == r2 && r4[..3] == r3;
    LastStoredAppend(r3, Finish(0), 7);
    LastStoredAppend(r2, Store(7, 2, 90), 7);
    AfterAppend(4, 0, r0, Store(7, 1, 10));
    AfterAppend(4, 0, r1, Find(0, 7, 20));
    AfterAppend(4, 0, r2, Store(7, 2, 90));
    AfterAppend(4, 0, r3, Finish(0));
    assert After(4, 0, r0) == System(New(4, 0), map[]);
    hide After, LastStored, NeverOvertaken;
    InPlaceSteps();
    NotOvertaken(r4);
  }

  ghost function Key7(e: Entry<int, int>, pending: map<Thread, Pending<int>>): System<int, int> {
    System(Cache(4, 0, map[7 := 0], [0], map[0 := e], 1), pending)
  }

  lemma InPlaceSteps()
    ensures Run(System(New(4, 0), map[]), Store(7, 1, 10)) == Key7(Entry(7, 1, 10), map[])
    ensures Run(Key7(Entry(7, 1, 10), map[]), Find(0, 7, 20)) == Key7(Entry(7, 1, 10), map[0 := ToRemove(7, 0)])
    ensures Run(Key7(Entry(7, 1, 10), map[0 := ToRemove(7, 0)]), Store(7, 2, 90))
            == Key7(Entry(7, 2, 90), map[0 := ToRemove(7, 0)])
    ensures Run(Key7(Entry(7, 2, 90), map[0 := ToRemove(7, 0)]), Finish(0)).cache
            == Cache(4, 0, map[], [], map[0 := Entry(7, 2, 90)], 1)
  {
    assert MoveToFront([0], 0) == [0] && Remove([0], 0) == [];
  }

  // Only a Finish can be overtaken.
  lemma NotOvertaken(run: seq<Section<int, int>>)
    requires |run| == 4 && !run[0].Finish? && !run[1].Finish? && !run[2].Finish? && run[3] == Finish(0)
    requires After(4, 0, run[..3])
          == System(Cache(4, 0, map[7 := 0], [0], map[0 := Entry(7, 2, 90)], 1), map[0 := ToRemove(7, 0)])
    ensures NeverOvertaken(4, 0, run)
  {
    hide After;
  }
}
