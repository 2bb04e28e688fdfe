/** Called one operation at a time, the cache is a list of entries in order of
    recency (ttlcache.go). */
module LruRecency {
  import opened Base
  import opened LruCache
  import opened LruCacheClass

  type Recency<K, V> = seq<Entry<K, V>>

  // The list, most recent first.
  ghost function View<K, V>(order: seq<Elem>, entries: map<Elem, Entry<K, V>>): Recency<K, V>
    requires forall e | e in order :: e in entries
  {
    if order == [] then [] else [entries[order[0]]] + View(order[1..], entries)
  }

  ghost function RecencyOf<K, V>(c: Cache<K, V>): Recency<K, V>
    requires Weak(c)
  {
    View(c.order, c.entries)
  }

  // ---------------------------------------------------------------------
  // The simple cache

  ghost function Without<K, V>(s: Recency<K, V>, key: K): Recency<K, V> {
    if s == [] then []
    else if s[0].key == key then Without(s[1..], key)
    else [s[0]] + Without(s[1..], key)
  }

  ghost function Unexpired<K, V>(s: Recency<K, V>, buffer: int, now: int): Recency<K, V> {
    if s == [] then []
    else if IsExpired(s[0], buffer, now) then Unexpired(s[1..], buffer, now)
    else [s[0]] + Unexpired(s[1..], buffer, now)
  }

  ghost function Truncate<K, V>(s: Recency<K, V>, size: nat): Recency<K, V> {
    if |s| > size then s[..size] else s
  }

  ghost function Find<K, V>(s: Recency<K, V>, key: K): Option<Entry<K, V>> {
    if s == [] then None else if s[0].key == key then Some(s[0]) else Find(s[1..], key)
  }

  datatype Op<K, V> = Get(key: K, now: int) | Set(key: K, value: V, ttl: int, now: int)
                    | Delete(key: K, now: int) | Cleanup(now: int)

  ghost function Step<K, V>(s: Recency<K, V>, size: nat, buffer: int, op: Op<K, V>): Recency<K, V> {
    match op
    case Get(key, now) =>
      (match Find(s, key)
       case None => s
       case Some(e) => if IsExpired(e, buffer, now) then Without(s, key) else [e] + Without(s, key))
    case Set(key, value, ttl, now) => Truncate([Entry(key, value, now + ttl)] + Without(s, key), size)
    case Delete(key, _) => Without(s, key)
    case Cleanup(now) => Unexpired(s, buffer, now)
  }

  ghost function Answer<K, V>(s: Recency<K, V>, buffer: int, key: K, now: int): Option<V> {
    match Find(s, key)
    case None => None
    case Some(e) => if IsExpired(e, buffer, now) then None else Some(e.value)
  }

  // ---------------------------------------------------------------------
  // Lists

  ghost predicate OneKeyEach<K, V>(order: seq<Elem>, entries: map<Elem, Entry<K, V>>) {
    && Distinct(order) && (forall e | e in order :: e in entries)
    && forall d, e | d in order && e in order && entries[d].key == entries[e].key :: d == e
  }

  lemma StrongOneKeyEach<K, V>(c: Cache<K, V>)
    requires Strong(c)
    ensures OneKeyEach(c.order, c.entries)
  {
  }

  lemma {:induction false} ViewIndex<K, V>(order: seq<Elem>, entries: map<Elem, Entry<K, V>>)
    requires forall e | e in order :: e in entries
    ensures |View(order, entries)| == |order|
    ensures forall i | 0 <= i < |order| :: View(order, entries)[i] == entries[order[i]]
  {
    if order != [] { ViewIndex(order[1..], entries); }
  }

  lemma {:induction false} ViewFrame<K, V>(order: seq<Elem>, entries: map<Elem, Entry<K, V>>,
                                           entries': map<Elem, Entry<K, V>>)
    requires forall e | e in order :: e in entries && e in entries' && entries'[e] == entries[e]
    ensures View(order, entries') == View(order, entries)
  {
    if order != [] { ViewFrame(order[1..], entries, entries'); }
  }

  lemma {:induction false} ViewWithout<K, V>(order: seq<Elem>, entries: map<Elem, Entry<K, V>>, key: K)
    requires forall e | e in order :: e in entries && entries[e].key != key
    ensures Without(View(order, entries), key) == View(order, entries)
  {
    if order != [] { ViewWithout(order[1..], entries, key); }
  }

  lemma {:induction false} ViewRemove<K, V>(order: seq<Elem>, entries: map<Elem, Entry<K, V>>, e: Elem)
    requires OneKeyEach(order, entries) && e in order
    ensures forall x | x in Remove(order, e) :: x in entries
    ensures View(Remove(order, e), entries) == Without(View(order, entries), entries[e].key)
  {
    RemoveElems(order, e);
    if order[0] == e {
      assert forall x | x in order[1..] :: x in order;
      assert e !in order[1..];
      ViewWithout(order[1..], entries, entries[e].key);
    } else {
      assert forall x | x in order[1..] :: x in order;
      RemoveElems(order[1..], e);
      ViewRemove(order[1..], entries, e);
    }
  }

  lemma {:induction false} ViewFind<K, V>(order: seq<Elem>, entries: map<Elem, Entry<K, V>>, e: Elem)
    requires OneKeyEach(order, entries) && e in order
    ensures Find(View(order, entries), entries[e].key) == Some(entries[e])
  {
    if order[0] != e {
      assert forall x | x in order[1..] :: x in order;
      assert e in order[1..];
      ViewFind(order[1..], entries, e);
    }
  }

  lemma {:induction false} ViewFindNone<K, V>(order: seq<Elem>, entries: map<Elem, Entry<K, V>>, key: K)
    requires forall e | e in order :: e in entries && entries[e].key != key
    ensures Find(View(order, entries), key) == None
  {
    if order != [] { ViewFindNone(order[1..], entries, key); }
  }

  lemma {:induction false} RemoveLast(order: seq<Elem>)
    requires order != [] && Distinct(order)
    ensures Remove(order, order[|order| - 1]) == order[..|order| - 1]
  {
    if |order| > 1 {
      RemoveLast(order[1..]);
      assert order[1..][|order| - 2] == order[|order| - 1];
      assert [order[0]] + order[1..][..|order| - 2] == order[..|order| - 1];
    }
  }

  lemma ViewPrefix<K, V>(order: seq<Elem>, entries: map<Elem, Entry<K, V>>, n: nat)
    requires n <= |order| && forall e | e in order :: e in entries
    ensures |View(order, entries)| == |order|
    ensures View(order[..n], entries) == View(order, entries)[..n]
  {
    ViewIndex(order, entries);
    ViewIndex(order[..n], entries);
  }

  lemma {:induction false} ViewDrop<K, V>(order: seq<Elem>, entries: map<Elem, Entry<K, V>>, dead: set<Elem>,
                                          buffer: int, now: int)
    requires forall e | e in order :: e in entries
    requires forall e | e in order :: e in dead <==> IsExpired(entries[e], buffer, now)
    ensures forall e | e in Drop(order, dead) :: e in entries
    ensures View(Drop(order, dead), entries) == Unexpired(View(order, entries), buffer, now)
  {
    if order != [] {
      assert forall x | x in order[1..] :: x in order;
      ViewDrop(order[1..], entries, dead, buffer, now);
    }
  }

  // ---------------------------------------------------------------------
  // Refinement

  // The key's element, if any, is the list's only entry for it.
  lemma FindInStore<K, V>(c: Cache<K, V>, key: K)
    requires Strong(c)
    ensures Find(RecencyOf(c), key) == if key in c.store then Some(c.entries[c.store[key]]) else None
  {
    StrongOneKeyEach(c);
    if key in c.store {
      ViewFind(c.order, c.entries, c.store[key]);
    } else {
      ViewFindNone(c.order, c.entries, key);
    }
  }

  lemma GetRefines<K, V>(c: Cache<K, V>, key: K, now: int)
    requires Strong(c)
    ensures Strong(AfterGet(c, key, now))
    ensures RecencyOf(AfterGet(c, key, now)) == Step(RecencyOf(c), c.size, c.expiryBuffer, Get(key, now))
    ensures GetResult(c, key, now) == Answer(RecencyOf(c), c.expiryBuffer, key, now)
  {
    FindInStore(c, key);
    StrongOneKeyEach(c);
    if key in c.store {
      var e := c.store[key];
      RemoveEntryKeeps(c, key, e);
      RemoveEntryExact(c, key, e);
      PromoteKeeps(c, e);
      ViewRemove(c.order, c.entries, e);
    }
  }

  lemma DeleteRefines<K, V>(c: Cache<K, V>, key: K)
    requires Strong(c)
    ensures Strong(DeleteIn(c, key))
    ensures RecencyOf(DeleteIn(c, key)) == Without(RecencyOf(c), key)
  {
    DeleteKeeps(c, key);
    StrongOneKeyEach(c);
    if key in c.store {
      ViewRemove(c.order, c.entries, c.store[key]);
    } else {
      ViewWithout(c.order, c.entries, key);
    }
  }

  lemma CleanupRefines<K, V>(c: Cache<K, V>, now: int)
    requires Strong(c)
    ensures Strong(CleanKeys(c, c.store.Keys, now))
    ensures RecencyOf(CleanKeys(c, c.store.Keys, now)) == Unexpired(RecencyOf(c), c.expiryBuffer, now)
  {
    CleanKeysKeeps(c, c.store.Keys, now);
    var dead := Dead(c, c.store.Keys, now);
    forall e | e in c.order ensures e in dead <==> IsExpired(c.entries[e], c.expiryBuffer, now) {
      assert c.store[c.entries[e].key] == e;
    }
    ViewDrop(c.order, c.entries, dead, c.expiryBuffer, now);
  }

  lemma UpdateRefines<K, V>(c: Cache<K, V>, key: K, value: V, expiresAt: int)
    requires Strong(c) && key in c.store
    ensures Weak(SetIn(c, key, value, expiresAt))
    ensures RecencyOf(SetIn(c, key, value, expiresAt)) == [Entry(key, value, expiresAt)] + Without(RecencyOf(c), key)
  {
    UpdateKeeps(c, key, value, expiresAt);
    var after := SetIn(c, key, value, expiresAt);
    var e := c.store[key];
    StrongOneKeyEach(c);
    RemoveElems(c.order, e);
    ViewRemove(c.order, c.entries, e);
    assert after.order == [e] + Remove(c.order, e);
    ViewFrame(Remove(c.order, e), c.entries, after.entries);
  }

  lemma PushRefines<K, V>(c: Cache<K, V>, key: K, value: V, expiresAt: int)
    requires Strong(c) && key !in c.store
    ensures var pushed := PushFront(c, key, value, expiresAt);
      && (forall e | e in pushed.order :: e in pushed.entries) && Distinct(pushed.order)
      && View(pushed.order, pushed.entries) == [Entry(key, value, expiresAt)] + Without(RecencyOf(c), key)
  {
    var pushed := PushFront(c, key, value, expiresAt);
    PushKeeps(c, key, value, expiresAt);
    ViewWithout(c.order, c.entries, key);
    ViewFrame(c.order, c.entries, pushed.entries);
    assert pushed.order[1..] == c.order;
  }

  lemma EvictRefines<K, V>(c: Cache<K, V>)
    requires Distinct(c.order) && c.order != [] && forall e | e in c.order :: e in c.entries
    ensures EvictOldest(c).order == c.order[..|c.order| - 1]
    ensures |View(c.order, c.entries)| == |c.order|
    ensures View(EvictOldest(c).order, c.entries) == View(c.order, c.entries)[..|c.order| - 1]
  {
    RemoveLast(c.order);
    ViewPrefix(c.order, c.entries, |c.order| - 1);
  }

  lemma InsertRefines<K, V>(c: Cache<K, V>, key: K, value: V, expiresAt: int)
    requires Strong(c) && key !in c.store
    ensures Weak(SetIn(c, key, value, expiresAt))
    ensures RecencyOf(SetIn(c, key, value, expiresAt))
            == Truncate([Entry(key, value, expiresAt)] + Without(RecencyOf(c), key), c.size)
  {
    SetKeeps(c, key, value, expiresAt);
    PushRefines(c, key, value, expiresAt);
    WeakBounds(c);
    var pushed := PushFront(c, key, value, expiresAt);
    hide Weak, Strong, View, Without, EvictOldest;
    if |pushed.order| > c.size {
      EvictRefines(pushed);
      assert SetIn(c, key, value, expiresAt) == EvictOldest(pushed);
      EvictEntries(pushed);
    } else {
      ViewIndex(pushed.order, pushed.entries);
    }
  }

  lemma EvictEntries<K, V>(c: Cache<K, V>)
    ensures EvictOldest(c).entries == c.entries
  {
  }

  lemma SetRefines<K, V>(c: Cache<K, V>, key: K, value: V, ttl: int, now: int)
    requires Strong(c)
    ensures Strong(SetIn(c, key, value, now + ttl))
    ensures RecencyOf(SetIn(c, key, value, now + ttl))
            == Step(RecencyOf(c), c.size, c.expiryBuffer, Set(key, value, ttl, now))
  {
    hide *;
    StrongWeak(c);
    SetKeeps(c, key, value, now + ttl);
    StepSet(RecencyOf(c), c.size, c.expiryBuffer, key, value, ttl, now);
    if key in c.store {
      UpdateRefines(c, key, value, now + ttl);
      FindInStore(c, key);
      ViewLength(c);
      WithoutShorter(RecencyOf(c), key);
      TruncateShort([Entry(key, value, now + ttl)] + Without(RecencyOf(c), key), c.size);
    } else {
      InsertRefines(c, key, value, now + ttl);
    }
  }

  lemma StepSet<K, V>(s: Recency<K, V>, size: nat, buffer: int, key: K, value: V, ttl: int, now: int)
    ensures Step(s, size, buffer, Set(key, value, ttl, now))
            == Truncate([Entry(key, value, now + ttl)] + Without(s, key), size)
  {
  }

  lemma TruncateShort<K, V>(s: Recency<K, V>, size: nat)
    requires |s| <= size
    ensures Truncate(s, size) == s
  {
  }

  lemma StrongWeak<K, V>(c: Cache<K, V>)
    requires Strong(c)
    ensures Weak(c)
  {
  }

  lemma ViewLength<K, V>(c: Cache<K, V>)
    requires Weak(c)
    ensures |RecencyOf(c)| <= c.size
  {
    ViewIndex(c.order, c.entries);
  }

  lemma {:induction false} WithoutShorter<K, V>(s: Recency<K, V>, key: K)
    ensures |Without(s, key)| <= |s|
    ensures Find(s, key).Some? ==> |Without(s, key)| < |s|
  {
    if s != [] { WithoutShorter(s[1..], key); }
  }
}
