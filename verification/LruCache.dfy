/** The size-bounded LRU cache with per-entry expiry (ttlcache.go). List
    elements are numbered in allocation order; times are explicit. */
module LruCache {
  import opened Base

  datatype Entry<K, V> = Entry(key: K, value: V, expiresAt: int)

  // The identity of a list element; an element taken off the list stays allocated.
  type Elem = nat

  // The cache's fields as one value. entries is the heap of list elements.
  datatype Cache<K, V> = Cache(size: nat, expiryBuffer: int, store: map<K, Elem>, order: seq<Elem>,
                               entries: map<Elem, Entry<K, V>>, next: Elem)

  predicate IsExpired<K, V>(e: Entry<K, V>, buffer: int, now: int) {
    now > e.expiresAt - buffer
  }

  // ---------------------------------------------------------------------
  // container/list: both operations ignore elements not on the list

  function Remove(order: seq<Elem>, e: Elem): seq<Elem> {
    if order == [] then []
    else if order[0] == e then order[1..]
    else [order[0]] + Remove(order[1..], e)
  }

  function MoveToFront(order: seq<Elem>, e: Elem): seq<Elem> {
    if e in order then [e] + Remove(order, e) else order
  }

  lemma {:induction false} RemoveElems(order: seq<Elem>, e: Elem)
    requires Distinct(order)
    ensures Distinct(Remove(order, e))
    ensures forall x :: x in Remove(order, e) <==> x in order && x != e
    ensures |Remove(order, e)| == |order| - (if e in order then 1 else 0)
  {
    if order != [] {
      RemoveElems(order[1..], e);
      assert forall x :: x in order <==> x == order[0] || x in order[1..];
      assert order[0] !in order[1..];
    }
  }

  lemma MoveToFrontElems(order: seq<Elem>, e: Elem)
    requires Distinct(order)
    ensures Distinct(MoveToFront(order, e)) && |MoveToFront(order, e)| == |order|
    ensures forall x :: x in MoveToFront(order, e) <==> x in order
  {
    RemoveElems(order, e);
  }

  // ---------------------------------------------------------------------
  // The lock sections, as functions of the fields

  datatype Found<V> = Missing | Stale(e: Elem) | Hit(e: Elem, value: V)

  // The read section of Get.
  function Lookup<K, V>(c: Cache<K, V>, key: K, now: int): Found<V> {
    if key !in c.store || c.store[key] !in c.entries then Missing
    else
      var e := c.store[key];
      if IsExpired(c.entries[e], c.expiryBuffer, now) then Stale(e)
      else Hit(e, c.entries[e].value)
  }

  // The write section of a hit.
  function Promote<K, V>(c: Cache<K, V>, e: Elem): Cache<K, V> {
    c.(order := MoveToFront(c.order, e))
  }

  // The write section of a stale entry.
  function RemoveEntry<K, V>(c: Cache<K, V>, key: K, e: Elem): Cache<K, V> {
    c.(order := Remove(c.order, e), store := c.store - {key})
  }

  function EvictOldest<K, V>(c: Cache<K, V>): Cache<K, V> {
    if c.order == [] then c
    else
      var oldest := c.order[|c.order| - 1];
      if oldest in c.entries then
        c.(store := c.store - {c.entries[oldest].key}, order := Remove(c.order, oldest))
      else c.(order := Remove(c.order, oldest))
  }

  function SetIn<K, V>(c: Cache<K, V>, key: K, value: V, expiresAt: int): Cache<K, V> {
    if key in c.store && c.store[key] in c.entries then
      var e := c.store[key];
      c.(order := MoveToFront(c.order, e),
         entries := c.entries[e := c.entries[e].(value := value, expiresAt := expiresAt)])
    else
      var pushed := PushFront(c, key, value, expiresAt);
      if |pushed.order| > c.size then EvictOldest(pushed) else pushed
  }

  function PushFront<K, V>(c: Cache<K, V>, key: K, value: V, expiresAt: int): Cache<K, V> {
    c.(entries := c.entries[c.next := Entry(key, value, expiresAt)], next := c.next + 1,
       order := [c.next] + c.order, store := c.store[key := c.next])
  }

  function DeleteIn<K, V>(c: Cache<K, V>, key: K): Cache<K, V> {
    if key in c.store then c.(order := Remove(c.order, c.store[key]), store := c.store - {key}) else c
  }

  // cleanup's effect on one key of the store.
  function CleanKey<K, V>(c: Cache<K, V>, key: K, now: int): Cache<K, V> {
    if key in c.store && c.store[key] in c.entries && IsExpired(c.entries[c.store[key]], c.expiryBuffer, now)
    then DeleteIn(c, key) else c
  }

  // ---------------------------------------------------------------------
  // Invariants

  // Holds whatever stale elements the sections are given: every value of the
  // map is a listed element carrying that key, and the list is within size.
  ghost predicate Weak<K, V>(c: Cache<K, V>) {
    && c.size >= 1 && Distinct(c.order) && |c.order| <= c.size
    && (forall e | e in c.order :: e in c.entries)
    && (forall e | e in c.entries :: e < c.next)
    && (forall k | k in c.store :: c.store[k] in c.order && c.entries[c.store[k]].key == k)
  }

  // Map and list are in bijection.
  ghost predicate Strong<K, V>(c: Cache<K, V>) {
    Weak(c) && forall e | e in c.order :: c.entries[e].key in c.store && c.store[c.entries[e].key] == e
  }

  function New<K, V>(size: int, expiryBuffer: int): Cache<K, V> {
    Cache(if size > 0 then size else 1024, expiryBuffer, map[], [], map[], 0)
  }

  lemma PromoteKeeps<K, V>(c: Cache<K, V>, e: Elem)
    requires Weak(c)
    ensures Weak(Promote(c, e))
    ensures Strong(c) ==> Strong(Promote(c, e))
  {
    MoveToFrontElems(c.order, e);
  }

  lemma RemoveEntryKeeps<K, V>(c: Cache<K, V>, key: K, e: Elem)
    requires Weak(c) && e in c.entries && c.entries[e].key == key
    ensures Weak(RemoveEntry(c, key, e))
  {
    RemoveElems(c.order, e);
  }

  // The bijection survives exactly when e is still the key's element or the key
  // is gone: a key set anew in between loses its map entry but not its element.
  lemma RemoveEntryExact<K, V>(c: Cache<K, V>, key: K, e: Elem)
    requires Strong(c) && e in c.entries && c.entries[e].key == key
    ensures Strong(RemoveEntry(c, key, e)) <==> (key in c.store ==> c.store[key] == e)
  {
    RemoveElems(c.order, e);
    RemoveEntryKeeps(c, key, e);
    var after := RemoveEntry(c, key, e);
    if key in c.store && c.store[key] != e {
      assert c.store[key] in after.order && after.entries[c.store[key]].key !in after.store;
    }
  }

  lemma DeleteKeeps<K, V>(c: Cache<K, V>, key: K)
    requires Weak(c)
    ensures Weak(DeleteIn(c, key))
    ensures Strong(c) ==> Strong(DeleteIn(c, key))
  {
    if key in c.store { RemoveElems(c.order, c.store[key]); }
  }

  // One element too many, the newest at the front: what Set passes to eviction.
  ghost predicate Overfull<K, V>(c: Cache<K, V>) {
    Weak(c.(size := c.size + 1))
  }

  lemma EvictKeeps<K, V>(c: Cache<K, V>)
    requires Overfull(c) && |c.order| == c.size + 1 && c.size >= 1
    ensures Weak(EvictOldest(c))
    ensures Strong(c.(size := c.size + 1)) ==> Strong(EvictOldest(c))
  {
    RemoveElems(c.order, c.order[|c.order| - 1]);
  }

  lemma PushKeeps<K, V>(c: Cache<K, V>, key: K, value: V, expiresAt: int)
    requires Weak(c) && key !in c.store
    ensures var pushed := PushFront(c, key, value, expiresAt);
      && Overfull(pushed) && (Strong(c) ==> Strong(pushed.(size := c.size + 1)))
      && (|c.order| < c.size ==> Weak(pushed) && (Strong(c) ==> Strong(pushed)))
      && |pushed.order| == |c.order| + 1
  {
    var pushed := PushFront(c, key, value, expiresAt);
    assert c.next !in c.order;
    PushOverfull(c, key, value, expiresAt);
    if Strong(c) {
      forall e | e in pushed.order
        ensures pushed.entries[e].key in pushed.store && pushed.store[pushed.entries[e].key] == e
      {
      }
    }
  }

  lemma PushOverfull<K, V>(c: Cache<K, V>, key: K, value: V, expiresAt: int)
    requires Weak(c) && key !in c.store
    ensures Overfull(PushFront(c, key, value, expiresAt))
  {
    assert c.next !in c.order;
  }

  lemma UpdateKeeps<K, V>(c: Cache<K, V>, key: K, value: V, expiresAt: int)
    requires Weak(c) && key in c.store
    ensures Weak(SetIn(c, key, value, expiresAt))
    ensures Strong(c) ==> Strong(SetIn(c, key, value, expiresAt))
  {
    MoveToFrontElems(c.order, c.store[key]);
  }

  lemma WeakBounds<K, V>(c: Cache<K, V>)
    requires Weak(c)
    ensures c.size >= 1 && |c.order| <= c.size
  {
  }

  lemma SetKeeps<K, V>(c: Cache<K, V>, key: K, value: V, expiresAt: int)
    requires Weak(c)
    ensures Weak(SetIn(c, key, value, expiresAt))
    ensures Strong(c) ==> Strong(SetIn(c, key, value, expiresAt))
  {
    if key in c.store {
      UpdateKeeps(c, key, value, expiresAt);
    } else {
      PushKeeps(c, key, value, expiresAt);
      WeakBounds(c);
      hide Weak, Strong, Overfull, EvictOldest;
      var pushed := PushFront(c, key, value, expiresAt);
      if |pushed.order| > c.size {
        EvictKeeps(pushed);
      }
    }
  }

  // cleanup: drop every expired entry of the store, in one lock section.
  ghost function Dead<K, V>(c: Cache<K, V>, keys: set<K>, now: int): set<Elem> {
    set k | k in keys && k in c.store && c.store[k] in c.entries
            && IsExpired(c.entries[c.store[k]], c.expiryBuffer, now) :: c.store[k]
  }

  ghost function Drop(order: seq<Elem>, dead: set<Elem>): seq<Elem> {
    if order == [] then []
    else if order[0] in dead then Drop(order[1..], dead)
    else [order[0]] + Drop(order[1..], dead)
  }

  ghost function CleanKeys<K, V>(c: Cache<K, V>, keys: set<K>, now: int): Cache<K, V> {
    var dead := Dead(c, keys, now);
    c.(order := Drop(c.order, dead), store := map k | k in c.store && c.store[k] !in dead :: c.store[k])
  }

  lemma {:induction false} DropElems(order: seq<Elem>, dead: set<Elem>)
    requires Distinct(order)
    ensures Distinct(Drop(order, dead)) && |Drop(order, dead)| <= |order|
    ensures forall e :: e in Drop(order, dead) <==> e in order && e !in dead
  {
    if order != [] {
      DropElems(order[1..], dead);
      assert order == [order[0]] + order[1..];
    }
  }

  lemma {:induction false} DropOneMore(order: seq<Elem>, dead: set<Elem>, e: Elem)
    requires Distinct(order)
    ensures Drop(order, dead + {e}) == Remove(Drop(order, dead), e)
  {
    if order != [] {
      DropOneMore(order[1..], dead, e);
      DropElems(order[1..], dead);
      if order[0] == e && e !in dead {
        assert e !in order[1..];
        DropAbsent(order[1..], dead, e);
      }
    }
  }

  lemma {:induction false} DropAbsent(order: seq<Elem>, dead: set<Elem>, e: Elem)
    requires e !in order
    ensures Drop(order, dead + {e}) == Drop(order, dead)
  {
    if order != [] {
      DropAbsent(order[1..], dead, e);
    }
  }

  lemma CleanKeysKeeps<K, V>(c: Cache<K, V>, keys: set<K>, now: int)
    requires Weak(c)
    ensures Weak(CleanKeys(c, keys, now))
    ensures Strong(c) ==> Strong(CleanKeys(c, keys, now))
  {
    DropElems(c.order, Dead(c, keys, now));
  }
}
