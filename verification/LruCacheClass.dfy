/** The cache object itself (ttlcache.go): each method is one or two sections
    run under the lock, here with no other caller in between. */
module LruCacheClass {
  import opened Base
  import opened LruCache

  // What a whole call of Get does when nothing happens between its sections.
  function AfterGet<K, V>(c: Cache<K, V>, key: K, now: int): Cache<K, V> {
    match Lookup(c, key, now)
    case Missing => c
    case Stale(e) => RemoveEntry(c, key, e)
    case Hit(e, _) => Promote(c, e)
  }

  function GetResult<K, V>(c: Cache<K, V>, key: K, now: int): Option<V> {
    match Lookup(c, key, now)
    case Hit(_, value) => Some(value)
    case _ => None
  }

  class LRUWithTTL<K(==), V> {
    const size: nat
    const expiryBuffer: int
    var store: map<K, Elem>
    var order: seq<Elem>
    var entries: map<Elem, Entry<K, V>>
    var next: Elem

    function State(): Cache<K, V>
      reads this
    {
      Cache(size, expiryBuffer, store, order, entries, next)
    }

    // Sizes that are not positive mean the default.
    constructor (size: int, expiryBuffer: int)
      ensures State() == New(size, expiryBuffer) && Strong(State())
      ensures this.size == (if size > 0 then size else 1024) && this.expiryBuffer == expiryBuffer
      ensures store == map[] && order == []
    {
      this.size := if size > 0 then size else 1024;
      this.expiryBuffer := expiryBuffer;
      store, order, entries, next := map[], [], map[], 0;
    }

    method Get(key: K, now: int) returns (value: Option<V>)
      requires Weak(State())
      modifies this
      ensures Weak(State()) && (Strong(old(State())) ==> Strong(State()))
      ensures State() == AfterGet(old(State()), key, now)
      ensures value == GetResult(old(State()), key, now)
    {
      if key !in store {
        return None;
      }
      var e := store[key];
      if now > entries[e].expiresAt - expiryBuffer {
        RemoveEntryKeeps(State(), key, e);
        if Strong(State()) { RemoveEntryExact(State(), key, e); }
        RemoveEntry(key, e);
        return None;
      }
      value := Some(entries[e].value);
      PromoteKeeps(State(), e);
      Promote(e);
    }

    method Promote(e: Elem)
      modifies this`order
      ensures State() == LruCache.Promote(old(State()), e)
    {
      order := MoveToFront(order, e);
    }

    method RemoveEntry(key: K, e: Elem)
      modifies this`order, this`store
      ensures State() == LruCache.RemoveEntry(old(State()), key, e)
    {
      order := Remove(order, e);
      store := store - {key};
    }

    method Set(key: K, value: V, expiresAt: int)
      requires Weak(State())
      modifies this
      ensures Weak(State()) && (Strong(old(State())) ==> Strong(State()))
      ensures State() == SetIn(old(State()), key, value, expiresAt)
    {
      SetKeeps(State(), key, value, expiresAt);
      assert key in store ==> store[key] in entries;
      ghost var before := State();
      SetInCases(before, key, value, expiresAt);
      hide Weak, Strong, MoveToFront, SetIn, LruCache.EvictOldest;
      if key in store {
        var e := store[key];
        order := MoveToFront(order, e);
        entries := entries[e := entries[e].(value := value, expiresAt := expiresAt)];
        return;
      }
      var e := next;
      entries := entries[e := Entry(key, value, expiresAt)];
      next := next + 1;
      order := [e] + order;
      store := store[key := e];
      assert State() == PushFront(before, key, value, expiresAt);
      hide PushFront;
      if |order| > size {
        EvictOldest();
      }
    }

    method EvictOldest()
      modifies this`order, this`store
      ensures State() == LruCache.EvictOldest(old(State()))
    {
      if order != [] {
        var oldest := order[|order| - 1];
        if oldest in entries {
          store := store - {entries[oldest].key};
        }
        order := Remove(order, oldest);
      }
    }

    method Delete(key: K)
      requires Weak(State())
      modifies this
      ensures Weak(State()) && (Strong(old(State())) ==> Strong(State()))
      ensures State() == DeleteIn(old(State()), key)
    {
      DeleteKeeps(State(), key);
      if key in store {
        order := Remove(order, store[key]);
        store := store - {key};
      }
    }

    // One pass of cleanup over the store, in any order of its keys.
    method Cleanup(now: int)
      requires Weak(State())
      modifies this
      ensures Weak(State()) && (Strong(old(State())) ==> Strong(State()))
      ensures State() == CleanKeys(old(State()), old(store).Keys, now)
    {
      ghost var before := State();
      CleanKeysKeeps(before, store.Keys, now);
      CleanNothing(before, now);
      ghost var keys := store.Keys;
      ghost var done: set<K> := {};
      hide Strong, CleanKeys;
      var todo := store.Keys;
      while todo != {}
        invariant todo == keys - done && done <= keys == before.store.Keys && Weak(before)
        invariant State() == CleanKeys(before, done, now)
      {
        var key :| key in todo;
        CleanOneMore(before, done, key, now);
        todo := todo - {key};
        done := done + {key};
        if key in store && store[key] in entries && now > entries[store[key]].expiresAt - expiryBuffer {
          order := Remove(order, store[key]);
          store := store - {key};
        }
      }
      assert done == keys;
    }
  }

  lemma SetInCases<K, V>(c: Cache<K, V>, key: K, value: V, expiresAt: int)
    ensures key in c.store && c.store[key] in c.entries ==>
              SetIn(c, key, value, expiresAt)
              == c.(order := MoveToFront(c.order, c.store[key]),
                    entries := c.entries[c.store[key] :=
                                           c.entries[c.store[key]].(value := value, expiresAt := expiresAt)])
    ensures key !in c.store ==>
              var pushed := PushFront(c, key, value, expiresAt);
              SetIn(c, key, value, expiresAt) == if |pushed.order| > c.size then EvictOldest(pushed) else pushed
  {
  }

  lemma CleanNothing<K, V>(c: Cache<K, V>, now: int)
    ensures CleanKeys(c, {}, now) == c
  {
    assert Dead(c, {}, now) == {};
    DropNothing(c.order);
    assert CleanKeys(c, {}, now).store == c.store;
  }

  lemma {:induction false} DropNothing(order: seq<Elem>)
    ensures Drop(order, {}) == order
  {
    if order != [] { DropNothing(order[1..]); }
  }

  lemma CleanOneMore<K, V>(c: Cache<K, V>, keys: set<K>, key: K, now: int)
    requires Weak(c) && key in c.store && key !in keys
    ensures CleanKeys(c, keys + {key}, now) == CleanKey(CleanKeys(c, keys, now), key, now)
  {
    var e := c.store[key];
    var dead, dead' := Dead(c, keys, now), Dead(c, keys + {key}, now);
    var mid := CleanKeys(c, keys, now);
    assert e !in dead by {
      forall k | k in keys && k in c.store ensures c.store[k] != e { assert c.entries[c.store[k]].key == k; }
    }
    assert key in mid.store && mid.store[key] == e;
    if IsExpired(c.entries[e], c.expiryBuffer, now) {
      assert dead' == dead + {e};
      DropOneMore(c.order, dead, e);
      forall k | k in c.store && c.store[k] == e ensures k == key { assert c.entries[c.store[k]].key == k; }
      assert CleanKeys(c, keys + {key}, now).store == mid.store - {key};
    } else {
      assert dead' == dead;
    }
  }
}
