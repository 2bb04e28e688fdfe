/** What a caller of the cache can rely on, over whole histories of calls
    (ttlcache.go). */
module LruHistory {
  import opened Base
  import opened LruCache
  import opened LruCacheClass
  import opened LruRecency

  // The cache after a history of calls, and the same on the simple cache.
  ghost function CacheAfter<K, V>(size: nat, buffer: int, ops: seq<Op<K, V>>): Cache<K, V> {
    if ops == [] then New(size, buffer)
    else After(CacheAfter(size, buffer, ops[..|ops| - 1]), ops[|ops| - 1])
  }

  ghost function RecencyAfter<K, V>(size: nat, buffer: int, ops: seq<Op<K, V>>): Recency<K, V> {
    if ops == [] then []
    else Step(RecencyAfter(size, buffer, ops[..|ops| - 1]), size, buffer, ops[|ops| - 1])
  }

  // The cache refines the simple one over every history of whole calls.
  lemma {:induction false} HistoryRefines<K, V>(size: nat, buffer: int, ops: seq<Op<K, V>>)
    requires size > 0
    ensures var c := CacheAfter(size, buffer, ops);
      && Strong(c) && c.size == size && c.expiryBuffer == buffer
      && RecencyOf(c) == RecencyAfter(size, buffer, ops)
  {
    if ops != [] {
      var init := ops[..|ops| - 1];
      HistoryRefines(size, buffer, init);
      StepRefines(CacheAfter(size, buffer, init), ops[|ops| - 1]);
    }
  }

  ghost function After<K, V>(c: Cache<K, V>, op: Op<K, V>): Cache<K, V> {
    match op
    case Get(key, now) => AfterGet(c, key, now)
    case Set(key, value, ttl, now) => SetIn(c, key, value, now + ttl)
    case Delete(key, _) => DeleteIn(c, key)
    case Cleanup(now) => CleanKeys(c, c.store.Keys, now)
  }

  lemma StepRefines<K, V>(c: Cache<K, V>, op: Op<K, V>)
    requires Strong(c)
    ensures Strong(After(c, op)) && After(c, op).size == c.size && After(c, op).expiryBuffer == c.expiryBuffer
    ensures RecencyOf(After(c, op)) == Step(RecencyOf(c), c.size, c.expiryBuffer, op)
  {
    AfterShape(c, op);
    hide Strong, Weak, RecencyOf, View, AfterGet, SetIn, DeleteIn, CleanKeys, Without, Unexpired, Find;
    match op {
      case Get(key, now) => GetRefines(c, key, now);
      case Set(key, value, ttl, now) => SetRefines(c, key, value, ttl, now);
      case Delete(key, _) => DeleteRefines(c, key);
      case Cleanup(now) => CleanupRefines(c, now);
    }
  }

  lemma AfterShape<K, V>(c: Cache<K, V>, op: Op<K, V>)
    ensures After(c, op).size == c.size && After(c, op).expiryBuffer == c.expiryBuffer
  {
  }

  // ---------------------------------------------------------------------
  // Get answers with the last Set

  // The value and expiry last stored under key and not deleted since.
  ghost function LastSet<K, V>(ops: seq<Op<K, V>>, key: K): Option<(V, int)> {
    if ops == [] then None
    else
      match ops[|ops| - 1]
      case Set(k, value, ttl, now) => if k == key then Some((value, now + ttl)) else LastSet(ops[..|ops| - 1], key)
      case Delete(k, _) => if k == key then None else LastSet(ops[..|ops| - 1], key)
      case _ => LastSet(ops[..|ops| - 1], key)
  }

  ghost predicate KeysOnce<K, V>(s: Recency<K, V>) {
    forall i, j | 0 <= i < j < |s| :: s[i].key != s[j].key
  }

  lemma FirstKeyOnce<K, V>(s: Recency<K, V>)
    requires KeysOnce(s) && s != []
    ensures KeysOnce(s[1..]) && forall e | e in s[1..] :: e.key != s[0].key
  {
  }

  lemma PrependKeysOnce<K, V>(x: Entry<K, V>, s: Recency<K, V>)
    requires KeysOnce(s) && forall e | e in s :: e.key != x.key
    ensures KeysOnce([x] + s)
  {
    var t := [x] + s;
    forall i, j | 0 <= i < j < |t| ensures t[i].key != t[j].key {
      assert t[j] == s[j - 1] && s[j - 1] in s;
    }
  }

  lemma {:induction false} InWithout<K, V>(s: Recency<K, V>, key: K, e: Entry<K, V>)
    ensures e in Without(s, key) <==> e in s && e.key != key
  {
    if s != [] {
      InWithout(s[1..], key, e);
      assert s == [s[0]] + s[1..];
    }
  }

  lemma {:induction false} InUnexpired<K, V>(s: Recency<K, V>, buffer: int, now: int, e: Entry<K, V>)
    ensures e in Unexpired(s, buffer, now) <==> e in s && !IsExpired(e, buffer, now)
  {
    if s != [] {
      InUnexpired(s[1..], buffer, now, e);
      assert s == [s[0]] + s[1..];
    }
  }

  lemma {:induction false} WithoutFacts<K, V>(s: Recency<K, V>, key: K)
    ensures KeysOnce(s) ==> KeysOnce(Without(s, key))
  {
    if s != [] {
      WithoutFacts(s[1..], key);
      assert s == [s[0]] + s[1..];
      if KeysOnce(s) {
        FirstKeyOnce(s);
        if s[0].key != key {
          forall e | e in Without(s[1..], key) ensures e.key != s[0].key { InWithout(s[1..], key, e); }
          PrependKeysOnce(s[0], Without(s[1..], key));
        }
      }
    }
  }

  lemma {:induction false} UnexpiredFacts<K, V>(s: Recency<K, V>, buffer: int, now: int)
    ensures KeysOnce(s) ==> KeysOnce(Unexpired(s, buffer, now))
  {
    if s != [] {
      UnexpiredFacts(s[1..], buffer, now);
      assert s == [s[0]] + s[1..];
      if KeysOnce(s) {
        FirstKeyOnce(s);
        forall e | e in Unexpired(s[1..], buffer, now)
          ensures e.key != s[0].key
        {
          InUnexpired(s[1..], buffer, now, e);
        }
        PrependKeysOnce(s[0], Unexpired(s[1..], buffer, now));
      }
    }
  }

  lemma {:induction false} FindFacts<K, V>(s: Recency<K, V>, key: K)
    ensures Find(s, key).Some? ==> Find(s, key).value in s && Find(s, key).value.key == key
    ensures forall e | e in s && e.key == key && KeysOnce(s) :: Find(s, key) == Some(e)
    ensures Find(s, key).None? ==> forall e | e in s :: e.key != key
  {
    if s != [] {
      FindFacts(s[1..], key);
      assert s == [s[0]] + s[1..];
      if KeysOnce(s) {
        FirstKeyOnce(s);
      }
    }
  }

  // The entries after a step: old ones with their key, and the one just set.
  lemma StepEntries<K, V>(s: Recency<K, V>, size: nat, buffer: int, op: Op<K, V>, e: Entry<K, V>)
    requires e in Step(s, size, buffer, op)
    ensures match op
      case Set(k, value, ttl, now) => e == Entry(k, value, now + ttl) || (e in s && e.key != k)
      case Delete(k, _) => e in s && e.key != k
      case _ => e in s
  {
    match op {
      case Get(key, now) => FindFacts(s, key); InWithout(s, key, e);
      case Set(key, value, ttl, now) =>
        InWithout(s, key, e);
        var t := [Entry(key, value, now + ttl)] + Without(s, key);
        assert e in t;
      case Delete(key, _) => InWithout(s, key, e);
      case Cleanup(now) => InUnexpired(s, buffer, now, e);
    }
  }

  lemma {:induction false} EntriesAreLastSets<K, V>(size: nat, buffer: int, ops: seq<Op<K, V>>, e: Entry<K, V>)
    requires e in RecencyAfter(size, buffer, ops)
    ensures LastSet(ops, e.key) == Some((e.value, e.expiresAt))
  {
    if ops != [] {
      var init := ops[..|ops| - 1];
      StepEntries(RecencyAfter(size, buffer, init), size, buffer, ops[|ops| - 1], e);
      if e in RecencyAfter(size, buffer, init) {
        EntriesAreLastSets(size, buffer, init, e);
      }
    }
  }

  // Whatever Get returns was stored last under the key, and is not expired.
  lemma GetReturnsLastSet<K, V>(size: nat, buffer: int, ops: seq<Op<K, V>>, key: K, now: int)
    requires size > 0 && GetResult(CacheAfter(size, buffer, ops), key, now).Some?
    ensures LastSet(ops, key).Some?
    ensures GetResult(CacheAfter(size, buffer, ops), key, now) == Some(LastSet(ops, key).value.0)
    ensures now <= LastSet(ops, key).value.1 - buffer
  {
    HistoryRefines(size, buffer, ops);
    GetRefines(CacheAfter(size, buffer, ops), key, now);
    var s := RecencyAfter(size, buffer, ops);
    FindFacts(s, key);
    EntriesAreLastSets(size, buffer, ops, Find(s, key).value);
  }

  // ---------------------------------------------------------------------
  // A live key is evicted only by touching size other keys

  // The keys other than key touched, by a Set or an answered Get, since key
  // itself was last set or asked for.
  ghost function TouchedSince<K, V>(size: nat, buffer: int, ops: seq<Op<K, V>>, key: K): set<K> {
    if ops == [] then {}
    else
      var init := ops[..|ops| - 1];
      match ops[|ops| - 1]
      case Set(k, _, _, _) => if k == key then {} else TouchedSince(size, buffer, init, key) + {k}
      case Get(k, now) =>
        if k == key then {}
        else if Answer(RecencyAfter(size, buffer, init), buffer, k, now).Some?
        then TouchedSince(size, buffer, init, key) + {k}
        else TouchedSince(size, buffer, init, key)
      case _ => TouchedSince(size, buffer, init, key)
  }

  function Clock<K, V>(op: Op<K, V>): int {
    op.now
  }

  ghost predicate ClockForward<K, V>(ops: seq<Op<K, V>>, now: int) {
    && (forall i, j | 0 <= i < j < |ops| :: Clock(ops[i]) <= Clock(ops[j]))
    && (forall i | 0 <= i < |ops| :: Clock(ops[i]) <= now)
  }

  // e sits in s, and every key before it is one of others.
  ghost predicate BehindOnly<K, V>(s: Recency<K, V>, e: Entry<K, V>, others: set<K>) {
    exists i :: 0 <= i < |s| && s[i] == e && forall j | 0 <= j < i :: s[j].key in others
  }

  lemma {:induction false} WithoutBehind<K, V>(s: Recency<K, V>, e: Entry<K, V>, others: set<K>, key: K)
    requires BehindOnly(s, e, others) && key != e.key
    ensures BehindOnly(Without(s, key), e, others)
    decreases |s|
  {
    var i :| 0 <= i < |s| && s[i] == e && forall j | 0 <= j < i :: s[j].key in others;
    if i == 0 {
      assert Without(s, key)[0] == e;
    } else {
      assert s[1..][i - 1] == e && forall j | 0 <= j < i - 1 :: s[1..][j].key in others;
      WithoutBehind(s[1..], e, others, key);
      var w := Without(s[1..], key);
      var k :| 0 <= k < |w| && w[k] == e && forall j | 0 <= j < k :: w[j].key in others;
      if s[0].key != key {
        assert Without(s, key)[k + 1] == e;
      }
    }
  }

  lemma {:induction false} UnexpiredBehind<K, V>(s: Recency<K, V>, e: Entry<K, V>, others: set<K>,
                                               buffer: int, now: int)
    requires BehindOnly(s, e, others) && !IsExpired(e, buffer, now)
    ensures BehindOnly(Unexpired(s, buffer, now), e, others)
    decreases |s|
  {
    var i :| 0 <= i < |s| && s[i] == e && forall j | 0 <= j < i :: s[j].key in others;
    if i == 0 {
      assert Unexpired(s, buffer, now)[0] == e;
    } else {
      assert s[1..][i - 1] == e && forall j | 0 <= j < i - 1 :: s[1..][j].key in others;
      UnexpiredBehind(s[1..], e, others, buffer, now);
      var w := Unexpired(s[1..], buffer, now);
      var k :| 0 <= k < |w| && w[k] == e && forall j | 0 <= j < k :: w[j].key in others;
      if !IsExpired(s[0], buffer, now) {
        assert Unexpired(s, buffer, now)[k + 1] == e;
      }
    }
  }

  lemma PushBehind<K, V>(s: Recency<K, V>, e: Entry<K, V>, others: set<K>, x: Entry<K, V>)
    requires BehindOnly(s, e, others)
    ensures BehindOnly([x] + s, e, others + {x.key})
  {
    var i :| 0 <= i < |s| && s[i] == e && forall j | 0 <= j < i :: s[j].key in others;
    var t := [x] + s;
    assert t[i + 1] == e;
    forall j | 0 <= j < i + 1 ensures t[j].key in others + {x.key} {
      if j > 0 { assert t[j] == s[j - 1]; }
    }
  }

  // Behind fewer than size distinct keys, e is not cut off.
  lemma TruncateBehind<K, V>(s: Recency<K, V>, e: Entry<K, V>, others: set<K>, size: nat)
    requires BehindOnly(s, e, others) && KeysOnce(s) && |others| < size
    ensures BehindOnly(Truncate(s, size), e, others)
  {
    var i :| 0 <= i < |s| && s[i] == e && forall j | 0 <= j < i :: s[j].key in others;
    var keys := seq(i, j requires 0 <= j < i => s[j].key);
    forall a, b | 0 <= a < b < |keys| ensures keys[a] != keys[b] { assert s[a].key != s[b].key; }
    DistinctCard(keys);
    SubsetCard(Elems(keys), others);
    assert Truncate(s, size)[i] == e;
  }

  lemma StepKeysOnce<K, V>(s: Recency<K, V>, size: nat, buffer: int, op: Op<K, V>)
    requires KeysOnce(s)
    ensures KeysOnce(Step(s, size, buffer, op))
  {
    match op {
      case Get(key, now) => FindFacts(s, key); WithoutFacts(s, key); FrontKeysOnce(s, key);
      case Set(key, value, ttl, now) => WithoutFacts(s, key); FrontKeysOnce(s, key);
      case Delete(key, _) => WithoutFacts(s, key);
      case Cleanup(now) => UnexpiredFacts(s, buffer, now);
    }
  }

  lemma FrontKeysOnce<K, V>(s: Recency<K, V>, key: K)
    requires KeysOnce(s)
    ensures forall x: Entry<K, V> | x.key == key :: KeysOnce([x] + Without(s, key))
  {
    WithoutFacts(s, key);
    forall x: Entry<K, V> | x.key == key ensures KeysOnce([x] + Without(s, key)) {
      var rest := Without(s, key);
      forall e | e in rest ensures e.key != x.key { InWithout(s, key, e); }
      PrependKeysOnce(x, rest);
    }
  }

  lemma {:induction false} AfterKeysOnce<K, V>(size: nat, buffer: int, ops: seq<Op<K, V>>)
    ensures KeysOnce(RecencyAfter(size, buffer, ops))
  {
    if ops != [] {
      AfterKeysOnce(size, buffer, ops[..|ops| - 1]);
      StepKeysOnce(RecencyAfter(size, buffer, ops[..|ops| - 1]), size, buffer, ops[|ops| - 1]);
    }
  }

  // A step moves what a Get answers with or a Set stores to the front.
  lemma StepIs<K, V>(s: Recency<K, V>, size: nat, buffer: int, op: Op<K, V>)
    ensures var s' := Step(s, size, buffer, op);
      && (op.Get? ==>
            if Answer(s, buffer, op.key, op.now).Some?
            then Find(s, op.key).Some? && Find(s, op.key).value.key == op.key
                 && s' == [Find(s, op.key).value] + Without(s, op.key)
            else s' == s || s' == Without(s, op.key))
      && (op.Set? ==> s' == Truncate([Entry(op.key, op.value, op.now + op.ttl)] + Without(s, op.key), size))
      && (op.Delete? ==> s' == Without(s, op.key))
      && (op.Cleanup? ==> s' == Unexpired(s, buffer, op.now))
  {
    if op.Get? { FindFacts(s, op.key); }
    hide Without, Truncate, Unexpired, Find;
  }

  lemma FrontBehind<K, V>(s: Recency<K, V>, e: Entry<K, V>, after: set<K>, key: K, x: Entry<K, V>)
    requires BehindOnly(s, e, after) && e.key != key && x.key == key && key in after
    ensures BehindOnly([x] + Without(s, key), e, after)
  {
    WithoutBehind(s, e, after, key);
    hide BehindOnly, Without;
    PushBehind(Without(s, key), e, after, x);
    assert after + {key} == after;
  }

  // One step keeps a live entry that is not the step's own key.
  lemma StepBehind<K, V>(s: Recency<K, V>, size: nat, buffer: int, op: Op<K, V>, e: Entry<K, V>,
                         before: set<K>, after: set<K>)
    requires KeysOnce(s) && BehindOnly(s, e, before) && before <= after && |after| < size
    requires !op.Cleanup? ==> op.key != e.key
    requires !IsExpired(e, buffer, op.now)
    requires op.Set? ==> op.key in after
    requires op.Get? && Answer(s, buffer, op.key, op.now).Some? ==> op.key in after
    ensures BehindOnly(Step(s, size, buffer, op), e, after)
  {
    BehindMore(s, e, before, after);
    StepIs(s, size, buffer, op);
    hide *;
    if op.Set? {
      StoreBehind(s, e, after, op.key, Entry(op.key, op.value, op.now + op.ttl), size);
    } else if op.Cleanup? {
      UnexpiredBehind(s, e, after, buffer, op.now);
    } else {
      WithoutBehind(s, e, after, op.key);
      if op.Get? && Answer(s, buffer, op.key, op.now).Some? {
        FrontBehind(s, e, after, op.key, Find(s, op.key).value);
      }
    }
  }

  lemma StoreBehind<K, V>(s: Recency<K, V>, e: Entry<K, V>, after: set<K>, key: K, x: Entry<K, V>, size: nat)
    requires KeysOnce(s) && BehindOnly(s, e, after) && |after| < size
    requires e.key != key && x.key == key && key in after
    ensures BehindOnly(Truncate([x] + Without(s, key), size), e, after)
  {
    FrontBehind(s, e, after, key, x);
    FrontKeysOnce(s, key);
    hide *;
    TruncateBehind([x] + Without(s, key), e, after, size);
  }

  lemma BehindMore<K, V>(s: Recency<K, V>, e: Entry<K, V>, before: set<K>, after: set<K>)
    requires BehindOnly(s, e, before) && before <= after
    ensures BehindOnly(s, e, after)
  {
    var i :| 0 <= i < |s| && s[i] == e && forall j | 0 <= j < i :: s[j].key in before;
    assert s[i] == e && forall j | 0 <= j < i :: s[j].key in after;
  }

  lemma ClockPrefix<K, V>(ops: seq<Op<K, V>>, now: int)
    requires ops != [] && ClockForward(ops, now)
    ensures ClockForward(ops[..|ops| - 1], now) && Clock(ops[|ops| - 1]) <= now
  {
    var init := ops[..|ops| - 1];
    assert forall i | 0 <= i < |init| :: init[i] == ops[i];
  }

  lemma {:induction false} LiveStays<K, V>(size: nat, buffer: int, ops: seq<Op<K, V>>, key: K, now: int)
    requires LastSet(ops, key).Some? && ClockForward(ops, now) && now <= LastSet(ops, key).value.1 - buffer
    requires NeverManyTouched(size, buffer, ops, key)
    ensures var (value, expiresAt) := LastSet(ops, key).value;
      BehindOnly(RecencyAfter(size, buffer, ops), Entry(key, value, expiresAt), TouchedSince(size, buffer, ops, key))
    decreases |ops|
  {
    var init, op := ops[..|ops| - 1], ops[|ops| - 1];
    var s := RecencyAfter(size, buffer, init);
    var e := Entry(key, LastSet(ops, key).value.0, LastSet(ops, key).value.1);
    AfterKeysOnce(size, buffer, init);
    if op.Set? && op.key == key {
      assert Step(s, size, buffer, op)[0] == e;
    } else {
      ClockPrefix(ops, now);
      LiveStays(size, buffer, init, key, now);
      if op.Get? && op.key == key {
        FindFacts(s, key);
        assert Step(s, size, buffer, op)[0] == e;
      } else {
        hide ClockForward, Step, KeysOnce, BehindOnly;
        StepBehind(s, size, buffer, op, e, TouchedSince(size, buffer, init, key), TouchedSince(size, buffer, ops, key));
      }
    }
  }

  // At no point since key was set were size distinct other keys touched without
  // key being set or asked for in between.
  ghost predicate NeverManyTouched<K, V>(size: nat, buffer: int, ops: seq<Op<K, V>>, key: K) {
    ops == [] ||
    (|TouchedSince(size, buffer, ops, key)| < size &&
     ((ops[|ops| - 1].Set? && ops[|ops| - 1].key == key) || NeverManyTouched(size, buffer, ops[..|ops| - 1], key)))
  }

  // So an unexpired key is answered, unless size other keys were touched.
  lemma EvictedOnlyWhenFull<K, V>(size: nat, buffer: int, ops: seq<Op<K, V>>, key: K, now: int)
    requires size > 0 && LastSet(ops, key).Some? && ClockForward(ops, now)
    requires now <= LastSet(ops, key).value.1 - buffer
    requires NeverManyTouched(size, buffer, ops, key)
    ensures GetResult(CacheAfter(size, buffer, ops), key, now) == Some(LastSet(ops, key).value.0)
  {
    HistoryRefines(size, buffer, ops);
    GetRefines(CacheAfter(size, buffer, ops), key, now);
    LiveStays(size, buffer, ops, key, now);
    AfterKeysOnce(size, buffer, ops);
    FindFacts(RecencyAfter(size, buffer, ops), key);
    var e := Entry(key, LastSet(ops, key).value.0, LastSet(ops, key).value.1);
    assert e in RecencyAfter(size, buffer, ops);
  }
}
