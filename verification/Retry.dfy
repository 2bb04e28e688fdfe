/** Retrying an action with backoff (retry.go). Delays are whole numbers; what
    the action, its context and its retry condition do is given per attempt. */
module Retry {
  import opened Base

  datatype Backoff = Fixed | Linear | Exponential

  datatype Config = Config(maxAttempts: int, initialDelay: Option<int>, maxDelay: Option<int>, backoff: Backoff)

  const Second: int := 1_000_000_000
  const Minute: int := 60 * Second

  function InitialDelay(c: Config): int {
    if c.initialDelay.Some? then c.initialDelay.value else Second
  }

  function MaxDelay(c: Config): int {
    if c.maxDelay.Some? then c.maxDelay.value else 5 * Minute
  }

  function Pow2(n: nat): (r: nat)
    ensures r > 0
  {
    if n == 0 then 1 else 2 * Pow2(n - 1)
  }

  // CalculateDelay without a jitter function.
  function Delay(config: Option<Config>, attempt: int): int {
    if config.None? || attempt <= 1 then 0
    else
      var c, retry := config.value, attempt - 1;
      var delay :=
        match c.backoff
        case Fixed => InitialDelay(c)
        case Linear => InitialDelay(c) * retry
        case Exponential => InitialDelay(c) * Pow2(retry - 1);
      if delay > MaxDelay(c) then MaxDelay(c) else delay
  }

  function MaxAttempts(config: Option<Config>): (n: int)
    ensures n >= 1
  {
    if config.None? || config.value.maxAttempts < 1 then 1 else config.value.maxAttempts
  }

  // ---------------------------------------------------------------------
  // How delays grow

  ghost predicate NeverShrinks(c: Config) {
    forall attempt: int | attempt >= 2 :: Delay(Some(c), attempt) <= Delay(Some(c), attempt + 1)
  }

  lemma Scaled(initial: int, a: int, b: int)
    requires 0 <= a <= b
    ensures initial >= 0 ==> 0 <= initial * a <= initial * b
    ensures initial < 0 && a < b ==> initial * b < initial * a
  {
    if initial >= 0 {
      assert initial * (b - a) >= 0;
    } else if a < b {
      assert initial * (b - a) < 0;
    }
  }

  // Delays never decrease from retry to retry, whatever the cap, exactly when
  // they are fixed or start from a non-negative delay.
  lemma DelaysNeverShrink(c: Config)
    ensures NeverShrinks(c) <==> c.backoff == Fixed || InitialDelay(c) >= 0
  {
    forall attempt: int | attempt >= 2
      ensures c.backoff == Fixed || InitialDelay(c) >= 0 ==> Delay(Some(c), attempt) <= Delay(Some(c), attempt + 1)
    {
      Scaled(InitialDelay(c), attempt - 1, attempt);
      Scaled(InitialDelay(c), Pow2(attempt - 2), Pow2(attempt - 1));
    }
    if c.backoff != Fixed && InitialDelay(c) < 0 {
      FallsBelowCap(c);
    }
  }

  // A negative initial delay is multiplied until the cap no longer hides it.
  lemma FallsBelowCap(c: Config)
    requires c.backoff != Fixed && InitialDelay(c) < 0
    ensures exists attempt: int :: attempt >= 2 && Delay(Some(c), attempt + 1) < Delay(Some(c), attempt)
  {
    var i := InitialDelay(c);
    var n: nat := if MaxDelay(c) < 0 then -MaxDelay(c) else 0;
    Pow2Large(n);
    var attempt := n + 3;
    Scaled(i, n + 2, n + 3);
    Scaled(i, Pow2(n + 1), Pow2(n + 2));
    Negative(i, n + 2);
    Negative(i, Pow2(n + 1));
    assert Pow2(n + 1) == 2 * Pow2(n) && Pow2(n + 2) == 2 * Pow2(n + 1);
    hide Pow2;
    assert Delay(Some(c), attempt + 1) < Delay(Some(c), attempt);
  }

  lemma Negative(i: int, m: nat)
    requires i < 0
    ensures i * m <= 0 - m
  {
    Scaled(-1 - i, 0, m);
    assert (-1 - i) * m == 0 - m - i * m;
  }

  lemma Geometric(i: int, p: int)
    ensures i * (p - 1) + i * p == i * (2 * p - 1)
  {
  }

  lemma {:induction false} Pow2Large(n: nat)
    ensures Pow2(n) > n
  {
    if n > 0 { Pow2Large(n - 1); }
  }

  // ---------------------------------------------------------------------
  // ExecuteWithRetry

  // What happens around attempt k: before it, the context may have ended, and
  // again during its delay; the action fails or not; after that the context may
  // have ended, and the retry condition says yes, no, or cannot be evaluated.
  datatype World = World(doneBefore: nat -> bool, doneInDelay: nat -> bool, fails: nat -> bool, doneAfter: nat -> bool,
                         condition: Option<nat -> Option<bool>>)

  datatype Event = Waited(delay: int) | Called(attempt: nat)

  datatype Outcome = Success | Cancelled | GaveUp | ConditionFailed

  // ShouldRetry for a failed attempt; None when the condition cannot be evaluated.
  function ShouldRetry(config: Option<Config>, w: World, attempt: nat): Option<bool> {
    if config.None? || attempt >= MaxAttempts(config) || w.doneAfter(attempt) then Some(false)
    else if w.condition.Some? then w.condition.value(attempt)
    else Some(true)
  }

  // The configured number of attempts; one without a configuration, or with one
  // below one.
  ghost predicate LastAttempt(config: Option<Config>, n: int) {
    n == if config.Some? && config.value.maxAttempts > 1 then config.value.maxAttempts else 1
  }

  // A failed attempt is followed by another.
  ghost predicate RetriedAt(config: Option<Config>, w: World, k: nat) {
    && w.fails(k) && config.Some? && k < config.value.maxAttempts && !w.doneAfter(k)
    && (w.condition.None? || w.condition.value(k) == Some(true))
  }

  // It is not, and nothing is wrong with the retry condition.
  ghost predicate GivenUpAt(config: Option<Config>, w: World, k: nat) {
    && w.fails(k)
    && (config.None? || LastAttempt(config, k) || w.doneAfter(k)
        || (w.condition.Some? && w.condition.value(k) == Some(false)))
  }

  ghost predicate ConditionFailsAt(config: Option<Config>, w: World, k: nat) {
    && w.fails(k) && config.Some? && k < config.value.maxAttempts && !w.doneAfter(k)
    && w.condition.Some? && w.condition.value(k) == None
  }

  // The trace of an execution that reached attempt n: n calls in order, each
  // retry after its whole delay.
  ghost function Trace(config: Option<Config>, n: nat): seq<Event> {
    if n == 0 then []
    else Trace(config, n - 1)
         + (if Delay(config, n) > 0 then [Waited(Delay(config, n))] else []) + [Called(n)]
  }

  // The wait before an attempt that was then not made.
  ghost function CutWait(config: Option<Config>, w: World, attempts: nat): bool {
    attempts > 0 && Delay(config, attempts + 1) > 0 && w.doneInDelay(attempts + 1)
  }

  // attempts is the number returned; log records every call of the action and
  // every wait that was waited out.
  method ExecuteWithRetry(config: Option<Config>, w: World) returns (outcome: Outcome, attempts: nat, log: seq<Event>)
    ensures log == Trace(config, attempts) && forall n | LastAttempt(config, n) :: attempts <= n
    ensures forall k | 1 <= k < attempts :: RetriedAt(config, w, k)
    ensures match outcome
            case Success => attempts >= 1 && !w.fails(attempts)
            case GaveUp => attempts >= 1 && GivenUpAt(config, w, attempts)
            case ConditionFailed => attempts >= 1 && ConditionFailsAt(config, w, attempts)
            case Cancelled =>
              && !LastAttempt(config, attempts) && (attempts >= 1 ==> RetriedAt(config, w, attempts))
              && (w.doneBefore(attempts + 1) || CutWait(config, w, attempts))
  {
    attempts, log := 0, [];
    var attempt := 1;
    while attempt <= MaxAttempts(config)
      invariant 1 <= attempt <= MaxAttempts(config) && attempts == attempt - 1
      invariant log == Trace(config, attempts)
      invariant forall k | 1 <= k < attempt :: RetriedAt(config, w, k)
    {
      if w.doneBefore(attempt) {
        return Cancelled, attempt - 1, log;
      }
      var waited := [];
      if attempt > 1 {
        var delay := Delay(config, attempt);
        if delay > 0 {
          if w.doneInDelay(attempt) {
            return Cancelled, attempt - 1, log;
          }
          waited := [Waited(delay)];
        }
      }
      log := log + waited + [Called(attempt)];
      attempts := attempt;
      if !w.fails(attempt) {
        return Success, attempt, log;
      }
      var retry := ShouldRetry(config, w, attempt);
      if retry.None? {
        return ConditionFailed, attempt, log;
      }
      if !retry.value {
        return GaveUp, attempt, log;
      }
      attempt := attempt + 1;
    }
    assert false;
    outcome := GaveUp;
  }

  // ---------------------------------------------------------------------
  // What a trace costs

  function Calls(log: seq<Event>): nat {
    if log == [] then 0 else Calls(log[..|log| - 1]) + (if log[|log| - 1].Called? then 1 else 0)
  }

  function TotalWait(log: seq<Event>): int {
    if log == [] then 0
    else TotalWait(log[..|log| - 1]) + (if log[|log| - 1].Waited? then log[|log| - 1].delay else 0)
  }

  lemma CallsSnoc(log: seq<Event>, e: Event)
    ensures Calls(log + [e]) == Calls(log) + (if e.Called? then 1 else 0)
    ensures TotalWait(log + [e]) == TotalWait(log) + (if e.Waited? then e.delay else 0)
  {
    assert (log + [e])[..|log|] == log;
  }

  lemma TraceStep(config: Option<Config>, n: nat)
    requires n > 0
    ensures Calls(Trace(config, n)) == Calls(Trace(config, n - 1)) + 1
    ensures TotalWait(Trace(config, n)) == TotalWait(Trace(config, n - 1)) + Positive(Delay(config, n))
  {
    var before := Trace(config, n - 1);
    var d := Delay(config, n);
    hide Delay;
    if d > 0 {
      CallsSnoc(before, Waited(d));
      CallsSnoc(before + [Waited(d)], Called(n));
      assert Trace(config, n) == before + [Waited(d)] + [Called(n)];
    } else {
      CallsSnoc(before, Called(n));
      assert Trace(config, n) == before + [Called(n)];
    }
  }

  function Positive(i: int): nat {
    if i > 0 then i else 0
  }

  // The number returned is the number of calls made.
  lemma {:induction false} AttemptsAreCalls(config: Option<Config>, n: nat)
    ensures Calls(Trace(config, n)) == n
  {
    if n > 0 {
      AttemptsAreCalls(config, n - 1);
      TraceStep(config, n);
    }
  }

  // All the waiting done is at most the cap once per retry ...
  lemma {:induction false} WaitsAreCapped(c: Config, n: nat)
    ensures 0 <= TotalWait(Trace(Some(c), n)) <= Positive(MaxDelay(c)) * Positive(n - 1)
  {
    if n > 0 {
      WaitsAreCapped(c, n - 1);
      TraceStep(Some(c), n);
      if n > 1 {
        assert Positive(MaxDelay(c)) * (n - 1) == Positive(MaxDelay(c)) * (n - 2) + Positive(MaxDelay(c));
      }
    }
  }

  // Exponential delays before the cap, which only lowers them.
  lemma ExponentialDelay(c: Config, n: nat)
    requires c.backoff == Exponential && InitialDelay(c) >= 0 && n >= 2
    ensures Positive(Delay(Some(c), n)) <= InitialDelay(c) * Pow2(n - 2)
    ensures InitialDelay(c) * Pow2(n - 2) <= MaxDelay(c) ==>
              Positive(Delay(Some(c), n)) == InitialDelay(c) * Pow2(n - 2)
    ensures Pow2(n - 1) == 2 * Pow2(n - 2)
    ensures n > 2 ==> InitialDelay(c) * Pow2(n - 3) <= InitialDelay(c) * Pow2(n - 2)
  {
    Scaled(InitialDelay(c), 0, Pow2(n - 2));
    if n > 2 { Scaled(InitialDelay(c), Pow2(n - 3), Pow2(n - 2)); }
  }

  // ... and with exponential backoff the sum of a geometric series.
  lemma {:induction false} ExponentialWaits(c: Config, n: nat)
    requires c.backoff == Exponential && InitialDelay(c) >= 0 && n >= 1
    ensures TotalWait(Trace(Some(c), n)) <= InitialDelay(c) * (Pow2(n - 1) - 1)
  {
    TraceStep(Some(c), n);
    if n == 1 {
      assert Trace(Some(c), 0) == [];
    } else {
      ExponentialDelay(c, n);
      Geometric(InitialDelay(c), Pow2(n - 2));
      hide Delay, Trace, TotalWait, Pow2;
      ExponentialWaits(c, n - 1);
    }
  }

  // Without a cap in the way the series is met exactly.
  lemma {:induction false} ExponentialExact(c: Config, n: nat)
    requires c.backoff == Exponential && InitialDelay(c) >= 0 && n >= 1
    requires n >= 2 ==> InitialDelay(c) * Pow2(n - 2) <= MaxDelay(c)
    ensures TotalWait(Trace(Some(c), n)) == InitialDelay(c) * (Pow2(n - 1) - 1)
  {
    TraceStep(Some(c), n);
    if n == 1 {
      assert Trace(Some(c), 0) == [];
    } else {
      ExponentialDelay(c, n);
      Geometric(InitialDelay(c), Pow2(n - 2));
      hide Delay, Trace, TotalWait, Pow2;
      ExponentialExact(c, n - 1);
    }
  }

  // ---------------------------------------------------------------------
  // Fixed and linear backoff

  function Least(a: int, b: int): int {
    if a <= b then a else b
  }

  // A fixed delay is waited out once per retry: one second and at most five
  // minutes, unless configured.
  lemma {:induction false} FixedWaits(c: Config, n: nat)
    requires c.backoff == Fixed && n >= 1
    ensures var initial := if c.initialDelay.Some? then c.initialDelay.value else 1_000_000_000;
      var cap := if c.maxDelay.Some? then c.maxDelay.value else 300_000_000_000;
      TotalWait(Trace(Some(c), n)) == (n - 1) * Positive(Least(initial, cap))
  {
    TraceStep(Some(c), n);
    if n == 1 {
      assert Trace(Some(c), 0) == [];
    } else {
      FixedWaits(c, n - 1);
      var d := Positive(Delay(Some(c), n));
      assert (n - 2) * d + d == (n - 1) * d;
      hide Trace, TotalWait;
    }
  }

  // Linear delays sum to the initial one times the number of pairs of attempts,
  // while the cap is not reached.
  lemma {:induction false} LinearExact(c: Config, n: nat)
    requires c.backoff == Linear && InitialDelay(c) >= 0 && n >= 1
    requires InitialDelay(c) * (n - 1) <= MaxDelay(c)
    ensures 2 * TotalWait(Trace(Some(c), n)) == InitialDelay(c) * (n * (n - 1))
  {
    TraceStep(Some(c), n);
    if n == 1 {
      assert Trace(Some(c), 0) == [];
    } else {
      Scaled(InitialDelay(c), n - 2, n - 1);
      LinearDelay(c, n);
      hide Trace, TotalWait, Delay;
      LinearExact(c, n - 1);
      Pairs(InitialDelay(c), n);
    }
  }

  lemma LinearDelay(c: Config, n: nat)
    requires c.backoff == Linear && InitialDelay(c) >= 0 && n >= 2 && InitialDelay(c) * (n - 1) <= MaxDelay(c)
    ensures Positive(Delay(Some(c), n)) == InitialDelay(c) * (n - 1)
  {
    Scaled(InitialDelay(c), 0, n - 1);
  }

  lemma Pairs(i: int, n: nat)
    requires n >= 2
    ensures i * ((n - 1) * (n - 2)) + 2 * (i * (n - 1)) == i * (n * (n - 1))
  {
    assert (n - 1) * (n - 2) + 2 * (n - 1) == n * (n - 1);
    assert i * ((n - 1) * (n - 2)) + i * (2 * (n - 1)) == i * ((n - 1) * (n - 2) + 2 * (n - 1));
  }
}
