/** The proxy's retry loop: what it returns, how often it tries, and exactly when it might never stop. */
module ProxyForward {
  import opened Collections
  import opened KeyPool

  const WAIT_BUDGET := 90_000
  const SLICE := 1_500
  const SLICES := 60

  datatype Reply = TransportError | Http(status: int)
  {
    predicate Retryable() {
      Http? && (status == 429 || 500 <= status < 600)
    }

    predicate Failed() {
      TransportError? || Retryable()
    }
  }

  datatype Attempt = Attempt(duration: int, reply: Reply)

  datatype Response = Unavailable | Relayed(status: int)

  /** What other requests may do to the shared pool meanwhile: move the cursor and bench further keys. */
  ghost predicate Disturbed(p: Pool, q: Pool) {
    q.Valid() && q.keys == p.keys && q.cooldown == p.cooldown && forall key :: q.BusyUntil(key) >= p.BusyUntil(key)
  }

  ghost predicate OnlyDisturbs(others: (nat, Pool) -> Pool) {
    forall i: nat, p: Pool :: p.Valid() ==> Disturbed(p, others(i, p))
  }

  // -------------------------------------------------------------------------
  // A streak of attempts without a wait
  // -------------------------------------------------------------------------

  /** Trying all the other keys takes less than the cooldown. */
  ghost predicate Short(keys: int, cooldown: int, d: int) {
    (keys - 1) * d < cooldown
  }

  /** The keys used since the last wait were benched no earlier than `first`, and `d` bounds each attempt. */
  ghost predicate Streak(p: Pool, used: set<string>, first: int, now: int, d: int) {
    && used <= Elements(p.keys)
    && (used != {} ==> first <= now <= first + (|used| - 1) * d)
    && forall key :: key in used ==> p.BusyUntil(key) >= first + p.cooldown
  }

  lemma {:induction false} FewKeys(keys: seq<string>)
    ensures |Elements(keys)| <= |keys|
  {
    if keys != [] {
      var init, last := keys[..|keys| - 1], keys[|keys| - 1];
      FewKeys(init);
      assert keys == init + [last];
      assert Elements(keys) == Elements(init) + {last};
    }
  }

  lemma SubsetSize(a: set<string>, b: set<string>)
    requires a <= b
    ensures |a| <= |b|
  {
    assert b == a + (b - a);
    assert |b| == |a| + |b - a|;
  }

  lemma ScaleLeq(a: nat, b: nat, d: nat)
    requires a <= b
    ensures a * d <= b * d
  {
  }

  /** Short attempts never come back to a key within a streak. */
  lemma FreeKeyIsUnused(p: Pool, used: set<string>, first: int, now: int, d: int, slot: nat)
    requires p.Valid() && slot < |p.keys| && p.Free(slot, now)
    requires d >= 0 && Short(|p.keys|, p.cooldown, d) && Streak(p, used, first, now, d)
    ensures p.keys[slot] !in used && |used| < |p.keys|
  {
    FewKeys(p.keys);
    SubsetSize(used, Elements(p.keys));
    if used != {} {
      ScaleLeq(|used| - 1, |p.keys| - 1, d);
    }
    assert p.keys[slot] in Elements(p.keys);
    assert p.keys[slot] !in used;
    SubsetSize(used + {p.keys[slot]}, Elements(p.keys));
  }

  lemma StreakGrows(p: Pool, used: set<string>, first: int, now: int, d: int, key: string, duration: int)
    requires Streak(p, used, first, now, d) && key in p.keys && key !in used && 0 <= duration <= d
    ensures var end := now + duration;
            && Streak(p.Benched(key, end), used + {key}, if used == {} then end else first, end, d)
            && (p.Valid() ==> p.Benched(key, end).Valid())
            && p.Benched(key, end).keys == p.keys && p.Benched(key, end).cooldown == p.cooldown
  {
    assert |used + {key}| == |used| + 1;
    assert (|used| - 1) * d + d == |used| * d;
  }

  lemma StreakSurvives(p: Pool, q: Pool, used: set<string>, first: int, now: int, d: int)
    requires Streak(p, used, first, now, d) && Disturbed(p, q)
    ensures Streak(q, used, first, now, d)
  {
  }

  lemma AcquiredIsUnused(p: Pool, used: set<string>, first: int, now: int, d: int)
    requires p.Valid() && p.Acquired(now).Some?
    requires d >= 0 && Short(|p.keys|, p.cooldown, d) && Streak(p, used, first, now, d)
    ensures var slot := p.Acquired(now).value;
            slot < |p.keys| && p.keys[slot] in p.keys && p.keys[slot] !in used && |used| < |p.keys|
  {
    FreeKeyIsUnused(p, used, first, now, d, p.Acquired(now).value);
  }

  lemma AcquireKeepsStreak(p: Pool, used: set<string>, first: int, now: int, d: int)
    requires p.Valid() && Streak(p, used, first, now, d)
    ensures p.AfterAcquire(now).Valid() && Streak(p.AfterAcquire(now), used, first, now, d)
    ensures p.AfterAcquire(now).keys == p.keys && p.AfterAcquire(now).cooldown == p.cooldown
  {
  }

  lemma FreshStreak(p: Pool, now: int, d: int)
    ensures Streak(p, {}, now, now, d)
  {
  }

  /** Attempts that all failed, none of them on a retryable status that used up the keys. */
  ghost predicate FailedBefore(upstream: nat -> Attempt, tried: nat, keys: nat) {
    forall i :: 0 <= i < tried ==>
      match upstream(i).reply
      case TransportError => true
      case Http(status) => (status == 429 || 500 <= status <= 599) && i + 1 < keys
  }

  lemma OneMoreFailed(upstream: nat -> Attempt, tried: nat, keys: nat)
    requires FailedBefore(upstream, tried, keys) && upstream(tried).reply.Failed()
    requires upstream(tried).reply.Retryable() ==> tried + 1 < keys
    ensures FailedBefore(upstream, tried + 1, keys)
  {
  }

  /** No other request touches the pool. */
  ghost predicate Alone(others: (nat, Pool) -> Pool) {
    forall i: nat, p: Pool :: others(i, p) == p
  }

  lemma AloneLeaves(others: (nat, Pool) -> Pool, round: nat, p: Pool)
    ensures Alone(others) ==> others(round, p) == p
  {
  }

  /** The pool's clock table after benching keys, each until a time, in order. */
  ghost function Benches(busyUntil: map<string, int>, marks: seq<(string, int)>): map<string, int> {
    if marks == [] then busyUntil
    else
      var last := marks[|marks| - 1];
      Benches(busyUntil, marks[..|marks| - 1])[last.0 := last.1]
  }

  lemma OneMoreBench(busyUntil: map<string, int>, marks: seq<(string, int)>, key: string, until: int)
    ensures Benches(busyUntil, marks + [(key, until)]) == Benches(busyUntil, marks)[key := until]
  {
    assert (marks + [(key, until)])[..|marks|] == marks;
  }

  /** How long the first attempts took, and by how much the first sleeps overran. */
  ghost function Durations(upstream: nat -> Attempt, tried: nat): int {
    if tried == 0 then 0 else Durations(upstream, tried - 1) + upstream(tried - 1).duration
  }

  ghost function Lags(lag: nat -> nat, slept: nat): int {
    if slept == 0 then 0 else Lags(lag, slept - 1) + lag(slept - 1)
  }

  /** One pass over the keys for each wait so far. */
  ghost function Passes(n: nat, slept: nat): nat {
    n * slept
  }

  lemma TriesBound(n: nat, slept: nat, more: nat)
    requires slept <= SLICES && more <= n
    ensures Passes(n, slept) + more <= 61 * n
    ensures Passes(n, slept + 1) == Passes(n, slept) + n
  {
    ScaleLeq(slept + 1, SLICES + 1, n);
  }

  /** Other requests run, then a key is asked for. */
  method AcquireAmongOthers(
    pool: RotatingKeys, now: int, round: nat, others: (nat, Pool) -> Pool,
    ghost used: set<string>, ghost first: int, ghost d: int)
    returns (key: Option<string>)
    requires pool.Value().Valid() && OnlyDisturbs(others)
    requires d >= 0 && Short(|pool.keys|, pool.cooldown, d) && Streak(pool.Value(), used, first, now, d)
    modifies pool
    ensures pool.Value().Valid() && Streak(pool.Value(), used, first, now, d)
    ensures key.Some? ==>
              key.value in pool.keys && key.value in pool.Value().keys && key.value !in used && |used| < |pool.keys|
    ensures Alone(others) ==> pool.busyUntil == old(pool.busyUntil)
  {
    hide Alone;
    AloneLeaves(others, round, pool.Value());
    var disturbed := others(round, pool.Value());
    assert Disturbed(pool.Value(), disturbed);
    StreakSurvives(pool.Value(), disturbed, used, first, now, d);
    pool.cursor, pool.busyUntil := disturbed.cursor, disturbed.busyUntil;
    assert pool.Value() == disturbed;
    hide Streak, Short, Pool.Scan, Pool.Acquired, Pool.BusyUntil, Pool.SlotAt, Pool.AfterAcquire, Disturbed;
    key := pool.Acquire(now);
    AcquireKeepsStreak(disturbed, used, first, now, d);
    if key.Some? {
      AcquiredIsUnused(disturbed, used, first, now, d);
    }
  }

  /**
   * `_forward`, against any upstream whose attempts are short next to the cooldown.  `marks` are the keys it
   * benches and until when, one for each failed attempt and none for a success; `end` is the clock at the end.
   */
  method Forward(
    pool: RotatingKeys, start: int, upstream: nat -> Attempt, others: (nat, Pool) -> Pool, lag: nat -> nat, ghost d: int)
    returns (response: Response, tried: nat, slept: nat, ghost marks: seq<(string, int)>, ghost end: int)
    requires pool.Value().Valid() && OnlyDisturbs(others)
    requires forall i :: 0 <= upstream(i).duration <= d
    requires Short(|pool.keys|, pool.cooldown, d)
    modifies pool
    ensures tried <= 61 * |pool.keys| && slept <= 60
    ensures end == start + Durations(upstream, tried) + 1500 * slept + Lags(lag, slept)
    ensures response.Unavailable? ==> slept == 60 && FailedBefore(upstream, tried, |pool.keys|)
    ensures response.Relayed? ==>
              && tried > 0 && FailedBefore(upstream, tried - 1, |pool.keys|)
              && upstream(tried - 1).reply == Http(response.status)
              && (response.status == 429 || 500 <= response.status <= 599 ==> tried >= |pool.keys|)
    ensures |marks| == if response.Relayed? && !(response.status == 429 || 500 <= response.status <= 599)
                       then tried - 1 else tried
    ensures MarkedBetween(marks, pool.keys, start + pool.cooldown, end + pool.cooldown)
    ensures Alone(others) ==> pool.busyUntil == Benches(old(pool.busyUntil), marks)
  {
    hide FailedBefore, Streak, Short, Passes, OnlyDisturbs, RotatingKeys.Value, Benches, Alone, MarkedBetween, Durations, Lags;
    hide Pool.Valid, Pool.Benched, Pool.Acquired, Pool.AfterAcquire;
    var now, waited, round := start, 0, 0;
    tried, slept, marks := 0, 0, [];
    ghost var used: set<string>, first := {}, start;
    ghost var n, cooldown := |pool.keys|, pool.cooldown;
    FreshStreak(pool.Value(), start, d);
    NothingTried(upstream, n, pool.busyUntil);
    NothingMarked(pool.keys, start + cooldown);
    NoTime(upstream, lag);
    while true
      invariant pool.Value().Valid() && pool.cooldown == cooldown && |pool.keys| == n
      invariant waited == SLICE * slept && slept <= SLICES
      invariant start <= now == start + Durations(upstream, tried) + 1500 * slept + Lags(lag, slept)
      invariant Streak(pool.Value(), used, first, now, d)
      invariant |used| <= n && tried <= Passes(n, slept) + |used|
      invariant FailedBefore(upstream, tried, n)
      invariant |marks| == tried
      invariant MarkedBetween(marks, pool.keys, start + cooldown, now + cooldown)
      invariant Alone(others) ==> pool.busyUntil == Benches(old(pool.busyUntil), marks)
      decreases SLICES - slept, n - |used|
    {
      assert 0 <= upstream(tried).duration <= d;
      var key := AcquireAmongOthers(pool, now, round, others, used, first, d);
      round := round + 1;
      TriesBound(n, slept, |used|);
      if key.None? {
        if waited >= WAIT_BUDGET {
          return Unavailable, tried, slept, marks, now;
        }
        MarkedUntilLater(marks, pool.keys, start + cooldown, now + cooldown, now + SLICE + lag(slept) + cooldown);
        OneMoreLag(lag, slept);
        now := now + SLICE + lag(slept);
        waited, slept := waited + SLICE, slept + 1;
        used, first := {}, now;
        FreshStreak(pool.Value(), now, d);
        continue;
      }

      TriesBound(n, slept, |used| + 1);
      StreakGrows(pool.Value(), used, first, now, d, key.value, upstream(tried).duration);
      var attempt := upstream(tried);
      MarkedUntilLater(marks, pool.keys, start + cooldown, now + cooldown, now + attempt.duration + cooldown);
      OneMoreDuration(upstream, tried);
      tried := tried + 1;
      now := now + attempt.duration;
      if attempt.reply.Http? && !attempt.reply.Retryable() {
        return Relayed(attempt.reply.status), tried, slept, marks, now;
      }
      pool.MarkExhausted(key.value, now);
      OneMoreBench(old(pool.busyUntil), marks, key.value, now + cooldown);
      OneMoreMark(marks, pool.keys, start + cooldown, key.value, now + cooldown);
      marks := marks + [(key.value, now + cooldown)];
      if attempt.reply.Http? && tried >= |pool.keys| {
        return Relayed(attempt.reply.status), tried, slept, marks, now;
      }
      OneMoreFailed(upstream, tried - 1, n);
      first := if used == {} then now else first;
      used := used + {key.value};
    }
  }

  lemma NoTime(upstream: nat -> Attempt, lag: nat -> nat)
    ensures Durations(upstream, 0) == 0 && Lags(lag, 0) == 0
  {
  }

  lemma OneMoreDuration(upstream: nat -> Attempt, tried: nat)
    ensures Durations(upstream, tried + 1) == Durations(upstream, tried) + upstream(tried).duration
  {
  }

  lemma OneMoreLag(lag: nat -> nat, slept: nat)
    ensures Lags(lag, slept + 1) == Lags(lag, slept) + lag(slept)
  {
  }

  /** Every mark is on one of the keys and until a time in this range. */
  ghost predicate MarkedBetween(marks: seq<(string, int)>, keys: seq<string>, low: int, high: int) {
    forall m :: m in marks ==> m.0 in keys && low <= m.1 <= high
  }

  lemma NothingMarked(keys: seq<string>, low: int)
    ensures MarkedBetween([], keys, low, low)
  {
  }

  lemma MarkedUntilLater(marks: seq<(string, int)>, keys: seq<string>, low: int, high: int, later: int)
    requires MarkedBetween(marks, keys, low, high) && high <= later
    ensures MarkedBetween(marks, keys, low, later)
  {
  }

  lemma OneMoreMark(marks: seq<(string, int)>, keys: seq<string>, low: int, key: string, until: int)
    requires MarkedBetween(marks, keys, low, until) && key in keys && low <= until
    ensures MarkedBetween(marks + [(key, until)], keys, low, until)
  {
  }

  lemma NothingTried(upstream: nat -> Attempt, keys: nat, busyUntil: map<string, int>)
    ensures FailedBefore(upstream, 0, keys) && Benches(busyUntil, []) == busyUntil
  {
  }

  // -------------------------------------------------------------------------
  // When the loop need not stop
  // -------------------------------------------------------------------------

  /** That many attempts in a row, each failing in transport after `d`, with a key at hand every time. */
  predicate Persists(p: Pool, now: int, d: int, attempts: nat)
    requires p.Valid()
    decreases attempts
  {
    attempts == 0
    || (p.Acquired(now).Some?
        && p.Acquired(now).value < |p.keys|
        && Persists(p.AfterAcquire(now).Benched(p.keys[p.Acquired(now).value], now + d), now + d, d, attempts - 1))
  }

  lemma StreakIsSmall(p: Pool, used: set<string>, first: int, now: int, d: int)
    requires Streak(p, used, first, now, d)
    ensures |used| <= |p.keys|
  {
    FewKeys(p.keys);
    SubsetSize(used, Elements(p.keys));
  }

  lemma {:induction false} ShortAttemptsRunOut(p: Pool, used: set<string>, first: int, now: int, d: int, attempts: nat)
    requires p.Valid() && d >= 0 && Short(|p.keys|, p.cooldown, d) && Streak(p, used, first, now, d)
    requires |used| + attempts > |p.keys|
    ensures !Persists(p, now, d, attempts)
    decreases attempts
  {
    hide Short, Streak, Pool.Scan, Pool.Acquired, Pool.BusyUntil, Pool.SlotAt, Pool.AfterAcquire, Pool.Benched;
    StreakIsSmall(p, used, first, now, d);
    if attempts > 0 && p.Acquired(now).Some? {
      AcquiredIsUnused(p, used, first, now, d);
      var key, moved := p.keys[p.Acquired(now).value], p.AfterAcquire(now);
      AcquireKeepsStreak(p, used, first, now, d);
      StreakGrows(moved, used, first, now, d, key, d);
      ShortAttemptsRunOut(
        moved.Benched(key, now + d), used + {key}, if used == {} then now + d else first, now + d, d, attempts - 1);
    }
  }

  /** Each key is free again by the time the rotation comes round to it. */
  ghost predicate InStep(p: Pool, now: int, d: int)
    requires p.Valid()
  {
    forall slot :: 0 <= slot < |p.keys| ==> p.BusyUntil(p.keys[slot]) <= now + Distance(p, slot) * d
  }

  ghost predicate DistinctKeys(p: Pool) {
    forall i, j :: 0 <= i < j < |p.keys| ==> p.keys[i] != p.keys[j]
  }

  lemma NextSlotsComeCloser(p: Pool, slot: nat)
    requires p.Valid() && slot < |p.keys|
    ensures var q := p.(cursor := (p.cursor + 1) % |p.keys|);
            q.Valid() && Distance(q, slot) == if slot == p.cursor then |p.keys| - 1 else Distance(p, slot) - 1
  {
    Wrap(p.cursor + 1, |p.keys|);
  }

  lemma StaysInStep(p: Pool, now: int, d: int)
    requires p.Valid() && DistinctKeys(p) && d >= 0 && !Short(|p.keys|, p.cooldown, d) && InStep(p, now, d)
    ensures p.Acquired(now) == Some(p.cursor)
    ensures var q := p.AfterAcquire(now).Benched(p.keys[p.cursor], now + d); q.Valid() && InStep(q, now + d, d)
  {
    assert Distance(p, p.cursor) * d == 0;
    AcquiredIsNearest(p, now, p.cursor);
    var n, q := |p.keys|, p.AfterAcquire(now).Benched(p.keys[p.cursor], now + d);
    forall slot | 0 <= slot < n ensures q.BusyUntil(q.keys[slot]) <= now + d + Distance(q, slot) * d {
      NextSlotsComeCloser(p, slot);
      var moved := p.(cursor := (p.cursor + 1) % n);
      assert Distance(q, slot) == Distance(moved, slot);
      hide Distance;
      if slot != p.cursor {
        StepCloser(Distance(p, slot), d);
        assert p.keys[slot] != p.keys[p.cursor];
        assert q.BusyUntil(q.keys[slot]) == p.BusyUntil(p.keys[slot]);
      }
    }
  }

  lemma StepCloser(distance: int, d: int)
    ensures distance * d == (distance - 1) * d + d
  {
  }

  lemma {:induction false} LongAttemptsPersist(p: Pool, now: int, d: int, attempts: nat)
    requires p.Valid() && DistinctKeys(p) && d >= 0 && !Short(|p.keys|, p.cooldown, d) && InStep(p, now, d)
    ensures Persists(p, now, d, attempts)
    decreases attempts
  {
    hide Short, InStep, Pool.Scan, Pool.Acquired, Pool.SlotAt;
    if attempts > 0 {
      StaysInStep(p, now, d);
      LongAttemptsPersist(p.AfterAcquire(now).Benched(p.keys[p.cursor], now + d), now + d, d, attempts - 1);
    }
  }

  /**
   * Transport failures are not counted, so a request can be retried without end and without a wait:
   * with all keys free and every attempt taking `d`, exactly when a round of the other keys outlasts the cooldown.
   */
  lemma NeverStopsIff(p: Pool, now: int, d: int)
    requires p.Valid() && DistinctKeys(p) && d >= 0
    requires forall slot :: 0 <= slot < |p.keys| ==> p.Free(slot, now)
    ensures (forall attempts: nat :: Persists(p, now, d, attempts)) <==> (|p.keys| - 1) * d >= p.cooldown
  {
    if !Short(|p.keys|, p.cooldown, d) {
      forall slot | 0 <= slot < |p.keys| ensures p.BusyUntil(p.keys[slot]) <= now + Distance(p, slot) * d {
        assert p.Free(slot, now);
        ScaleLeq(0, Distance(p, slot), d);
      }
      forall attempts: nat ensures Persists(p, now, d, attempts) {
        LongAttemptsPersist(p, now, d, attempts);
      }
    } else {
      ShortAttemptsRunOut(p, {}, now, now, d, |p.keys| + 1);
    }
  }
}
