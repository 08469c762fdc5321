/** The pull loop over many peers: per-peer cursors, exponential backoff, and isolation. */
module PullDriver {
  import opened Collections
  import opened SignedLogs
  import opened PeerLogs
  import opened PullSync

  const BACKOFF_MAX := 60.0

  /** What the loop remembers about one peer. */
  datatype Track = Track(cursor: Option<string>, backoff: Option<real>, nextAttempt: Option<real>)

  /** What one peer does when the loop turns to it, and the clock reading a failure would see. */
  datatype Conditions = Conditions(head: Option<string>, answer: Answer, failureClock: real)

  /** One visit of the loop to one peer, at the clock reading its round started with. */
  datatype Visit = Visit(now: real, conditions: Conditions)

  function RealMin(a: real, b: real): real {
    if a < b then a else b
  }

  function RealMax(a: real, b: real): real {
    if a < b then b else a
  }

  function NextDelay(interval: real, backoff: Option<real>): real {
    RealMin(BACKOFF_MAX, RealMax(interval, 2.0 * if backoff.Some? then backoff.value else interval))
  }

  predicate Cooling(nextAttempt: Option<real>, now: real) {
    (if nextAttempt.Some? then nextAttempt.value else 0.0) > now
  }

  /** One visit, seen by the visited peer alone; the shared cache is deliberately left out. */
  ghost function VisitPeer(gate: Gate, interval: real, batch: int, t: Track, v: Visit): Track {
    if Cooling(t.nextAttempt, v.now) then t
    else
      match Pull(gate, map[], v.conditions.head, v.conditions.answer, t.cursor, batch).0
      case PullFailed =>
        var delay := NextDelay(interval, t.backoff);
        t.(backoff := Some(delay), nextAttempt := Some(v.conditions.failureClock + delay))
      case Pulled(cursor, _, _) => Track(Some(cursor), None, None)
  }

  ghost function VisitAll(gate: Gate, interval: real, batch: int, t: Track, visits: seq<Visit>): Track {
    if visits == [] then t
    else
      VisitPeer(gate, interval, batch, VisitAll(gate, interval, batch, t, visits[..|visits| - 1]), visits[|visits| - 1])
  }

  /** The visits one round pays to `url`, in order (a url may be listed more than once). */
  ghost function VisitsTo(url: string, peers: seq<string>, now: real, conditions: seq<Conditions>): seq<Visit>
    requires |peers| == |conditions|
  {
    if peers == [] then []
    else
      var n := |peers| - 1;
      VisitsTo(url, peers[..n], now, conditions[..n])
      + if peers[n] == url then [Visit(now, conditions[n])] else []
  }

  datatype Round = Round(now: real, conditions: seq<Conditions>)

  ghost function VisitsInRun(url: string, peers: seq<string>, rounds: seq<Round>): seq<Visit>
    requires forall r :: r in rounds ==> |r.conditions| == |peers|
  {
    if rounds == [] then []
    else
      var last := rounds[|rounds| - 1];
      VisitsInRun(url, peers, rounds[..|rounds| - 1]) + VisitsTo(url, peers, last.now, last.conditions)
  }

  lemma {:induction false} VisitAllConcat(gate: Gate, interval: real, batch: int, t: Track, a: seq<Visit>, b: seq<Visit>)
    ensures VisitAll(gate, interval, batch, t, a + b)
         == VisitAll(gate, interval, batch, VisitAll(gate, interval, batch, t, a), b)
  {
    if b == [] {
      assert a + b == a;
    } else {
      assert (a + b)[..|a + b| - 1] == a + b[..|b| - 1];
      VisitAllConcat(gate, interval, batch, t, a, b[..|b| - 1]);
    }
  }

  lemma RoundOneMore(
    gate: Gate, interval: real, batch: int, t: Track, url: string, peers: seq<string>, now: real,
    conditions: seq<Conditions>, i: nat)
    requires |peers| == |conditions| && i < |peers|
    ensures var before := VisitAll(gate, interval, batch, t, VisitsTo(url, peers[..i], now, conditions[..i]));
            VisitAll(gate, interval, batch, t, VisitsTo(url, peers[..i + 1], now, conditions[..i + 1]))
            == if peers[i] == url then VisitPeer(gate, interval, batch, before, Visit(now, conditions[i])) else before
  {
    assert peers[..i + 1][..i] == peers[..i] && conditions[..i + 1][..i] == conditions[..i];
    var visits := VisitsTo(url, peers[..i], now, conditions[..i]);
    assert (visits + [Visit(now, conditions[i])])[..|visits|] == visits;
    assert visits + [] == visits;
  }

  // -------------------------------------------------------------------------
  // The loop
  // -------------------------------------------------------------------------

  class PullLoop {
    const log: PeerLog
    const interval: real
    const batch: int
    var state: map<string, string>
    var backoff: map<string, real>
    var nextAttempt: map<string, real>

    constructor (log: PeerLog, interval: real, batch: int, initialState: map<string, string>)
      ensures this.log == log && this.interval == interval && this.batch == batch
      ensures state == initialState && backoff == map[] && nextAttempt == map[]
    {
      this.log := log;
      this.interval := interval;
      this.batch := batch;
      state := initialState;
      backoff := map[];
      nextAttempt := map[];
    }

    function TrackOf(url: string): Track reads this {
      Track(
        if url in state then Some(state[url]) else None,
        if url in backoff then Some(backoff[url]) else None,
        if url in nextAttempt then Some(nextAttempt[url]) else None)
    }

    /**
     * One visit changes one peer's track, by that peer's own conditions and clock only.  A peer that is
     * not due is passed over; otherwise it is pulled from, and what the pull reports is returned.
     */
    method VisitOne(url: string, now: real, conditions: Conditions) returns (outcome: Option<PullResult>)
      requires log.Valid()
      modifies this, log
      ensures log.Valid() && Grown(old(log.files), log.files)
      ensures TrackOf(url) == VisitPeer(log.gate, interval, batch, old(TrackOf(url)), Visit(now, conditions))
      ensures forall other :: other != url ==> TrackOf(other) == old(TrackOf(other))
      ensures outcome.None? <==> now < if url in old(nextAttempt) then old(nextAttempt)[url] else 0.0
      ensures outcome.None? ==>
                && log.files == old(log.files)
                && state == old(state) && backoff == old(backoff) && nextAttempt == old(nextAttempt)
      ensures outcome.Some? ==>
                IsPull(log.gate, old(log.files), conditions.head, conditions.answer,
                       if url in old(state) then Some(old(state)[url]) else None, batch, outcome.value, log.files)
      ensures outcome.Some? && outcome.value.Pulled? ==>
                && state == old(state)[url := outcome.value.cursor]
                && backoff == old(backoff) - {url} && nextAttempt == old(nextAttempt) - {url}
      ensures outcome == Some(PullFailed) ==>
                var doubled := 2.0 * if url in old(backoff) then old(backoff)[url] else interval;
                var delay := if doubled < interval then interval else doubled;
                var capped := if delay < 60.0 then delay else 60.0;
                && state == old(state)
                && backoff == old(backoff)[url := capped]
                && nextAttempt == old(nextAttempt)[url := conditions.failureClock + capped]
    {
      hide IsPull;
      var t := TrackOf(url);
      if Cooling(t.nextAttempt, now) {
        return None;
      }
      PullResultIgnoresCache(log.gate, log.files, map[], conditions.head, conditions.answer, t.cursor, batch);
      PullGrows(log.gate, log.files, conditions.head, conditions.answer, t.cursor, batch);
      var result := PullOnce(log, conditions.head, conditions.answer, t.cursor, batch);
      outcome := Some(result);
      match result
      case PullFailed =>
        var delay := NextDelay(interval, t.backoff);
        backoff := backoff[url := delay];
        nextAttempt := nextAttempt[url := conditions.failureClock + delay];
      case Pulled(cursor, _, _) =>
        backoff := backoff - {url};
        nextAttempt := nextAttempt - {url};
        state := state[url := cursor];
    }

    method RunRound(peers: seq<string>, now: real, conditions: seq<Conditions>)
      requires log.Valid() && |peers| == |conditions|
      modifies this, log
      ensures log.Valid() && Grown(old(log.files), log.files)
      ensures forall url :: TrackOf(url)
                == VisitAll(log.gate, interval, batch, old(TrackOf(url)), VisitsTo(url, peers, now, conditions))
    {
      for i := 0 to |peers|
        invariant log.Valid() && Grown(old(log.files), log.files)
        invariant forall url :: TrackOf(url)
                    == VisitAll(log.gate, interval, batch, old(TrackOf(url)), VisitsTo(url, peers[..i], now, conditions[..i]))
      {
        ghost var before := log.files;
        var outcome := VisitOne(peers[i], now, conditions[i]);
        GrownTransitive(old(log.files), before, log.files);
        forall url
          ensures TrackOf(url) == VisitAll(log.gate, interval, batch, old(TrackOf(url)),
                                           VisitsTo(url, peers[..i + 1], now, conditions[..i + 1]))
        {
          RoundOneMore(log.gate, interval, batch, old(TrackOf(url)), url, peers, now, conditions, i);
        }
      }
      assert peers[..|peers|] == peers && conditions[..|peers|] == conditions;
    }

    /**
     * Any number of rounds.  Each peer's cursor and backoff are a function of the visits paid to
     * that peer: no other peer's behaviour, and nothing in the shared cache, has a say.
     */
    method Run(peers: seq<string>, rounds: seq<Round>)
      requires log.Valid() && forall r :: r in rounds ==> |r.conditions| == |peers|
      modifies this, log
      ensures log.Valid() && Grown(old(log.files), log.files)
      ensures forall url :: TrackOf(url)
                == VisitAll(log.gate, interval, batch, old(TrackOf(url)), VisitsInRun(url, peers, rounds))
    {
      for i := 0 to |rounds|
        invariant log.Valid() && Grown(old(log.files), log.files)
        invariant forall url :: TrackOf(url)
                    == VisitAll(log.gate, interval, batch, old(TrackOf(url)), VisitsInRun(url, peers, rounds[..i]))
      {
        ghost var before := log.files;
        assert rounds[..i + 1][..i] == rounds[..i];
        assert rounds[i] in rounds;
        RunRound(peers, rounds[i].now, rounds[i].conditions);
        GrownTransitive(old(log.files), before, log.files);
        forall url
          ensures TrackOf(url) == VisitAll(log.gate, interval, batch, old(TrackOf(url)),
                                           VisitsInRun(url, peers, rounds[..i + 1]))
        {
          VisitAllConcat(log.gate, interval, batch, old(TrackOf(url)), VisitsInRun(url, peers, rounds[..i]),
                         VisitsTo(url, peers, rounds[i].now, rounds[i].conditions));
        }
      }
      assert rounds[..|rounds|] == rounds;
    }
  }

  /** A peer that is listed once is visited once a round, with that round's clock and its own conditions. */
  lemma {:induction false} OneVisitARound(url: string, peers: seq<string>, rounds: seq<Round>, k: nat)
    requires k < |peers| && peers[k] == url && forall j :: 0 <= j < |peers| && j != k ==> peers[j] != url
    requires forall r :: r in rounds ==> |r.conditions| == |peers|
    ensures var visits := VisitsInRun(url, peers, rounds);
            |visits| == |rounds|
            && forall i :: 0 <= i < |rounds| ==> visits[i] == Visit(rounds[i].now, rounds[i].conditions[k])
  {
    if rounds != [] {
      var last := rounds[|rounds| - 1];
      OneVisitARound(url, peers, rounds[..|rounds| - 1], k);
      OneVisit(url, peers, last.now, last.conditions, k);
    }
  }

  lemma {:induction false} OneVisit(url: string, peers: seq<string>, now: real, conditions: seq<Conditions>, k: nat)
    requires |peers| == |conditions|
    requires forall j :: 0 <= j < |peers| && j != k ==> peers[j] != url
    requires k < |peers| ==> peers[k] == url
    ensures VisitsTo(url, peers, now, conditions) == if k < |peers| then [Visit(now, conditions[k])] else []
  {
    if peers != [] {
      var n := |peers| - 1;
      OneVisit(url, peers[..n], now, conditions[..n], k);
    }
  }

  lemma PullGrows(gate: Gate, files: Files, head: Option<string>, answer: Answer, last: Option<string>, batch: int)
    requires WellKept(gate, files)
    ensures Grown(files, Pull(gate, files, head, answer, last, batch).1)
  {
    if head.Some? && Fetch(answer, OrGenesis(last), batch).Some? {
      AbsorbTakesAcceptablePrefix(gate, files, Fetch(answer, OrGenesis(last), batch).value, last, 0);
    }
  }

  // -------------------------------------------------------------------------
  // Backoff
  // -------------------------------------------------------------------------

  /** The interval doubled `n` times. */
  function Doubled(interval: real, n: nat): real {
    if n == 0 then interval else 2.0 * Doubled(interval, n - 1)
  }

  function DelayAfter(interval: real, failures: nat): real {
    RealMin(BACKOFF_MAX, Doubled(interval, failures))
  }

  predicate Fails(gate: Gate, batch: int, t: Track, v: Visit) {
    !Cooling(t.nextAttempt, v.now) && PullFails(gate, batch, t.cursor, v.conditions)
  }

  predicate PullFails(gate: Gate, batch: int, cursor: Option<string>, c: Conditions) {
    || c.head.None?
    || ((cursor != c.head || c.head.value == GENESIS) && Fetch(c.answer, OrGenesis(cursor), batch).None?)
  }

  /** Failed attempts since the last success; visits skipped while the peer is cooling down are not attempts. */
  ghost function FailuresSince(gate: Gate, interval: real, batch: int, t: Track, visits: seq<Visit>): nat {
    if visits == [] then 0
    else
      var init, last := visits[..|visits| - 1], visits[|visits| - 1];
      var before := VisitAll(gate, interval, batch, t, init);
      if Cooling(before.nextAttempt, last.now) then FailuresSince(gate, interval, batch, t, init)
      else if PullFails(gate, batch, before.cursor, last.conditions) then FailuresSince(gate, interval, batch, t, init) + 1
      else 0
  }

  /** The clock the last failed attempt read. */
  ghost function LastFailure(gate: Gate, interval: real, batch: int, t: Track, visits: seq<Visit>): real {
    if visits == [] then 0.0
    else
      var init, last := visits[..|visits| - 1], visits[|visits| - 1];
      if Fails(gate, batch, VisitAll(gate, interval, batch, t, init), last) then last.conditions.failureClock
      else LastFailure(gate, interval, batch, t, init)
  }

  /** Every visit is skipped or fails. */
  ghost predicate NoSuccess(gate: Gate, interval: real, batch: int, t: Track, visits: seq<Visit>) {
    forall i :: 0 <= i < |visits| ==>
      var before := VisitAll(gate, interval, batch, t, visits[..i]);
      Cooling(before.nextAttempt, visits[i].now) || Fails(gate, batch, before, visits[i])
  }

  lemma FailingVisit(gate: Gate, interval: real, batch: int, t: Track, v: Visit)
    requires Fails(gate, batch, t, v)
    ensures var delay := NextDelay(interval, t.backoff);
            VisitPeer(gate, interval, batch, t, v) == Track(t.cursor, Some(delay), Some(v.conditions.failureClock + delay))
  {
  }

  /** A peer that is not backing off, or backs off as its n-th failure in a row demands. */
  ghost predicate BacksOff(interval: real, t: Track, n: nat, clock: real) {
    if n == 0 then t.backoff.None? && t.nextAttempt.None?
    else t.backoff == Some(DelayAfter(interval, n)) && t.nextAttempt == Some(clock + DelayAfter(interval, n))
  }

  /**
   * After any visits whatever, skipped ones among them: the n-th failed attempt since the last success
   * makes the peer wait min(60, interval * 2^n) from the moment it failed, and a success ends the wait.
   */
  lemma {:induction false} BackoffDoubles(gate: Gate, interval: real, batch: int, t: Track, visits: seq<Visit>)
    requires 0.0 <= interval && t.backoff.None? && t.nextAttempt.None?
    ensures BacksOff(interval, VisitAll(gate, interval, batch, t, visits),
                     FailuresSince(gate, interval, batch, t, visits), LastFailure(gate, interval, batch, t, visits))
  {
    if visits != [] {
      var init, last := visits[..|visits| - 1], visits[|visits| - 1];
      BackoffDoubles(gate, interval, batch, t, init);
      var before, n := VisitAll(gate, interval, batch, t, init), FailuresSince(gate, interval, batch, t, init);
      hide PullFails, Pull, VisitAll, DelayAfter, NextDelay, Cooling;
      if Fails(gate, batch, before, last) {
        FailingVisit(gate, interval, batch, before, last);
        DelayDoubles(interval, n);
        hide VisitPeer;
      } else if Cooling(before.nextAttempt, last.now) {
        SkippedVisit(gate, interval, batch, before, last);
        hide VisitPeer;
      } else {
        SucceedingVisit(gate, interval, batch, before, last);
        hide VisitPeer;
      }
      OneMoreVisit(gate, interval, batch, t, visits);
    }
  }

  /**
   * After any visits to a peer that started fresh, n failed attempts since the last success, the last of
   * them at clock c: the next visit is passed over iff it comes before c + min(60, interval * 2^n), and
   * otherwise fails into the next longer wait or ends the wait.  Without a failure a visit waits for clock 0.
   */
  lemma WaitsUntilDue(gate: Gate, interval: real, batch: int, t: Track, visits: seq<Visit>, v: Visit)
    requires 0.0 <= interval && t.backoff.None? && t.nextAttempt.None?
    ensures var n, c := FailuresSince(gate, interval, batch, t, visits), LastFailure(gate, interval, batch, t, visits);
            var before := VisitAll(gate, interval, batch, t, visits);
            var after := VisitAll(gate, interval, batch, t, visits + [v]);
            var due := if n == 0 then 0.0
                       else c + if Doubled(interval, n) < 60.0 then Doubled(interval, n) else 60.0;
            var next := if Doubled(interval, n + 1) < 60.0 then Doubled(interval, n + 1) else 60.0;
            && (v.now < due ==> after == before)
            && (v.now >= due && PullFails(gate, batch, before.cursor, v.conditions) ==>
                  after == Track(before.cursor, Some(next), Some(v.conditions.failureClock + next)))
            && (v.now >= due && !PullFails(gate, batch, before.cursor, v.conditions) ==>
                  after.cursor.Some? && after.backoff.None? && after.nextAttempt.None?)
  {
    hide *;
    BackoffDoubles(gate, interval, batch, t, visits);
    assert (visits + [v])[..|visits|] == visits;
    OneMoreVisit(gate, interval, batch, t, visits + [v]);
    VisitWhileBackingOff(
      gate, interval, batch, VisitAll(gate, interval, batch, t, visits),
      FailuresSince(gate, interval, batch, t, visits), LastFailure(gate, interval, batch, t, visits), v);
  }

  lemma VisitWhileBackingOff(gate: Gate, interval: real, batch: int, t: Track, n: nat, c: real, v: Visit)
    requires 0.0 <= interval && BacksOff(interval, t, n, c)
    ensures var after := VisitPeer(gate, interval, batch, t, v);
            var due := if n == 0 then 0.0
                       else c + if Doubled(interval, n) < 60.0 then Doubled(interval, n) else 60.0;
            var next := if Doubled(interval, n + 1) < 60.0 then Doubled(interval, n + 1) else 60.0;
            && (v.now < due ==> after == t)
            && (v.now >= due && PullFails(gate, batch, t.cursor, v.conditions) ==>
                  after == Track(t.cursor, Some(next), Some(v.conditions.failureClock + next)))
            && (v.now >= due && !PullFails(gate, batch, t.cursor, v.conditions) ==>
                  after.cursor.Some? && after.backoff.None? && after.nextAttempt.None?)
  {
    hide PullFails, Pull, NextDelay, Doubled, VisitPeer;
    if Cooling(t.nextAttempt, v.now) {
      SkippedVisit(gate, interval, batch, t, v);
    } else if PullFails(gate, batch, t.cursor, v.conditions) {
      FailingVisit(gate, interval, batch, t, v);
      DelayDoubles(interval, n);
    } else {
      SucceedingVisit(gate, interval, batch, t, v);
    }
  }

  lemma OneMoreVisit(gate: Gate, interval: real, batch: int, t: Track, visits: seq<Visit>)
    requires visits != []
    ensures var n := |visits| - 1;
            VisitAll(gate, interval, batch, t, visits)
            == VisitPeer(gate, interval, batch, VisitAll(gate, interval, batch, t, visits[..n]), visits[n])
  {
  }

  lemma SkippedVisit(gate: Gate, interval: real, batch: int, t: Track, v: Visit)
    requires Cooling(t.nextAttempt, v.now)
    ensures VisitPeer(gate, interval, batch, t, v) == t
  {
  }

  lemma DelayDoubles(interval: real, n: nat)
    requires 0.0 <= interval
    ensures NextDelay(interval, if n == 0 then None else Some(DelayAfter(interval, n))) == DelayAfter(interval, n + 1)
  {
    DoubledAtLeast(interval, n);
  }

  lemma {:induction false} DoubledAtLeast(interval: real, n: nat)
    requires 0.0 <= interval
    ensures interval <= Doubled(interval, n)
  {
    if n > 0 {
      DoubledAtLeast(interval, n - 1);
    }
  }

  /**
   * Whatever came before a success, the delay counts the failed attempts after it from one again, and
   * until the next success the cursor stays where that one left it.
   */
  lemma BackoffCountsFromLastSuccess(
    gate: Gate, interval: real, batch: int, t: Track, earlier: seq<Visit>, good: Visit, rest: seq<Visit>)
    requires 0.0 <= interval
    requires var before := VisitAll(gate, interval, batch, t, earlier);
             !Cooling(before.nextAttempt, good.now) && !PullFails(gate, batch, before.cursor, good.conditions)
    requires NoSuccess(gate, interval, batch, VisitAll(gate, interval, batch, t, earlier + [good]), rest)
    ensures var restart := VisitAll(gate, interval, batch, t, earlier + [good]);
            var end := VisitAll(gate, interval, batch, t, earlier + [good] + rest);
            && end.cursor == restart.cursor
            && BacksOff(interval, end, FailuresSince(gate, interval, batch, restart, rest),
                        LastFailure(gate, interval, batch, restart, rest))
  {
    hide Fails, Cooling, BacksOff, NoSuccess, VisitPeer;
    var restart := VisitAll(gate, interval, batch, t, earlier + [good]);
    assert (earlier + [good])[..|earlier|] == earlier;
    SucceedingVisit(gate, interval, batch, VisitAll(gate, interval, batch, t, earlier), good);
    VisitAllConcat(gate, interval, batch, t, earlier + [good], rest);
    BackoffDoubles(gate, interval, batch, restart, rest);
    NoSuccessKeepsCursor(gate, interval, batch, restart, rest);
  }

  lemma {:induction false} NoSuccessKeepsCursor(gate: Gate, interval: real, batch: int, t: Track, visits: seq<Visit>)
    requires NoSuccess(gate, interval, batch, t, visits)
    ensures VisitAll(gate, interval, batch, t, visits).cursor == t.cursor
  {
    if visits != [] {
      var init, last := visits[..|visits| - 1], visits[|visits| - 1];
      var before := VisitAll(gate, interval, batch, t, init);
      assert forall i :: 0 <= i < |init| ==> init[i] == visits[i] && init[..i] == visits[..i];
      NoSuccessKeepsCursor(gate, interval, batch, t, init);
      assert Cooling(before.nextAttempt, last.now) || Fails(gate, batch, before, last);
      hide NoSuccess;
      if Cooling(before.nextAttempt, last.now) {
        SkippedVisit(gate, interval, batch, before, last);
      } else {
        FailingVisit(gate, interval, batch, before, last);
      }
    }
  }

  lemma SucceedingVisit(gate: Gate, interval: real, batch: int, t: Track, v: Visit)
    requires !Cooling(t.nextAttempt, v.now) && !PullFails(gate, batch, t.cursor, v.conditions)
    ensures VisitPeer(gate, interval, batch, t, v).cursor.Some? && VisitPeer(gate, interval, batch, t, v).backoff.None?
    ensures VisitPeer(gate, interval, batch, t, v).nextAttempt.None?
  {
  }
}
