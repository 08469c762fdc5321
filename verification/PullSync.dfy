/** One pull from one peer: the cursor algorithm, its safety, and how fast it converges. */
module PullSync {
  import opened Collections
  import opened Entries
  import opened SignedLogs
  import opened PeerLogs

  /** What a peer answers to (since, limit); None is a transport failure or an HTTP error status. */
  type Answer = (string, int) -> Option<seq<Entry>>

  datatype PullResult =
    | PullFailed
    | Pulled(cursor: string, appended: nat, rejected: Option<string>)

  /** The transport refuses a batch more than ten times the limit asked for. */
  function Fetch(answer: Answer, since: string, batch: int): Option<seq<Entry>> {
    match answer(since, batch)
    case None => None
    case Some(served) => if |served| > 10 * Max(batch, 1) then None else Some(served)
  }

  function OrGenesis(cursor: Option<string>): string {
    if cursor.None? || cursor.value == "" then GENESIS else cursor.value
  }

  function HashOrMissing(e: Entry): string {
    if e.hash == "" then "<missing>" else e.hash
  }

  // -------------------------------------------------------------------------
  // Specification
  // -------------------------------------------------------------------------

  datatype Absorbed = Absorbed(files: Files, cursor: Option<string>, appended: nat, rejected: Option<string>)

  /** Feed a batch through the cache, stopping at the first rejection. */
  ghost function Absorb(gate: Gate, files: Files, served: seq<Entry>, cursor: Option<string>, appended: nat): Absorbed
    decreases served
  {
    if served == [] then Absorbed(files, cursor, appended, None)
    else
      var (after, verdict) := Accept(gate, files, served[0]);
      if verdict.Rejected() then Absorbed(files, cursor, appended, Some(HashOrMissing(served[0])))
      else Absorb(gate, after, served[1..], Some(served[0].hash), appended + if verdict.Stored? then 1 else 0)
  }

  ghost function Pull(gate: Gate, files: Files, head: Option<string>, answer: Answer, last: Option<string>, batch: int):
    (PullResult, Files)
  {
    if head.None? then (PullFailed, files)
    else if last == head && head.value != GENESIS then (Pulled(head.value, 0, None), files)
    else
      match Fetch(answer, OrGenesis(last), batch)
      case None => (PullFailed, files)
      case Some(served) =>
        var a := Absorb(gate, files, served, last, 0);
        var cursor := if served == [] && a.cursor.None? then head else a.cursor;
        (Pulled(OrGenesis(cursor), a.appended, a.rejected), a.files)
  }

  /** How many leading entries the receiver's gate lets through. */
  function AcceptablePrefix(gate: Gate, c: seq<Entry>): (n: nat)
    ensures n <= |c|
  {
    if c == [] || !gate.Acceptable(c[0]) then 0 else 1 + AcceptablePrefix(gate, c[1..])
  }

  lemma {:induction false} AcceptablePrefixIff(gate: Gate, c: seq<Entry>, n: nat)
    requires n <= |c|
    ensures n == AcceptablePrefix(gate, c) <==>
              (forall i :: 0 <= i < n ==> gate.Acceptable(c[i])) && (n < |c| ==> !gate.Acceptable(c[n]))
  {
    if c != [] {
      if n == 0 {
      } else {
        AcceptablePrefixIff(gate, c[1..], n - 1);
        assert forall i :: 1 <= i < n ==> c[i] == c[1..][i - 1];
        assert forall i :: 0 <= i < n - 1 ==> c[1..][i] == c[i + 1];
      }
    }
  }

  /** The entries of all files, each with the source it is filed under. */
  ghost function Cached(files: Files): set<(string, Entry)> {
    set s, e | s in files && e in files[s] :: (s, e)
  }

  /** The first `n` entries served are others' and verify, and the next one, if any, is not or does not. */
  ghost predicate StopsAfter(gate: Gate, served: seq<Entry>, n: nat) {
    && n <= |served|
    && (forall i :: 0 <= i < n ==> gate.own != Some(served[i].reporter) && gate.verify(served[i]))
    && (n < |served| ==> gate.own == Some(served[n].reporter) || !gate.verify(served[n]))
  }

  /** What a pull that was served entries reports: where it stopped, at what, and how much the cache gained. */
  ghost predicate Reports(
    gate: Gate, before: Files, head: string, served: seq<Entry>, since: string, last: Option<string>, n: nat,
    result: PullResult, after: Files)
  {
    && StopsAfter(gate, served, n)
    && result.Pulled?
    && result.rejected == (if n == |served| then None
                           else Some(if served[n].hash == "" then "<missing>" else served[n].hash))
    && result.cursor == (var next := if n > 0 then served[n - 1].hash
                                     else if served == [] && last.None? then head
                                     else since;
                         if next == "" then "GENESIS" else next)
    && result.appended == |Cached(after) - Cached(before)|
  }

  /** One pull, from what is asked to what is reported, in terms of the peer's answers alone. */
  ghost predicate IsPull(
    gate: Gate, before: Files, head: Option<string>, answer: Answer, last: Option<string>, batch: int,
    result: PullResult, after: Files)
  {
    var since := if last.None? || last.value == "" then "GENESIS" else last.value;
    if head.None? then result == PullFailed && after == before
    else if last == head && head.value != "GENESIS" then result == Pulled(head.value, 0, None) && after == before
    else if answer(since, batch).None? then result == PullFailed && after == before
    else
      var served := answer(since, batch).value;
      if |served| > 10 * batch && |served| > 10 then result == PullFailed && after == before
      else Reports(gate, before, head.value, served, since, last, AcceptablePrefix(gate, served), result, after)
  }

  lemma PullIsPull(
    gate: Gate, files: Files, head: Option<string>, answer: Answer, last: Option<string>, batch: int)
    requires WellKept(gate, files)
    ensures var (result, after) := Pull(gate, files, head, answer, last, batch);
            IsPull(gate, files, head, answer, last, batch, result, after)
  {
    hide Reports, WellKept, Absorb, AcceptablePrefix;
    if head.Some? && !(last == head && head.value != GENESIS) && Fetch(answer, OrGenesis(last), batch).Some? {
      var served := Fetch(answer, OrGenesis(last), batch).value;
      PullReports(gate, files, head.value, answer, last, batch, served);
    }
  }

  lemma PullReports(
    gate: Gate, files: Files, head: string, answer: Answer, last: Option<string>, batch: int, served: seq<Entry>)
    requires WellKept(gate, files)
    requires !(last == Some(head) && head != GENESIS) && Fetch(answer, OrGenesis(last), batch) == Some(served)
    ensures var (result, after) := Pull(gate, files, Some(head), answer, last, batch);
            Reports(gate, files, head, served, OrGenesis(last), last, AcceptablePrefix(gate, served), result, after)
  {
    hide Fetch, WellKept, Cached, Absorb;
    var n := AcceptablePrefix(gate, served);
    AcceptablePrefixIff(gate, served, n);
    AbsorbStopsAtRejection(gate, files, served, last, 0);
    AbsorbCountsGain(gate, files, served, last, 0);
  }

  lemma AcceptGains(gate: Gate, files: Files, e: Entry)
    ensures var (after, verdict) := Accept(gate, files, e);
            && Cached(files) <= Cached(after)
            && |Cached(after) - Cached(files)| == if verdict.Stored? then 1 else 0
  {
    var (after, verdict) := Accept(gate, files, e);
    if verdict.Stored? {
      var gained := Cached(after) - Cached(files);
      assert (e.reporter, e) !in Cached(files);
      assert after[e.reporter][|FileOf(files, e.reporter)|] == e;
      assert gained == {(e.reporter, e)};
    } else {
      assert Cached(after) - Cached(files) == {};
    }
  }

  /** The count is the number of entries the cache gained. */
  lemma {:induction false} AbsorbCountsGain(
    gate: Gate, files: Files, served: seq<Entry>, cursor: Option<string>, appended: nat)
    ensures var a := Absorb(gate, files, served, cursor, appended);
            Cached(files) <= Cached(a.files) && a.appended == appended + |Cached(a.files) - Cached(files)|
    decreases served
  {
    hide Cached, Accept;
    if served == [] || !gate.Acceptable(served[0]) {
      assert Cached(files) - Cached(files) == {};
      AcceptRefuses(gate, files, served);
    } else {
      var (after, verdict) := Accept(gate, files, served[0]);
      AcceptGains(gate, files, served[0]);
      var count := appended + if verdict.Stored? then 1 else 0;
      AcceptTakes(gate, files, served[0]);
      AbsorbCountsGain(gate, after, served[1..], Some(served[0].hash), count);
      var a := Absorb(gate, after, served[1..], Some(served[0].hash), count);
      assert Cached(a.files) - Cached(files) == (Cached(a.files) - Cached(after)) + (Cached(after) - Cached(files));
    }
  }

  lemma AcceptRefuses(gate: Gate, files: Files, served: seq<Entry>)
    ensures served != [] && !gate.Acceptable(served[0]) ==> Accept(gate, files, served[0]).1.Rejected()
  {
  }

  lemma AcceptTakes(gate: Gate, files: Files, e: Entry)
    requires gate.Acceptable(e)
    ensures !Accept(gate, files, e).1.Rejected()
  {
  }

  method PullOnce(log: PeerLog, head: Option<string>, answer: Answer, last: Option<string>, batch: int)
    returns (result: PullResult)
    requires log.Valid()
    modifies log
    ensures log.Valid()
    ensures (result, log.files) == Pull(log.gate, old(log.files), head, answer, last, batch)
    ensures IsPull(log.gate, old(log.files), head, answer, last, batch, result, log.files)
  {
    hide IsPull, Accept, Cached, WellKept, Holds, PeerLog.IsIndexOf;
    PullIsPull(log.gate, log.files, head, answer, last, batch);
    if head.None? {
      return PullFailed;
    }
    if last == head && head.value != GENESIS {
      return Pulled(head.value, 0, None);
    }
    var response := Fetch(answer, OrGenesis(last), batch);
    if response.None? {
      return PullFailed;
    }
    var served := response.value;
    var appended, rejected, newLast := 0, None, last;
    var i := 0;
    while i < |served|
      invariant 0 <= i <= |served| && 0 <= appended
      invariant log.Valid() && rejected.None?
      invariant Absorb(log.gate, old(log.files), served, last, 0)
             == Absorb(log.gate, log.files, served[i..], newLast, appended)
    {
      assert served[i..][0] == served[i] && served[i..][1..] == served[i + 1..];
      var verdict := log.AcceptEntry(served[i]);
      if verdict.Rejected() {
        rejected := Some(HashOrMissing(served[i]));
        break;
      }
      if verdict.Stored? {
        appended := appended + 1;
      }
      newLast := Some(served[i].hash);
      i := i + 1;
    }
    if served == [] && newLast.None? {
      newLast := head;
    }
    result := Pulled(OrGenesis(newLast), appended, rejected);
  }

  // -------------------------------------------------------------------------
  // Absorbing a batch
  // -------------------------------------------------------------------------

  ghost predicate HoldsAll(files: Files, es: seq<Entry>) {
    forall e :: e in es ==> Holds(files, e)
  }

  lemma HoldsGrows(before: Files, after: Files, e: Entry)
    requires Grown(before, after) && Holds(before, e)
    ensures Holds(after, e)
  {
    var x :| x in FileOf(before, e.reporter) && x.hash == e.hash;
    assert x in FileOf(after, e.reporter);
  }

  lemma GrownTransitive(a: Files, b: Files, c: Files)
    requires Grown(a, b) && Grown(b, c)
    ensures Grown(a, c)
  {
  }

  /** The cursor stands on the last acceptable entry; a rejection is reported iff the batch has more. */
  lemma {:induction false} AbsorbStopsAtRejection(
    gate: Gate, files: Files, served: seq<Entry>, cursor: Option<string>, appended: nat)
    ensures var v := AcceptablePrefix(gate, served);
            var a := Absorb(gate, files, served, cursor, appended);
            && a.cursor == (if v == 0 then cursor else Some(served[v - 1].hash))
            && a.rejected == (if v == |served| then None else Some(HashOrMissing(served[v])))
    decreases served
  {
    if served != [] && gate.Acceptable(served[0]) {
      var (after, verdict) := Accept(gate, files, served[0]);
      var count := appended + if verdict.Stored? then 1 else 0;
      AbsorbStopsAtRejection(gate, after, served[1..], Some(served[0].hash), count);
    }
  }

  /** Exactly the acceptable prefix of the batch ends up held, and nothing else enters. */
  lemma {:induction false} AbsorbTakesAcceptablePrefix(
    gate: Gate, files: Files, served: seq<Entry>, cursor: Option<string>, appended: nat)
    requires WellKept(gate, files)
    ensures var a := Absorb(gate, files, served, cursor, appended);
            && WellKept(gate, a.files) && Grown(files, a.files)
            && HoldsAll(a.files, served[..AcceptablePrefix(gate, served)])
            && OnlyAdds(files, a.files, served)
    decreases served
  {
    hide Accept, WellKept, Holds, FileOf;
    if served != [] {
      var e := served[0];
      AcceptKeepsFiles(gate, files, e);
      if gate.Acceptable(e) {
        var (after, verdict) := Accept(gate, files, e);
        var count := appended + if verdict.Stored? then 1 else 0;
        var v, a := AcceptablePrefix(gate, served), Absorb(gate, after, served[1..], Some(e.hash), count);
        AbsorbTakesAcceptablePrefix(gate, after, served[1..], Some(e.hash), count);
        GrownTransitive(files, after, a.files);
        HoldsGrows(after, a.files, e);
        assert served[..v] == [e] + served[1..][..v - 1];
        assert served == [e] + served[1..];
      }
    }
  }

  /** Whatever a file gained is a batch entry by that file's source. */
  ghost predicate OnlyAdds(before: Files, after: Files, batch: seq<Entry>) {
    forall s, x :: x in FileOf(after, s) ==> x in FileOf(before, s) || (x in batch && x.reporter == s)
  }

  /** Entries already held move the cursor and change nothing else. */
  lemma {:induction false} AbsorbOfHeldChangesNothing(
    gate: Gate, files: Files, served: seq<Entry>, cursor: Option<string>, appended: nat)
    requires WellKept(gate, files)
    requires HoldsAll(files, served[..AcceptablePrefix(gate, served)])
    ensures Absorb(gate, files, served, cursor, appended).files == files
    ensures Absorb(gate, files, served, cursor, appended).appended == appended
    decreases served
  {
    if served != [] && gate.Acceptable(served[0]) {
      var v := AcceptablePrefix(gate, served);
      assert served[..v][0] == served[0];
      assert served[1..][..v - 1] == served[..v][1..];
      hide WellKept, Holds;
      AbsorbOfHeldChangesNothing(gate, files, served[1..], Some(served[0].hash), appended);
    }
  }

  // -------------------------------------------------------------------------
  // Pulling from an honest server
  // -------------------------------------------------------------------------

  /** The answering side of `EntryServer.GetEntries`; error statuses become transport failures. */
  function HonestAnswer(c: seq<Entry>): Answer {
    (since, limit) =>
      match Serve(c, Some(since), limit)
      case Served(es, _) => Some(es)
      case _ => None
  }

  /** A stored cursor that stands after the first `k` entries of the chain. */
  ghost predicate AtPosition(c: seq<Entry>, cursor: Option<string>, k: nat) {
    k <= |c| && OrGenesis(cursor) == CursorAt(c, k) && (k == 0 ==> cursor == None || cursor == Some(GENESIS))
  }

  /** The cursor is at `k`, never past a rejected entry, and everything up to it is cached. */
  ghost predicate SafeAt(gate: Gate, files: Files, c: seq<Entry>, cursor: Option<string>, k: nat) {
    && WellKept(gate, files)
    && AtPosition(c, cursor, k)
    && k <= AcceptablePrefix(gate, c)
    && HoldsAll(files, c[..k])
  }

  /** The farthest entry one pull can reach: a full batch on, but never past a rejected entry. */
  function NextPosition(gate: Gate, c: seq<Entry>, k: nat, batch: nat): nat
    requires k <= AcceptablePrefix(gate, c)
  {
    Min(AcceptablePrefix(gate, c), k + Min(batch, MAX_LIMIT))
  }

  lemma CursorsAreDistinct(c: seq<Entry>, j: nat, k: nat)
    requires Chain(c) && j <= |c| && k <= |c| && CursorAt(c, j) == CursorAt(c, k)
    ensures j == k
  {
    assert forall i :: 0 <= i < |c| ==> c[i] in c;
  }

  lemma {:induction false} AcceptablePrefixOfSlice(gate: Gate, c: seq<Entry>, k: nat, end: nat)
    requires k <= AcceptablePrefix(gate, c) && k <= end <= |c|
    ensures AcceptablePrefix(gate, c[k..end]) == Min(AcceptablePrefix(gate, c), end) - k
  {
    var v := AcceptablePrefix(gate, c);
    AcceptablePrefixIff(gate, c, v);
    AcceptablePrefixIff(gate, c[k..end], Min(v, end) - k);
  }

  lemma HeadIsCursorIff(seen: seq<Entry>, c: seq<Entry>, cursor: Option<string>, k: nat)
    requires Chain(c) && seen <= c && k <= |seen| && AtPosition(c, cursor, k)
    ensures (cursor == Some(Head(seen)) && Head(seen) != GENESIS) <==> 0 < k == |seen|
  {
    assert Head(seen) == CursorAt(c, |seen|);
    assert forall i :: 0 <= i < |c| ==> c[i] in c;
    if cursor == Some(Head(seen)) && Head(seen) != GENESIS {
      CursorsAreDistinct(c, k, |seen|);
    }
  }

  /** The cursor `pull_once` returns after absorbing what it was served. */
  ghost function CursorAfter(gate: Gate, files: Files, head: string, served: seq<Entry>, cursor: Option<string>): string {
    var a := Absorb(gate, files, served, cursor, 0);
    OrGenesis(if served == [] && a.cursor.None? then Some(head) else a.cursor)
  }

  lemma CursorAfterPosition(
    gate: Gate, files: Files, head: string, c: seq<Entry>, served: seq<Entry>, cursor: Option<string>, k: nat, end: nat)
    requires Chain(c) && AtPosition(c, cursor, k) && k <= AcceptablePrefix(gate, c)
    requires k <= end <= |c| && served == c[k..end] && (end == 0 ==> head == GENESIS)
    ensures AtPosition(c, Some(CursorAfter(gate, files, head, served, cursor)), Min(AcceptablePrefix(gate, c), end))
  {
    hide Absorb, AcceptablePrefix, DistinctHashes;
    var stop := Min(AcceptablePrefix(gate, c), end);
    AbsorbStopsAtRejection(gate, files, served, cursor, 0);
    AcceptablePrefixOfSlice(gate, c, k, end);
    if k < stop {
      assert served[stop - k - 1] == c[stop - 1] && c[stop - 1] in c;
    }
  }

  lemma AbsorbedPositionIsSafe(
    gate: Gate, files: Files, head: string, c: seq<Entry>, served: seq<Entry>, cursor: Option<string>, k: nat, end: nat)
    requires Chain(c) && SafeAt(gate, files, c, cursor, k)
    requires k <= end <= |c| && served == c[k..end] && (end == 0 ==> head == GENESIS)
    ensures SafeAt(gate, Absorb(gate, files, served, cursor, 0).files, c,
                   Some(CursorAfter(gate, files, head, served, cursor)), Min(AcceptablePrefix(gate, c), end))
  {
    hide Absorb, AcceptablePrefix, CursorAfter, Chain, DistinctHashes, AtPosition, Grown;
    var stop, after := Min(AcceptablePrefix(gate, c), end), Absorb(gate, files, served, cursor, 0).files;
    CursorAfterPosition(gate, files, head, c, served, cursor, k, end);
    AbsorbTakesAcceptablePrefix(gate, files, served, cursor, 0);
    AcceptablePrefixOfSlice(gate, c, k, end);
    assert c[..stop] == c[..k] + served[..stop - k];
    forall e | e in c[..k] ensures Holds(after, e) {
      HoldsGrows(files, after, e);
    }
  }

  /** A pull that asks for something absorbs exactly what it is served. */
  lemma PullAbsorbs(
    gate: Gate, files: Files, head: string, answer: Answer, cursor: Option<string>, batch: int, served: seq<Entry>)
    requires !(cursor == Some(head) && head != GENESIS) && Fetch(answer, OrGenesis(cursor), batch) == Some(served)
    ensures var a := Absorb(gate, files, served, cursor, 0);
            Pull(gate, files, Some(head), answer, cursor, batch)
            == (Pulled(CursorAfter(gate, files, head, served, cursor), a.appended, a.rejected), a.files)
  {
    hide Absorb, Fetch;
  }

  /** What an honest peer serves a cursor at `k`: the next min(batch, 1000) entries. */
  lemma HonestFetch(c: seq<Entry>, cursor: Option<string>, k: nat, batch: nat)
    requires Chain(c) && AtPosition(c, cursor, k)
    ensures Fetch(HonestAnswer(c), OrGenesis(cursor), batch) == Some(c[k..Min(|c|, k + Min(batch, MAX_LIMIT))])
  {
    hide Serve, Chain;
    ServeFromPosition(c, k, batch);
  }

  /**
   * One successful pull.  The head was read from `seen`, an earlier or equal state of the chain the
   * entries are then served from.  If the head is the cursor nothing is requested; otherwise the
   * cursor advances by a full batch, to the end, or to just before the first rejected entry.
   */
  lemma PullAdvances(
    gate: Gate, files: Files, seen: seq<Entry>, c: seq<Entry>, cursor: Option<string>, k: nat, batch: nat)
    requires Chain(c) && seen <= c && k <= |seen| && 1 <= batch
    requires SafeAt(gate, files, c, cursor, k)
    ensures var (result, after) := Pull(gate, files, Some(Head(seen)), HonestAnswer(c), cursor, batch);
            var target := if 0 < k == |seen| then k else NextPosition(gate, c, k, batch);
            && result.Pulled?
            && k <= target
            && SafeAt(gate, after, c, Some(result.cursor), target)
            && Grown(files, after)
            && OnlyAdds(files, after, c)
  {
    HeadIsCursorIff(seen, c, cursor, k);
    if 0 < k == |seen| {
      hide HonestAnswer, AcceptablePrefix, Chain, WellKept, HoldsAll;
    } else {
      PullAsksAndAdvances(gate, files, Head(seen), c, cursor, k, batch);
      hide *;
    }
  }

  lemma OnlyAddsMore(before: Files, after: Files, batch: seq<Entry>, c: seq<Entry>)
    requires OnlyAdds(before, after, batch) && forall x :: x in batch ==> x in c
    ensures OnlyAdds(before, after, c)
  {
    hide FileOf;
  }

  lemma PullAsksAndAdvances(
    gate: Gate, files: Files, head: string, c: seq<Entry>, cursor: Option<string>, k: nat, batch: nat)
    requires Chain(c) && SafeAt(gate, files, c, cursor, k) && 1 <= batch
    requires !(cursor == Some(head) && head != GENESIS) && (c == [] ==> head == GENESIS)
    ensures var (result, after) := Pull(gate, files, Some(head), HonestAnswer(c), cursor, batch);
            var target := NextPosition(gate, c, k, batch);
            && result.Pulled?
            && k <= target
            && SafeAt(gate, after, c, Some(result.cursor), target)
            && Grown(files, after)
            && OnlyAdds(files, after, c)
  {
    hide Pull, Fetch, HonestAnswer, Absorb, WellKept, Chain, CursorAfter, AcceptablePrefix, OnlyAdds, Grown, AtPosition;
    hide HoldsAll;
    var end := Min(|c|, k + Min(batch, MAX_LIMIT));
    var served := c[k..end];
    HonestFetch(c, cursor, k, batch);
    PullAbsorbs(gate, files, head, HonestAnswer(c), cursor, batch, served);
    AbsorbTakesAcceptablePrefix(gate, files, served, cursor, 0);
    AbsorbedPositionIsSafe(gate, files, head, c, served, cursor, k, end);
    OnlyAddsMore(files, Absorb(gate, files, served, cursor, 0).files, served, c);
    AcceptablePrefixIff(gate, c, AcceptablePrefix(gate, c));
  }

  /** A pull depends on no served entries, and changes nothing, exactly at the head of a non-empty chain. */
  lemma PullAtHeadIsIdle(gate: Gate, files: Files, c: seq<Entry>, cursor: Option<string>, k: nat, batch: int)
    requires Chain(c) && AtPosition(c, cursor, k) && k <= |c|
    ensures (forall answer: Answer ::
               Pull(gate, files, Some(Head(c)), answer, cursor, batch) == (Pulled(Head(c), 0, None), files))
            <==> 0 < k == |c|
  {
    HeadIsCursorIff(c, c, cursor, k);
    if !(0 < k == |c|) {
      var silent: Answer := (since, limit) => None;
      assert Pull(gate, files, Some(Head(c)), silent, cursor, batch).0 == PullFailed;
    }
  }

  /** In front of a rejected entry every pull reports that entry again, and neither moves nor stores. */
  lemma PullStuckAtRejection(gate: Gate, files: Files, c: seq<Entry>, cursor: Option<string>, batch: nat)
    requires Chain(c) && 1 <= batch && AcceptablePrefix(gate, c) < |c|
    requires SafeAt(gate, files, c, cursor, AcceptablePrefix(gate, c))
    ensures var v := AcceptablePrefix(gate, c);
            Pull(gate, files, Some(Head(c)), HonestAnswer(c), cursor, batch)
            == (Pulled(CursorAt(c, v), 0, Some(c[v].hash)), files)
  {
    var v := AcceptablePrefix(gate, c);
    var end := Min(|c|, v + Min(batch, MAX_LIMIT));
    var served := c[v..end];
    assert served[0] == c[v] && c[v] in c && c[v].hash != "";
    assert v > 0 ==> c[v - 1] in c && c[v - 1].hash != "";
    HeadIsCursorIff(c, c, cursor, v);
    HonestFetch(c, cursor, v, batch);
    AcceptablePrefixOfSlice(gate, c, v, end);
    hide AcceptablePrefix, WellKept, Chain, Absorb, Pull, Fetch, HonestAnswer;
    PullAbsorbs(gate, files, Head(c), HonestAnswer(c), cursor, batch, served);
    AbsorbStopsAtRejection(gate, files, served, cursor, 0);
    assert served[..0] == [];
    AbsorbOfHeldChangesNothing(gate, files, served, cursor, 0);
  }

  // -------------------------------------------------------------------------
  // Convergence
  // -------------------------------------------------------------------------

  /** The cache and cursor after a number of successful pulls from a chain that stays put. */
  ghost function PullRounds(gate: Gate, files: Files, c: seq<Entry>, cursor: Option<string>, batch: nat, rounds: nat):
    (Files, Option<string>)
    decreases rounds
  {
    if rounds == 0 then (files, cursor)
    else
      match Pull(gate, files, Some(Head(c)), HonestAnswer(c), cursor, batch)
      case (Pulled(next, _, _), after) => PullRounds(gate, after, c, Some(next), batch, rounds - 1)
      case (PullFailed, after) => (after, cursor)
  }

  lemma {:induction false} PullRoundsReach(
    gate: Gate, files: Files, c: seq<Entry>, cursor: Option<string>, k: nat, batch: nat, rounds: nat)
    requires Chain(c) && 1 <= batch && SafeAt(gate, files, c, cursor, k)
    ensures var (after, last) := PullRounds(gate, files, c, cursor, batch, rounds);
            SafeAt(gate, after, c, last, Reach(AcceptablePrefix(gate, c), k, Min(batch, MAX_LIMIT), rounds))
    decreases rounds
  {
    hide Pull, AtPosition, WellKept, HoldsAll, AcceptablePrefix, Chain;
    if rounds > 0 {
      PullAdvances(gate, files, c, c, cursor, k, batch);
      var (result, after) := Pull(gate, files, Some(Head(c)), HonestAnswer(c), cursor, batch);
      PullRoundsReach(gate, after, c, Some(result.cursor), NextPosition(gate, c, k, batch), batch, rounds - 1);
    }
  }

  /**
   * From position `k`, the cursor stands at the end of the acceptable prefix after exactly
   * ceil((v - k) / b) pulls: after `rounds` pulls iff rounds * b covers the distance.
   */
  lemma PullConvergesIff(
    gate: Gate, files: Files, c: seq<Entry>, cursor: Option<string>, k: nat, batch: nat, rounds: nat)
    requires Chain(c) && 1 <= batch && SafeAt(gate, files, c, cursor, k)
    ensures var (after, last) := PullRounds(gate, files, c, cursor, batch, rounds);
            var v := AcceptablePrefix(gate, c);
            SafeAt(gate, after, c, last, v) <==> v - k <= rounds * Min(batch, MAX_LIMIT)
  {
    hide AcceptablePrefix, PullRounds, Reach, WellKept, HoldsAll, CursorAt, Chain;
    var (after, last) := PullRounds(gate, files, c, cursor, batch, rounds);
    var v, b := AcceptablePrefix(gate, c), Min(batch, MAX_LIMIT);
    PullRoundsReach(gate, files, c, cursor, k, batch, rounds);
    ReachClosedForm(v, k, b, rounds);
    if AtPosition(c, last, v) {
      CursorsAreDistinct(c, v, Reach(v, k, b, rounds));
    }
  }

  /**
   * A first pull from a non-empty chain leaves a safe cursor exactly when it asks for something:
   * with a zero batch it adopts the peer's head while holding none of the peer's entries.
   */
  lemma FreshPullSafeIff(gate: Gate, c: seq<Entry>, batch: int)
    requires Chain(c) && c != []
    ensures var (result, after) := Pull(gate, map[], Some(Head(c)), HonestAnswer(c), None, batch);
            && (result.PullFailed? <==> batch < 0)
            && (batch >= 0 ==> ((exists k: nat :: SafeAt(gate, after, c, Some(result.cursor), k)) <==> batch >= 1))
            && (batch == 0 ==> result == Pulled(Head(c), 0, None) && after == map[])
  {
    if batch >= 1 {
      PullAdvances(gate, map[], c, c, None, 0, batch);
      assert SafeAt(gate, Pull(gate, map[], Some(Head(c)), HonestAnswer(c), None, batch).1, c,
                    Some(Pull(gate, map[], Some(Head(c)), HonestAnswer(c), None, batch).0.cursor),
                    NextPosition(gate, c, 0, batch));
    } else if batch == 0 {
      assert c[|c| - 1] in c;
      forall k: nat | AtPosition(c, Some(Head(c)), k) ensures !HoldsAll(map[], c[..k]) {
        CursorsAreDistinct(c, k, |c|);
        assert c[0] in c[..k];
      }
    }
  }

  // -------------------------------------------------------------------------
  // Isolation
  // -------------------------------------------------------------------------

  /** What a pull reports does not depend on what the shared cache already holds. */
  lemma PullResultIgnoresCache(
    gate: Gate, files: Files, other: Files, head: Option<string>, answer: Answer, last: Option<string>, batch: int)
    ensures var (r, _) := Pull(gate, files, head, answer, last, batch);
            var (q, _) := Pull(gate, other, head, answer, last, batch);
            r.Pulled? == q.Pulled? && (r.Pulled? ==> r.cursor == q.cursor && r.rejected == q.rejected)
  {
    if head.Some? && Fetch(answer, OrGenesis(last), batch).Some? {
      AbsorbIgnoresCache(gate, files, other, Fetch(answer, OrGenesis(last), batch).value, last, 0, 0);
    }
  }

  lemma {:induction false} AbsorbIgnoresCache(
    gate: Gate, files: Files, other: Files, served: seq<Entry>, cursor: Option<string>, m: nat, n: nat)
    ensures var a, b := Absorb(gate, files, served, cursor, m), Absorb(gate, other, served, cursor, n);
            a.cursor == b.cursor && a.rejected == b.rejected
    decreases served
  {
    if served != [] {
      var (f, v) := Accept(gate, files, served[0]);
      var (g, w) := Accept(gate, other, served[0]);
      AbsorbIgnoresCache(gate, f, g, served[1..], Some(served[0].hash),
                         m + if v.Stored? then 1 else 0, n + if w.Stored? then 1 else 0);
    }
  }
}
