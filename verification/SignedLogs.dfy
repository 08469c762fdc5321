/** An agent's own append-only log, and the indexed HTTP read side that serves it. */
module SignedLogs {
  import opened Collections
  import opened Entries

  const GENESIS := "GENESIS"
  const MAX_LIMIT := 1000

  ghost predicate DistinctHashes(c: seq<Entry>) {
    forall i, j :: 0 <= i < j < |c| ==> c[i].hash != c[j].hash
  }

  /** A signed log: no hash occurs twice and none is the empty-log sentinel. */
  ghost predicate Chain(c: seq<Entry>) {
    DistinctHashes(c) && forall e :: e in c ==> e.hash != GENESIS && e.hash != ""
  }

  function Head(c: seq<Entry>): string {
    if c == [] then GENESIS else c[|c| - 1].hash
  }

  /** A chain is determined, among its own prefixes, by its head alone. */
  lemma PrefixWithSameHead(a: seq<Entry>, b: seq<Entry>)
    requires Chain(b) && a <= b && Head(a) == Head(b)
    ensures a == b
  {
    assert b != [] ==> b[|b| - 1] in b;
    assert a != [] ==> a[|a| - 1] == b[|a| - 1];
  }

  // -------------------------------------------------------------------------
  // The linear meaning of a query
  // -------------------------------------------------------------------------

  datatype Reply = BadRequest | NotFound | Served(entries: seq<Entry>, head: string)

  /** What follows the entry with hash `h`; None when no entry has it. */
  function After(c: seq<Entry>, h: string): Option<seq<Entry>> {
    if c == [] then None
    else if c[0].hash == h then Some(c[1..])
    else After(c[1..], h)
  }

  function Take(c: seq<Entry>, limit: nat): seq<Entry> {
    if |c| <= limit then c else c[..limit]
  }

  /** `GET /entries`: at most min(limit, 1000) entries strictly after `since`. */
  function Serve(c: seq<Entry>, since: Option<string>, limit: int): Reply {
    if limit < 0 then BadRequest
    else
      match (if since.None? || since.value == GENESIS then Some(c) else After(c, since.value))
      case None => NotFound
      case Some(rest) => Served(Take(rest, Min(limit, MAX_LIMIT)), Head(c))
  }

  lemma {:induction false} AfterPosition(c: seq<Entry>, k: nat)
    requires DistinctHashes(c) && k < |c|
    ensures After(c, c[k].hash) == Some(c[k + 1..])
  {
    if k > 0 {
      AfterPosition(c[1..], k - 1);
      assert c[1..][k..] == c[k + 1..];
    }
  }

  lemma {:induction false} AfterMissing(c: seq<Entry>, h: string)
    ensures After(c, h).None? <==> forall e :: e in c ==> e.hash != h
  {
    if c != [] {
      AfterMissing(c[1..], h);
      assert c == [c[0]] + c[1..];
    }
  }

  /** The hash a reader who holds the first `k` entries asks to continue from. */
  function CursorAt(c: seq<Entry>, k: nat): string
    requires k <= |c|
  {
    if k == 0 then GENESIS else c[k - 1].hash
  }

  lemma ServeFromPosition(c: seq<Entry>, k: nat, limit: nat)
    requires Chain(c) && k <= |c|
    ensures var end := Min(|c|, k + Min(limit, 1000));
            Serve(c, Some(CursorAt(c, k)), limit) == Served(c[k..end], Head(c))
  {
    assert Take(c[k..], Min(limit, MAX_LIMIT)) == c[k..Min(|c|, k + Min(limit, MAX_LIMIT))];
    if k == 0 {
      assert c[0..] == c;
    } else {
      assert c[k - 1] in c;
      AfterPosition(c, k - 1);
    }
  }

  /** A page: the start of what is left, cut at the limit and at 1000 and nowhere else. */
  ghost predicate IsPage(page: seq<Entry>, rest: seq<Entry>, limit: int) {
    && page <= rest && |page| <= limit && |page| <= 1000
    && (page == rest || |page| == limit || |page| == 1000)
  }

  /** Each of the three answers, and what is served. */
  lemma ServeAnswers(c: seq<Entry>, since: Option<string>, limit: int)
    requires Chain(c)
    ensures var reply := Serve(c, since, limit);
            && (reply.BadRequest? <==> limit < 0)
            && (reply.NotFound? <==>
                  0 <= limit && since.Some? && since.value != "GENESIS" && forall e :: e in c ==> e.hash != since.value)
            && (reply.Served? ==> reply.head == if c == [] then "GENESIS" else c[|c| - 1].hash)
            && (reply.Served? && (since.None? || since.value == "GENESIS") ==> IsPage(reply.entries, c, limit))
            && (reply.Served? ==>
                  forall k :: 0 <= k < |c| && since == Some(c[k].hash) ==> IsPage(reply.entries, c[k + 1..], limit))
  {
    if since.Some? {
      AfterMissing(c, since.value);
    }
    forall k | 0 <= k < |c| && since == Some(c[k].hash) && 0 <= limit
      ensures IsPage(Serve(c, since, limit).entries, c[k + 1..], limit)
    {
      assert c[k] in c;
      AfterPosition(c, k);
    }
  }

  /** Follow the served pages for a number of rounds, continuing after the last entry received. */
  function Crawl(c: seq<Entry>, cursor: string, limit: nat, rounds: nat): seq<Entry>
    decreases rounds
  {
    if rounds == 0 then []
    else
      match Serve(c, Some(cursor), limit)
      case Served(page, _) => page + Crawl(c, if page == [] then cursor else Head(page), limit, rounds - 1)
      case _ => []
  }

  /** Where a reader at `k` of `n` stands after some rounds of at most `b` entries each. */
  function Reach(n: nat, k: nat, b: nat, rounds: nat): (end: nat)
    requires k <= n
    ensures k <= end <= n
    decreases rounds
  {
    if rounds == 0 then k else Reach(n, Min(n, k + b), b, rounds - 1)
  }

  lemma {:induction false} ReachClosedForm(n: nat, k: nat, b: nat, rounds: nat)
    requires k <= n
    ensures Reach(n, k, b, rounds) == Min(n, k + rounds * b)
    decreases rounds
  {
    if rounds > 0 {
      ReachClosedForm(n, Min(n, k + b), b, rounds - 1);
      assert rounds * b == b + (rounds - 1) * b;
      assert 0 <= (rounds - 1) * b;
    }
  }

  lemma NoRounds(c: seq<Entry>, k: nat, limit: nat)
    requires k <= |c|
    ensures Crawl(c, CursorAt(c, k), limit, 0) == [] == c[k..Reach(|c|, k, Min(limit, MAX_LIMIT), 0)]
  {
    assert c[k..k] == [];
  }

  lemma ReachFirst(n: nat, k: nat, b: nat, rounds: nat)
    requires k <= n && 0 < rounds
    ensures Reach(n, k, b, rounds) == Reach(n, Min(n, k + b), b, rounds - 1)
  {
  }

  /** Chained queries tile the chain: no gap, no overlap, whatever the page size. */
  lemma {:induction false} PagesTile(c: seq<Entry>, k: nat, limit: nat, rounds: nat)
    requires Chain(c) && k <= |c|
    ensures Crawl(c, CursorAt(c, k), limit, rounds) == c[k..Reach(|c|, k, Min(limit, MAX_LIMIT), rounds)]
    decreases rounds
  {
    hide Crawl, CursorAt, Chain, DistinctHashes, Reach;
    if rounds == 0 {
      NoRounds(c, k, limit);
    } else {
      var b := Min(limit, MAX_LIMIT);
      var end := Min(|c|, k + b);
      ReachFirst(|c|, k, b, rounds);
      CrawlOnePage(c, k, end, limit, rounds);
      PagesTile(c, end, limit, rounds - 1);
      SlicesJoin(c, k, end, Reach(|c|, end, b, rounds - 1));
    }
  }

  lemma SlicesJoin(c: seq<Entry>, i: nat, j: nat, k: nat)
    requires i <= j <= k <= |c|
    ensures c[i..j] + c[j..k] == c[i..k]
  {
  }

  lemma CrawlOnePage(c: seq<Entry>, k: nat, end: nat, limit: nat, rounds: nat)
    requires Chain(c) && k <= |c| && 0 < rounds && end == Min(|c|, k + Min(limit, MAX_LIMIT))
    ensures Crawl(c, CursorAt(c, k), limit, rounds) == c[k..end] + Crawl(c, CursorAt(c, end), limit, rounds - 1)
  {
    ServeFromPosition(c, k, limit);
    assert (if c[k..end] == [] then CursorAt(c, k) else Head(c[k..end])) == CursorAt(c, end);
  }

  /** In particular a crawl from the start returns the whole chain once the pages add up to it. */
  lemma CrawlReturnsChain(c: seq<Entry>, limit: nat, rounds: nat)
    requires Chain(c) && |c| <= rounds * Min(limit, MAX_LIMIT)
    ensures Crawl(c, GENESIS, limit, rounds) == c
  {
    PagesTile(c, 0, limit, rounds);
    ReachClosedForm(|c|, 0, Min(limit, MAX_LIMIT), rounds);
  }

  // -------------------------------------------------------------------------
  // The log and the server over it
  // -------------------------------------------------------------------------

  class SignedLog {
    var entries: seq<Entry>

    ghost predicate Valid() reads this {
      Chain(entries)
    }

    constructor ()
      ensures Valid() && entries == []
    {
      entries := [];
    }

    /** The chain hash covers the previous hash, so an appended hash is new. */
    method Append(e: Entry)
      requires Valid()
      requires e.hash != GENESIS && e.hash != "" && forall x :: x in entries ==> x.hash != e.hash
      modifies this
      ensures Valid() && entries == old(entries) + [e]
    {
      assert forall i :: 0 <= i < |entries| ==> entries[i] in entries;
      entries := entries + [e];
    }

    method LatestHash() returns (h: string)
      ensures h == Head(entries)
    {
      h := GENESIS;
      for i := 0 to |entries|
        invariant h == Head(entries[..i])
      {
        h := entries[i].hash;
      }
      assert entries[..|entries|] == entries;
    }
  }

  class EntryServer {
    const log: SignedLog
    var head: Option<string>
    var cached: Option<seq<Entry>>
    var byHash: map<string, nat>

    ghost predicate Valid() reads this, log {
      && log.Valid()
      && (cached.Some? ==>
            && cached.value <= log.entries
            && head == Some(Head(cached.value))
            && Indexes(byHash, cached.value))
    }

    ghost predicate Indexes(index: map<string, nat>, es: seq<Entry>) {
      && (forall h :: h in index ==> index[h] < |es| && es[index[h]].hash == h)
      && (forall i :: 0 <= i < |es| ==> es[i].hash in index)
    }

    constructor (log: SignedLog)
      requires log.Valid()
      ensures Valid() && this.log == log
    {
      this.log := log;
      head := None;
      cached := None;
      byHash := map[];
    }

    method EnsureEntriesCache()
      requires Valid()
      modifies this
      ensures Valid() && cached == Some(log.entries)
    {
      var latest := log.LatestHash();
      if head == Some(latest) && cached.Some? {
        PrefixWithSameHead(cached.value, log.entries);
        return;
      }
      var entries := log.entries;
      var index: map<string, nat> := map[];
      for i := 0 to |entries|
        invariant Indexes(index, entries[..i])
      {
        index := index[entries[i].hash := i];
        assert entries[..i + 1] == entries[..i] + [entries[i]];
      }
      assert entries[..|entries|] == entries;
      cached := Some(entries);
      byHash := index;
      head := Some(latest);
    }

    method GetHead() returns (h: string)
      requires Valid()
      ensures h == Head(log.entries)
      ensures h == if log.entries == [] then "GENESIS" else log.entries[|log.entries| - 1].hash
    {
      h := log.LatestHash();
    }

    /** The indexed answer is the linear one, however stale the index was. */
    method GetEntries(since: Option<string>, limit: int) returns (reply: Reply)
      requires Valid()
      modifies this
      ensures Valid() && reply == Serve(log.entries, since, limit)
      ensures reply.BadRequest? <==> limit < 0
      ensures reply.NotFound? <==>
                0 <= limit && since.Some? && since.value != "GENESIS"
                && forall e :: e in log.entries ==> e.hash != since.value
      ensures reply.Served? && (since.None? || since.value == "GENESIS") ==> IsPage(reply.entries, log.entries, limit)
      ensures reply.Served? ==>
                forall k :: 0 <= k < |log.entries| && since == Some(log.entries[k].hash) ==>
                              IsPage(reply.entries, log.entries[k + 1..], limit)
    {
      ServeAnswers(log.entries, since, limit);
      hide IsPage;
      if limit < 0 {
        return BadRequest;
      }
      EnsureEntriesCache();
      var all := cached.value;
      var sliced := all;
      if since.Some? && since.value != GENESIS {
        AfterMissing(all, since.value);
        if since.value !in byHash {
          assert forall e :: e in all ==> e.hash != since.value;
          return NotFound;
        }
        var start := byHash[since.value];
        assert all[start] in all;
        AfterPosition(all, start);
        sliced := all[start + 1..];
      }
      reply := Served(Take(sliced, Min(limit, MAX_LIMIT)), head.value);
    }

    method GetEntryByHash(hash: string) returns (found: Option<Entry>)
      requires Valid()
      modifies this
      ensures Valid()
      ensures found.Some? ==> found.value in log.entries && found.value.hash == hash
      ensures found.None? ==> forall e :: e in log.entries ==> e.hash != hash
    {
      EnsureEntriesCache();
      if hash in byHash {
        return Some(cached.value[byHash[hash]]);
      }
      return None;
    }
  }
}
