/**
 * Many agents, each with its own log, its cache of the others' logs and its pull cursors, under
 * any interleaving of appends, pulls, failures, restarts and out-of-order deposits.
 */
module Agreement {
  import opened Collections
  import opened Entries
  import opened CommunityLedger
  import opened LedgerInvariants
  import opened ReplayOrder
  import opened SignedLogs
  import opened PeerLogs
  import opened PullSync

  datatype Agent = Agent(own: seq<Entry>, files: Files, cursors: map<string, string>)

  type World = map<string, Agent>

  datatype Event =
    | Append(agent: string, entry: Entry)
      // `headSeen` is how much of the source's log existed when its head was read.
    | PullFrom(agent: string, source: string, headSeen: nat, batch: nat)
    | TransportFailure(agent: string, source: string)
      // The process restarts: files survive, the in-memory cursors do not.
    | Restart(agent: string)
      // A join request or a posted entry: anything at all reaches the cache's gate.
    | Deposit(agent: string, entry: Entry)

  function GateOf(verify: Entry -> bool, id: string): Gate {
    Gate(Some(id), verify)
  }

  function CursorOf(a: Agent, source: string): Option<string> {
    if source in a.cursors then Some(a.cursors[source]) else None
  }

  ghost predicate Enabled(verify: Entry -> bool, w: World, ev: Event) {
    && ev.agent in w
    && match ev
       case Append(id, e) =>
         e.reporter == id && verify(e) && forall x :: x in w[id].own ==> x.hash != e.hash
       case PullFrom(id, source, headSeen, batch) =>
         // The head is read after the cursor was last set, so it is not older than the cursor.
         && source in w && source != id && 1 <= batch && headSeen <= |w[source].own|
         && forall k: nat :: AtPosition(w[source].own, CursorOf(w[id], source), k) ==> k <= headSeen
       case TransportFailure(id, source) => true
       case Restart(id) => true
       case Deposit(id, e) =>
         // Signatures cannot be forged: a verified entry by an agent is one that agent wrote.
         verify(e) && e.reporter in w ==> e in w[e.reporter].own
  }

  ghost function Next(verify: Entry -> bool, w: World, ev: Event): World
    requires ev.agent in w && (ev.PullFrom? ==> ev.source in w && ev.headSeen <= |w[ev.source].own|)
  {
    var a := w[ev.agent];
    match ev
    case Append(id, e) => w[id := a.(own := a.own + [e])]
    case PullFrom(id, source, headSeen, batch) => (
      var chain := w[source].own;
      var head := Head(chain[..headSeen]);
      match Pull(GateOf(verify, id), a.files, Some(head), HonestAnswer(chain), CursorOf(a, source), batch)
      case (PullFailed, files) => w[id := a.(files := files)]
      case (Pulled(cursor, _, _), files) => w[id := a.(files := files, cursors := a.cursors[source := cursor])])
    case TransportFailure(_, _) => w
    case Restart(id) => w[id := a.(cursors := map[])]
    case Deposit(id, e) => w[id := a.(files := Accept(GateOf(verify, id), a.files, e).0)]
  }

  ghost predicate LegalRun(verify: Entry -> bool, w: World, run: seq<Event>)
    decreases |run|, 0
  {
    run != [] ==>
      && LegalRun(verify, w, run[..|run| - 1])
      && Enabled(verify, After(verify, w, run[..|run| - 1]), run[|run| - 1])
  }

  ghost function After(verify: Entry -> bool, w: World, run: seq<Event>): World
    requires LegalRun(verify, w, run)
    decreases |run|, 1
  {
    if run == [] then w else Next(verify, After(verify, w, run[..|run| - 1]), run[|run| - 1])
  }

  // -------------------------------------------------------------------------
  // The invariant
  // -------------------------------------------------------------------------

  ghost predicate OwnLog(verify: Entry -> bool, id: string, own: seq<Entry>) {
    Chain(own) && forall e :: e in own ==> e.reporter == id && verify(e)
  }

  /** Whatever is cached under an agent's name, that agent wrote. */
  ghost predicate Genuine(w: World, files: Files) {
    forall s, e :: s in w && e in FileOf(files, s) ==> e in w[s].own
  }

  ghost predicate SafeSomewhere(gate: Gate, files: Files, c: seq<Entry>, cursor: Option<string>) {
    exists k: nat :: SafeAt(gate, files, c, cursor, k)
  }

  ghost predicate Sound(verify: Entry -> bool, w: World) {
    forall i :: i in w ==>
      && OwnLog(verify, i, w[i].own)
      && WellKept(GateOf(verify, i), w[i].files)
      && Genuine(w, w[i].files)
      && forall j :: j in w && j != i ==> SafeSomewhere(GateOf(verify, i), w[i].files, w[j].own, CursorOf(w[i], j))
  }

  ghost predicate Initial(w: World) {
    forall i :: i in w ==> w[i] == Agent([], map[], map[])
  }

  /** The head a reader saw when the log had this many entries. */
  function HeadAt(own: seq<Entry>, headSeen: nat): string
    requires headSeen <= |own|
  {
    if headSeen == 0 then "GENESIS" else own[headSeen - 1].hash
  }

  /** What each event does to the agent it happens at; no other agent notices. */
  lemma EventEffects(verify: Entry -> bool, w: World, ev: Event)
    requires Sound(verify, w) && Enabled(verify, w, ev)
    ensures Next(verify, w, ev).Keys == w.Keys
    ensures forall i :: i in w && i != ev.agent ==> Next(verify, w, ev)[i] == w[i]
    ensures HasEffect(verify, w, ev, w[ev.agent], Next(verify, w, ev)[ev.agent])
  {
    hide IsPull, Pull, HonestAnswer, WellKept, Genuine, SafeSomewhere, OwnLog;
    if ev.PullFrom? {
      var a, chain := w[ev.agent], w[ev.source].own;
      assert Head(chain[..ev.headSeen]) == HeadAt(chain, ev.headSeen);
      PullIsPull(GateOf(verify, ev.agent), a.files, Some(HeadAt(chain, ev.headSeen)), HonestAnswer(chain),
                 CursorOf(a, ev.source), ev.batch);
    }
  }

  /** The event's effect on its agent, before and after, in terms of the log, the files and the cursors. */
  ghost predicate HasEffect(verify: Entry -> bool, w: World, ev: Event, before: Agent, after: Agent)
    requires ev.PullFrom? ==> ev.source in w && ev.headSeen <= |w[ev.source].own|
  {
    match ev
    case Append(_, e) => after == Agent(before.own + [e], before.files, before.cursors)
    case TransportFailure(_, _) => after == before
    case Restart(_) => after == Agent(before.own, before.files, map[])
    case Deposit(id, e) =>
      && after.own == before.own && after.cursors == before.cursors
      && var file := if e.reporter in before.files then before.files[e.reporter] else [];
         var isNew := e.reporter != id && verify(e) && forall x :: x in file ==> x.hash != e.hash;
         after.files == if isNew then before.files[e.reporter := file + [e]] else before.files
    case PullFrom(id, source, headSeen, batch) =>
      && after.own == before.own
      && exists result ::
           && IsPull(GateOf(verify, id), before.files, Some(HeadAt(w[source].own, headSeen)),
                     HonestAnswer(w[source].own), CursorOf(before, source), batch, result, after.files)
           && after.cursors == match result
                               case PullFailed => before.cursors
                               case Pulled(to, _, _) => before.cursors[source := to]
  }

  lemma InitialIsSound(verify: Entry -> bool, w: World)
    requires Initial(w)
    ensures Sound(verify, w)
  {
    forall i, j | i in w && j in w
      ensures SafeSomewhere(GateOf(verify, i), w[i].files, w[j].own, CursorOf(w[i], j))
    {
      assert SafeAt(GateOf(verify, i), w[i].files, w[j].own, CursorOf(w[i], j), 0);
    }
  }

  /** A peer's whole log passes the gate of everybody else. */
  lemma PeerLogAcceptable(verify: Entry -> bool, i: string, j: string, own: seq<Entry>)
    requires i != j && OwnLog(verify, j, own)
    ensures AcceptablePrefix(GateOf(verify, i), own) == |own|
  {
    assert forall k :: 0 <= k < |own| ==> own[k] in own;
    AcceptablePrefixIff(GateOf(verify, i), own, |own|);
  }

  lemma SafeWithMoreFiles(gate: Gate, before: Files, after: Files, c: seq<Entry>, cursor: Option<string>, k: nat)
    requires SafeAt(gate, before, c, cursor, k) && Grown(before, after) && WellKept(gate, after)
    ensures SafeAt(gate, after, c, cursor, k)
  {
    forall e | e in c[..k] ensures Holds(after, e) {
      HoldsGrows(before, after, e);
    }
  }

  lemma SafeAtStart(gate: Gate, files: Files, c: seq<Entry>)
    requires WellKept(gate, files)
    ensures SafeAt(gate, files, c, None, 0)
  {
  }

  lemma SafeWithLongerLog(gate: Gate, files: Files, c: seq<Entry>, e: Entry, cursor: Option<string>, k: nat)
    requires SafeAt(gate, files, c, cursor, k) && gate.Acceptable(e)
    ensures SafeAt(gate, files, c + [e], cursor, k)
  {
    var v := AcceptablePrefix(gate, c);
    AcceptablePrefixIff(gate, c, v);
    AcceptablePrefixIff(gate, c + [e], if v == |c| then v + 1 else v);
    assert (c + [e])[..k] == c[..k];
    assert k > 0 ==> (c + [e])[k - 1] == c[k - 1];
  }

  lemma EventKeepsSound(verify: Entry -> bool, w: World, ev: Event)
    requires GateOf(verify, "").Sound() && Sound(verify, w) && Enabled(verify, w, ev)
    ensures Sound(verify, Next(verify, w, ev))
  {
    match ev
    case Append(id, e) => AppendKeepsSound(verify, w, id, e);
    case PullFrom(id, source, headSeen, batch) =>
      var k := PullLands(verify, w, id, source, headSeen, batch);
    case TransportFailure(_, _) =>
    case Restart(id) => RestartKeepsSound(verify, w, id);
    case Deposit(id, e) =>
      AcceptKeepsFiles(GateOf(verify, id), w[id].files, e);
      NewFilesKeepSound(verify, w, id, Accept(GateOf(verify, id), w[id].files, e).0);
  }

  lemma LongerOwnLog(verify: Entry -> bool, id: string, own: seq<Entry>, e: Entry)
    requires GateOf(verify, "").Sound() && OwnLog(verify, id, own)
    requires e.reporter == id && verify(e) && forall x :: x in own ==> x.hash != e.hash
    ensures OwnLog(verify, id, own + [e])
  {
    forall i, j | 0 <= i < j < |own + [e]| ensures (own + [e])[i].hash != (own + [e])[j].hash {
      assert own[i] in own;
    }
  }

  lemma AppendKeepsSound(verify: Entry -> bool, w: World, id: string, e: Entry)
    requires GateOf(verify, "").Sound() && Sound(verify, w) && Enabled(verify, w, Append(id, e))
    ensures Sound(verify, Next(verify, w, Append(id, e)))
  {
    LongerOwnLog(verify, id, w[id].own, e);
    hide SafeAt, OwnLog, WellKept, Gate.Sound, FileOf;
    var u := Next(verify, w, Append(id, e));
    assert u == w[id := w[id].(own := w[id].own + [e])];
    forall i | i in w ensures Genuine(u, w[i].files) {
    }
    forall i | i in w && i != id
      ensures SafeSomewhere(GateOf(verify, i), w[i].files, u[id].own, CursorOf(w[i], id))
    {
      var k: nat :| SafeAt(GateOf(verify, i), w[i].files, w[id].own, CursorOf(w[i], id), k);
      SafeWithLongerLog(GateOf(verify, i), w[i].files, w[id].own, e, CursorOf(w[i], id), k);
    }
    hide Genuine, SafeSomewhere;
  }

  lemma RestartKeepsSound(verify: Entry -> bool, w: World, id: string)
    requires Sound(verify, w) && id in w
    ensures Sound(verify, Next(verify, w, Restart(id)))
  {
    forall j | j in w && j != id ensures SafeAt(GateOf(verify, id), w[id].files, w[j].own, None, 0) {
    }
  }

  /** More cached entries, all genuine, disturb no cursor. */
  lemma NewFilesKeepSound(verify: Entry -> bool, w: World, id: string, files: Files)
    requires Sound(verify, w) && id in w
    requires Grown(w[id].files, files) && WellKept(GateOf(verify, id), files) && Genuine(w, files)
    ensures Sound(verify, w[id := w[id].(files := files)])
  {
    hide SafeAt, OwnLog, WellKept, Grown, FileOf;
    forall j | j in w && j != id
      ensures SafeSomewhere(GateOf(verify, id), files, w[j].own, CursorOf(w[id], j))
    {
      var k: nat :| SafeAt(GateOf(verify, id), w[id].files, w[j].own, CursorOf(w[id], j), k);
      SafeWithMoreFiles(GateOf(verify, id), w[id].files, files, w[j].own, CursorOf(w[id], j), k);
    }
  }

  /** Where a pull takes the cursor: never backwards, and a full batch on if the head was current. */
  lemma PullLands(verify: Entry -> bool, w: World, id: string, source: string, headSeen: nat, batch: nat)
    returns (k: nat)
    requires Sound(verify, w) && Enabled(verify, w, PullFrom(id, source, headSeen, batch))
    ensures var u := Next(verify, w, PullFrom(id, source, headSeen, batch));
            var own := w[source].own;
            && Sound(verify, u)
            && SafeAt(GateOf(verify, id), w[id].files, own, CursorOf(w[id], source), k)
            && var target := if 0 < k == headSeen then k else Min(|own|, k + Min(batch, MAX_LIMIT));
               SafeAt(GateOf(verify, id), u[id].files, own, CursorOf(u[id], source), target)
  {
    hide SafeAt, OwnLog, WellKept, Grown, Pull, HonestAnswer;
    var gate, own, a := GateOf(verify, id), w[source].own, w[id];
    k :| SafeAt(gate, a.files, own, CursorOf(a, source), k);
    PullOutcome(verify, w, id, source, headSeen, batch, k);
    var (result, files) := Pull(gate, a.files, Some(Head(own[..headSeen])), HonestAnswer(own), CursorOf(a, source), batch);
    NewFilesKeepSound(verify, w, id, files);
    var u := Next(verify, w, PullFrom(id, source, headSeen, batch));
    assert u == w[id := a.(files := files, cursors := a.cursors[source := result.cursor])];
    assert SafeSomewhere(gate, files, own, CursorOf(u[id], source));
    forall j | j in w && j != id && j != source
      ensures SafeSomewhere(gate, files, w[j].own, CursorOf(u[id], j))
    {
      assert CursorOf(u[id], j) == CursorOf(a, j);
    }
  }

  lemma PullOutcome(verify: Entry -> bool, w: World, id: string, source: string, headSeen: nat, batch: nat, k: nat)
    requires Sound(verify, w) && Enabled(verify, w, PullFrom(id, source, headSeen, batch))
    requires SafeAt(GateOf(verify, id), w[id].files, w[source].own, CursorOf(w[id], source), k)
    ensures var gate, own, a := GateOf(verify, id), w[source].own, w[id];
            var (result, files) :=
              Pull(gate, a.files, Some(Head(own[..headSeen])), HonestAnswer(own), CursorOf(a, source), batch);
            && result.Pulled?
            && Grown(a.files, files) && OnlyAdds(a.files, files, own) && WellKept(gate, files) && Genuine(w, files)
            && var target := if 0 < k == headSeen then k else Min(|own|, k + Min(batch, MAX_LIMIT));
               SafeAt(gate, files, own, Some(result.cursor), target)
  {
    hide Pull, HonestAnswer, Holds, Grown, WellKept, DistinctHashes, Genuine, OnlyAdds, SafeSomewhere;
    var gate, own, a := GateOf(verify, id), w[source].own, w[id];
    PeerLogAcceptable(verify, id, source, own);
    PullAdvances(gate, a.files, own[..headSeen], own, CursorOf(a, source), k, batch);
    var files := Pull(gate, a.files, Some(Head(own[..headSeen])), HonestAnswer(own), CursorOf(a, source), batch).1;
    StaysGenuine(verify, w, a.files, files, source);
  }

  lemma StaysGenuine(verify: Entry -> bool, w: World, before: Files, after: Files, source: string)
    requires source in w && OwnLog(verify, source, w[source].own)
    requires Genuine(w, before) && OnlyAdds(before, after, w[source].own)
    ensures Genuine(w, after)
  {
    forall s, e | s in w && e in FileOf(after, s) ensures e in w[s].own {
      if e !in FileOf(before, s) {
        assert e in w[source].own && e.reporter == s == source;
      }
    }
  }

  lemma {:induction false} RunKeepsSound(verify: Entry -> bool, w: World, run: seq<Event>)
    requires GateOf(verify, "").Sound() && Sound(verify, w) && LegalRun(verify, w, run)
    ensures Sound(verify, After(verify, w, run))
    ensures After(verify, w, run).Keys == w.Keys
  {
    if run != [] {
      RunKeepsSound(verify, w, run[..|run| - 1]);
      EventKeepsSound(verify, After(verify, w, run[..|run| - 1]), run[|run| - 1]);
    }
  }

  // -------------------------------------------------------------------------
  // Convergence
  // -------------------------------------------------------------------------

  ghost predicate Quiet(run: seq<Event>) {
    forall ev :: ev in run ==> !ev.Append?
  }

  /** Full-size pulls by `id` from `source` since the run's last restart of `id`, with a current head. */
  ghost function EffectivePulls(run: seq<Event>, id: string, source: string, length: nat, b: nat): nat {
    if run == [] then 0
    else
      var earlier, last := run[..|run| - 1], run[|run| - 1];
      if last == Restart(id) then 0
      else
        EffectivePulls(earlier, id, source, length, b)
        + if Effective(last, id, source, length, b) then 1 else 0
  }

  /** The best stretch between restarts of `id`: what it once cached it keeps, so later restarts cost nothing. */
  ghost function BestPulls(run: seq<Event>, id: string, source: string, length: nat, b: nat): nat {
    if run == [] then 0
    else Max(BestPulls(run[..|run| - 1], id, source, length, b), EffectivePulls(run, id, source, length, b))
  }

  predicate Effective(ev: Event, id: string, source: string, length: nat, b: nat) {
    ev.PullFrom? && ev.agent == id && ev.source == source && ev.headSeen == length && b <= Min(ev.batch, MAX_LIMIT)
  }

  /** How one more event counts: a restart starts over, a full batch of everything there counts one, nothing else does. */
  lemma EffectivePullsCount(run: seq<Event>, ev: Event, id: string, source: string, length: nat, b: nat)
    ensures EffectivePulls([], id, source, length, b) == 0 == BestPulls([], id, source, length, b)
    ensures var before := EffectivePulls(run, id, source, length, b);
            EffectivePulls(run + [ev], id, source, length, b) ==
            if ev == Restart(id) then 0
            else if ev.PullFrom? && ev == PullFrom(id, source, length, ev.batch) && b <= ev.batch && b <= 1000 then before + 1
            else before
    ensures var now, best := EffectivePulls(run + [ev], id, source, length, b), BestPulls(run, id, source, length, b);
            BestPulls(run + [ev], id, source, length, b) == if best < now then now else best
  {
    assert (run + [ev])[..|run|] == run;
  }

  /**
   * One more event of any kind: a restart loses the cursor, an effective pull gains a batch, nothing
   * else moves it back, an entry appended by the source meanwhile included.
   */
  lemma LastEventAdds(
    verify: Entry -> bool, w: World, ev: Event, id: string, source: string, b: nat, k0: nat) returns (k: nat)
    requires Sound(verify, w) && Enabled(verify, w, ev)
    requires GateOf(verify, "").Sound() && id in w && source in w && id != source
    requires SafeAt(GateOf(verify, id), w[id].files, w[source].own, CursorOf(w[id], source), k0)
    ensures var u := Next(verify, w, ev);
            && SafeAt(GateOf(verify, id), u[id].files, u[source].own, CursorOf(u[id], source), k)
            && (if ev == Restart(id) then k == 0 else k0 <= k)
            && (Effective(ev, id, source, |w[source].own|, b) ==> Min(|w[source].own|, k0 + b) <= k)
  {
    hide SafeAt, OwnLog, WellKept, Genuine, SafeSomewhere, Accept, Pull, HonestAnswer, Grown;
    var gate, own, u := GateOf(verify, id), w[source].own, Next(verify, w, ev);
    k := k0;
    match ev
    case Append(author, e) =>
      if author == source {
        SafeWithLongerLog(gate, w[id].files, own, e, CursorOf(w[id], source), k0);
      }
    case Restart(agent) =>
      if agent == id {
        k := 0;
        SafeAtStart(gate, w[id].files, own);
      }
    case Deposit(agent, e) =>
      if agent == id {
        AcceptKeepsFiles(gate, w[id].files, e);
        SafeWithMoreFiles(gate, w[id].files, u[id].files, own, CursorOf(w[id], source), k0);
      }
    case TransportFailure(_, _) =>
    case PullFrom(agent, other, headSeen, batch) =>
      if agent == id {
        k := PullAdds(verify, w, id, other, headSeen, batch, source, k0);
      }
  }

  lemma PullAdds(
    verify: Entry -> bool, w: World, id: string, other: string, headSeen: nat, batch: nat, source: string, k0: nat)
    returns (k: nat)
    requires Sound(verify, w) && Enabled(verify, w, PullFrom(id, other, headSeen, batch))
    requires source in w && id != source
    requires SafeAt(GateOf(verify, id), w[id].files, w[source].own, CursorOf(w[id], source), k0)
    ensures var u := Next(verify, w, PullFrom(id, other, headSeen, batch));
            && SafeAt(GateOf(verify, id), u[id].files, w[source].own, CursorOf(u[id], source), k)
            && k0 <= k
            && (other == source && headSeen == |w[source].own| ==>
                  Min(|w[source].own|, k0 + Min(batch, MAX_LIMIT)) <= k)
  {
    hide SafeAt, OwnLog, WellKept, Genuine, SafeSomewhere, Accept, Pull, HonestAnswer, Grown, OnlyAdds;
    var gate, own, u := GateOf(verify, id), w[source].own, Next(verify, w, PullFrom(id, other, headSeen, batch));
    SafePositionUnique(verify, w, id, source, k0);
    var k1 := PullLands(verify, w, id, other, headSeen, batch);
    if other == source {
      k := if 0 < k1 == headSeen then k1 else Min(|own|, k1 + Min(batch, MAX_LIMIT));
    } else {
      k := k0;
      PullOutcome(verify, w, id, other, headSeen, batch, k1);
      SafeWithMoreFiles(gate, w[id].files, u[id].files, own, CursorOf(w[id], source), k0);
    }
  }

  /** While it does not restart, an agent's position in another's log never goes back, whatever else happens. */
  lemma {:induction false} CursorNeverGoesBack(
    verify: Entry -> bool, w: World, run: seq<Event>, id: string, source: string, k0: nat) returns (k: nat)
    requires GateOf(verify, "").Sound() && Sound(verify, w) && LegalRun(verify, w, run)
    requires id in w && source in w && id != source && Restart(id) !in run
    requires SafeAt(GateOf(verify, id), w[id].files, w[source].own, CursorOf(w[id], source), k0)
    ensures After(verify, w, run).Keys == w.Keys
    ensures var u := After(verify, w, run);
            k0 <= k && SafeAt(GateOf(verify, id), u[id].files, u[source].own, CursorOf(u[id], source), k)
  {
    hide SafeAt, Enabled, Next, OwnLog, WellKept, Genuine, Gate.Sound, Sound;
    RunKeepsSound(verify, w, run);
    if run == [] {
      k := k0;
    } else {
      var earlier, last := run[..|run| - 1], run[|run| - 1];
      assert last in run && forall ev :: ev in earlier ==> ev in run;
      RunKeepsSound(verify, w, earlier);
      var k1 := CursorNeverGoesBack(verify, w, earlier, id, source, k0);
      k := LastEventAdds(verify, After(verify, w, earlier), last, id, source, 0, k1);
    }
  }

  lemma {:induction false} QuietKeepsLogs(verify: Entry -> bool, w: World, run: seq<Event>, j: string)
    requires LegalRun(verify, w, run) && Quiet(run) && j in w
    ensures j in After(verify, w, run) && After(verify, w, run)[j].own == w[j].own
  {
    if run != [] {
      assert Quiet(run[..|run| - 1]) && !run[|run| - 1].Append?;
      QuietKeepsLogs(verify, w, run[..|run| - 1], j);
    }
  }

  /** In a quiet run each effective pull since the last restart is worth a full batch of the source's log. */
  lemma {:induction false} PullsAddUp(
    verify: Entry -> bool, w: World, run: seq<Event>, id: string, source: string, b: nat) returns (k: nat)
    requires GateOf(verify, "").Sound() && Sound(verify, w) && LegalRun(verify, w, run) && Quiet(run)
    requires id in w && source in w && id != source
    ensures id in After(verify, w, run)
    ensures var u := After(verify, w, run);
            && SafeAt(GateOf(verify, id), u[id].files, w[source].own, CursorOf(u[id], source), k)
            && Min(|w[source].own|, b * EffectivePulls(run, id, source, |w[source].own|, b)) <= k
  {
    hide SafeAt, Enabled, Next, OwnLog, WellKept, Genuine, Gate.Sound, Quiet;
    RunKeepsSound(verify, w, run);
    QuietKeepsLogs(verify, w, run, source);
    if run == [] {
      k :| SafeAt(GateOf(verify, id), w[id].files, w[source].own, CursorOf(w[id], source), k);
    } else {
      hide Sound, SafeSomewhere;
      var earlier, last := run[..|run| - 1], run[|run| - 1];
      QuietPrefix(run);
      RunKeepsSound(verify, w, earlier);
      QuietKeepsLogs(verify, w, earlier, source);
      var k0 := PullsAddUp(verify, w, earlier, id, source, b);
      k := LastEventAdds(verify, After(verify, w, earlier), last, id, source, b, k0);
      OneMoreBatch(b, EffectivePulls(earlier, id, source, |w[source].own|, b));
    }
  }

  lemma QuietPrefix(run: seq<Event>)
    requires run != [] && Quiet(run)
    ensures Quiet(run[..|run| - 1]) && !run[|run| - 1].Append?
  {
  }

  lemma OneMoreBatch(b: nat, n: nat)
    ensures b * (n + 1) == b * n + b && b * 0 == 0
  {
  }

  lemma SafePositionUnique(verify: Entry -> bool, w: World, id: string, source: string, k: nat)
    requires Sound(verify, w) && id in w && source in w
    requires SafeAt(GateOf(verify, id), w[id].files, w[source].own, CursorOf(w[id], source), k)
    ensures k <= |w[source].own|
    ensures forall j: nat :: SafeAt(GateOf(verify, id), w[id].files, w[source].own, CursorOf(w[id], source), j) ==> j == k
  {
    forall j: nat | SafeAt(GateOf(verify, id), w[id].files, w[source].own, CursorOf(w[id], source), j)
      ensures j == k
    {
      assert OwnLog(verify, source, w[source].own);
      CursorsAreDistinct(w[source].own, j, k);
    }
  }

  // -------------------------------------------------------------------------
  // Agreement
  // -------------------------------------------------------------------------

  ghost predicate InView(a: Agent, e: Entry) {
    e in a.own || e in FileOf(a.files, e.reporter)
  }

  /** Everybody caches all of everybody else's log. */
  ghost predicate Synced(w: World) {
    forall i, j, e :: i in w && j in w && i != j && e in w[j].own ==> e in FileOf(w[i].files, j)
  }

  lemma HeldIsCached(verify: Entry -> bool, w: World, i: string, j: string, e: Entry)
    requires Sound(verify, w) && i in w && j in w && e in w[j].own && Holds(w[i].files, e)
    ensures e in FileOf(w[i].files, j)
  {
    var x :| x in FileOf(w[i].files, e.reporter) && x.hash == e.hash;
    assert x in w[j].own;
  }

  ghost predicate Caches(w: World, i: string, j: string)
    requires i in w && j in w
  {
    forall e :: e in w[j].own ==> e in FileOf(w[i].files, j)
  }

  /** No event takes anything out of a cache, a restart included. */
  lemma FilesOnlyGrow(verify: Entry -> bool, w: World, ev: Event, i: string)
    requires GateOf(verify, "").Sound() && Sound(verify, w) && Enabled(verify, w, ev) && i in w
    ensures i in Next(verify, w, ev) && Grown(w[i].files, Next(verify, w, ev)[i].files)
  {
    hide SafeAt, OwnLog, Genuine, Pull, HonestAnswer, Accept, Gate.Sound;
    match ev
    case Deposit(id, e) => AcceptKeepsFiles(GateOf(verify, id), w[id].files, e);
    case PullFrom(id, source, headSeen, batch) =>
      var k := PullLands(verify, w, id, source, headSeen, batch);
      PullOutcome(verify, w, id, source, headSeen, batch, k);
    case _ =>
  }

  lemma GrownKeepsEntry(before: Files, after: Files, source: string, e: Entry)
    requires Grown(before, after) && e in FileOf(before, source)
    ensures e in FileOf(after, source)
  {
  }

  /** Whatever an agent has pulled in its best stretch it holds at the end of the run. */
  lemma {:induction false} BestPullsCache(verify: Entry -> bool, w: World, run: seq<Event>, i: string, j: string, b: nat)
    requires GateOf(verify, "").Sound() && Sound(verify, w) && LegalRun(verify, w, run) && Quiet(run)
    requires i in w && j in w && i != j && |w[j].own| <= b * BestPulls(run, i, j, |w[j].own|, b)
    ensures After(verify, w, run).Keys == w.Keys && Caches(After(verify, w, run), i, j)
  {
    hide SafeAt, Enabled, Next, OwnLog, WellKept, Genuine, Gate.Sound, Quiet, EffectivePulls, Grown;
    RunKeepsSound(verify, w, run);
    QuietKeepsLogs(verify, w, run, j);
    var u := After(verify, w, run);
    if run != [] && |w[j].own| <= b * BestPulls(run[..|run| - 1], i, j, |w[j].own|, b) {
      var earlier, last := run[..|run| - 1], run[|run| - 1];
      QuietPrefix(run);
      BestPullsCache(verify, w, earlier, i, j, b);
      RunKeepsSound(verify, w, earlier);
      QuietKeepsLogs(verify, w, earlier, j);
      var v := After(verify, w, earlier);
      hide Sound;
      FilesOnlyGrow(verify, v, last, i);
      forall e | e in u[j].own ensures e in FileOf(u[i].files, j) {
        GrownKeepsEntry(v[i].files, u[i].files, j, e);
      }
    } else {
      NothingBefore(run, i, j, |w[j].own|, b);
      PullsCache(verify, w, run, i, j, b);
    }
  }

  lemma NothingBefore(run: seq<Event>, id: string, source: string, length: nat, b: nat)
    requires length <= b * BestPulls(run, id, source, length, b)
    requires run != [] ==> length > b * BestPulls(run[..|run| - 1], id, source, length, b)
    ensures length <= b * EffectivePulls(run, id, source, length, b)
  {
    hide EffectivePulls;
    OneMoreBatch(b, 0);
  }

  /** Enough pulls in the last stretch leave the whole log cached. */
  lemma PullsCache(verify: Entry -> bool, w: World, run: seq<Event>, i: string, j: string, b: nat)
    requires GateOf(verify, "").Sound() && Sound(verify, w) && LegalRun(verify, w, run) && Quiet(run)
    requires i in w && j in w && i != j && |w[j].own| <= b * EffectivePulls(run, i, j, |w[j].own|, b)
    ensures After(verify, w, run).Keys == w.Keys && Caches(After(verify, w, run), i, j)
  {
    hide EffectivePulls, LegalRun, Quiet, WellKept, Holds, Gate.Sound, OwnLog, Genuine, SafeSomewhere;
    RunKeepsSound(verify, w, run);
    QuietKeepsLogs(verify, w, run, j);
    var k := PullsAddUp(verify, w, run, i, j, b);
    SafeToTheEnd(verify, After(verify, w, run), i, j, CursorOf(After(verify, w, run)[i], j), k);
  }

  lemma SafeToTheEnd(verify: Entry -> bool, u: World, i: string, j: string, cursor: Option<string>, k: nat)
    requires Sound(verify, u) && i in u && j in u && i != j && |u[j].own| <= k
    requires SafeAt(GateOf(verify, i), u[i].files, u[j].own, cursor, k)
    ensures Caches(u, i, j)
  {
    assert u[j].own[..k] == u[j].own;
    hide Sound, WellKept, Holds;
    forall e | e in u[j].own ensures e in FileOf(u[i].files, j) {
      HeldIsCached(verify, u, i, j, e);
    }
  }

  function Repeated(ev: Event, n: nat): seq<Event> {
    if n == 0 then [] else Repeated(ev, n - 1) + [ev]
  }

  /** Catching up is always possible, and takes no more than it must: in any sound world that many pulls in a row do. */
  lemma PullingCatchesUp(verify: Entry -> bool, w: World, i: string, j: string, batch: nat, n: nat)
    requires GateOf(verify, "").Sound() && Sound(verify, w) && i in w && j in w && i != j
    requires 1 <= batch && |w[j].own| <= (if batch < 1000 then batch else 1000) * n
    ensures var run := Repeated(PullFrom(i, j, |w[j].own|, batch), n);
            && LegalRun(verify, w, run) && Quiet(run)
            && After(verify, w, run).Keys == w.Keys && Caches(After(verify, w, run), i, j)
  {
    hide *;
    var run := Repeated(PullFrom(i, j, |w[j].own|, batch), n);
    RepeatedPullsAreLegal(verify, w, i, j, batch, n);
    PullsCache(verify, w, run, i, j, if batch < 1000 then batch else 1000);
  }

  lemma {:induction false} RepeatedPullsAreLegal(verify: Entry -> bool, w: World, i: string, j: string, batch: nat, n: nat)
    requires Sound(verify, w) && GateOf(verify, "").Sound() && i in w && j in w && i != j && 1 <= batch
    ensures var run := Repeated(PullFrom(i, j, |w[j].own|, batch), n);
            && LegalRun(verify, w, run) && Quiet(run)
            && EffectivePulls(run, i, j, |w[j].own|, if batch < 1000 then batch else 1000) == n
  {
    hide Sound, Gate.Sound, Next, EffectivePulls, BestPulls, LegalRun, Enabled, After, Quiet, AtPosition;
    var length, b := |w[j].own|, if batch < 1000 then batch else 1000;
    var ev := PullFrom(i, j, length, batch);
    if n == 0 {
      NothingIsLegal(verify, w);
      EffectivePullsCount([], ev, i, j, length, b);
    } else {
      var earlier := Repeated(ev, n - 1);
      RepeatedPullsAreLegal(verify, w, i, j, batch, n - 1);
      RunKeepsSound(verify, w, earlier);
      QuietKeepsLogs(verify, w, earlier, i);
      QuietKeepsLogs(verify, w, earlier, j);
      FullPullIsEnabled(verify, After(verify, w, earlier), i, j, batch);
      OneMoreLegal(verify, w, earlier, ev);
      EffectivePullsCount(earlier, ev, i, j, length, b);
    }
  }

  lemma NothingIsLegal(verify: Entry -> bool, w: World)
    ensures LegalRun(verify, w, []) && Quiet([])
  {
  }

  lemma FullPullIsEnabled(verify: Entry -> bool, u: World, i: string, j: string, batch: nat)
    requires i in u && j in u && i != j && 1 <= batch
    ensures Enabled(verify, u, PullFrom(i, j, |u[j].own|, batch))
  {
  }

  lemma OneMoreLegal(verify: Entry -> bool, w: World, run: seq<Event>, ev: Event)
    requires LegalRun(verify, w, run) && Quiet(run) && !ev.Append? && Enabled(verify, After(verify, w, run), ev)
    ensures LegalRun(verify, w, run + [ev]) && Quiet(run + [ev])
  {
    hide Enabled, After;
    assert (run + [ev])[..|run|] == run;
  }

  /** Enough pulls by everybody from everybody, after the last append, synchronise all caches. */
  lemma EnoughPullsSync(verify: Entry -> bool, w: World, run: seq<Event>, b: nat)
    requires GateOf(verify, "").Sound() && Sound(verify, w) && LegalRun(verify, w, run) && Quiet(run)
    requires forall i, j :: i in w && j in w && i != j ==> |w[j].own| <= b * BestPulls(run, i, j, |w[j].own|, b)
    ensures Synced(After(verify, w, run))
  {
    hide Sound, LegalRun, Quiet, BestPulls, Gate.Sound, FileOf, After, Caches, Synced;
    RunKeepsSound(verify, w, run);
    forall i, j | i in w && j in w && i != j ensures Caches(After(verify, w, run), i, j) {
      BestPullsCache(verify, w, run, i, j, b);
    }
    AllCachedIsSynced(After(verify, w, run));
  }

  lemma AllCachedIsSynced(u: World)
    requires forall i, j :: i in u && j in u && i != j ==> Caches(u, i, j)
    ensures Synced(u)
  {
  }

  /** Entries by identities that run no agent here: only deposits bring them in. */
  ghost predicate SameOutsiders(w: World, a: Agent, b: Agent) {
    forall e: Entry :: e.reporter !in w ==> (e in FileOf(a.files, e.reporter) <==> e in FileOf(b.files, e.reporter))
  }

  /** In a synchronised world two agents see the same entries exactly when they cache the same outsiders. */
  lemma ViewsAgreeIff(verify: Entry -> bool, w: World, i: string, j: string)
    requires Sound(verify, w) && Synced(w) && i in w && j in w
    ensures (forall e :: InView(w[i], e) <==> InView(w[j], e)) <==> SameOutsiders(w, w[i], w[j])
  {
    forall e: Entry | e.reporter in w ensures InView(w[i], e) <==> InView(w[j], e) {
      ViewOfInsider(verify, w, i, e);
      ViewOfInsider(verify, w, j, e);
    }
    forall e: Entry | e.reporter !in w
      ensures InView(w[i], e) <==> e in FileOf(w[i].files, e.reporter)
      ensures InView(w[j], e) <==> e in FileOf(w[j].files, e.reporter)
    {
      assert OwnLog(verify, i, w[i].own) && OwnLog(verify, j, w[j].own);
    }
  }

  lemma ViewOfInsider(verify: Entry -> bool, w: World, i: string, e: Entry)
    requires Sound(verify, w) && Synced(w) && i in w && e.reporter in w
    ensures InView(w[i], e) <==> e in w[e.reporter].own
  {
    assert OwnLog(verify, i, w[i].own) && WellKept(GateOf(verify, i), w[i].files) && Genuine(w, w[i].files);
  }

  ghost predicate Lists(es: seq<Entry>, a: Agent) {
    forall e :: e in es <==> InView(a, e)
  }

  lemma ViewKeysIdentify(verify: Entry -> bool, w: World, i: string, es: seq<Entry>)
    requires GateOf(verify, "").Sound() && Sound(verify, w) && i in w && Lists(es, w[i])
    ensures KeysIdentify(Relevant(es))
  {
    forall e | e in es ensures verify(e) {
      assert InView(w[i], e);
      assert OwnLog(verify, i, w[i].own) && WellKept(GateOf(verify, i), w[i].files);
    }
  }

  /**
   * Agreement of all agents.  Start anywhere legal, let any history happen; once nobody appends any
   * more and every agent has made enough effective pulls from every other between two restarts,
   * any two agents that cache the same outsiders compute the same community state, from their own
   * listings in their own orders.
   */
  lemma AgentsAgree(
    verify: Entry -> bool, net: Network, start: World, history: seq<Event>, quiet: seq<Event>, b: nat,
    i: string, j: string, viewI: seq<Entry>, viewJ: seq<Entry>)
    requires GateOf(verify, "").Sound() && Initial(start)
    requires LegalRun(verify, start, history) && LegalRun(verify, After(verify, start, history), quiet) && Quiet(quiet)
    requires var w := After(verify, start, history);
             forall x, y :: x in w && y in w && x != y ==> |w[y].own| <= b * BestPulls(quiet, x, y, |w[y].own|, b)
    requires var u := After(verify, After(verify, start, history), quiet);
             i in u && j in u && SameOutsiders(u, u[i], u[j]) && Lists(viewI, u[i]) && Lists(viewJ, u[j])
    ensures Replay(net, viewI) == Replay(net, viewJ)
  {
    var w := After(verify, start, history);
    var u := After(verify, w, quiet);
    InitialIsSound(verify, start);
    RunKeepsSound(verify, start, history);
    RunKeepsSound(verify, w, quiet);
    EnoughPullsSync(verify, w, quiet, b);
    ViewsAgreeIff(verify, u, i, j);
    ViewKeysIdentify(verify, u, i, viewI);
    ReplayDependsOnlyOnTheSet(net, viewI, viewJ);
  }

  // -------------------------------------------------------------------------
  // Strangers
  // -------------------------------------------------------------------------

  /** What was deposited and passed the gate is cached for good. */
  lemma {:induction false} DepositStays(verify: Entry -> bool, w: World, run: seq<Event>, i: string, e: Entry)
    requires GateOf(verify, "").Sound() && Sound(verify, w) && LegalRun(verify, w, run)
    requires i in w && i != e.reporter && verify(e) && Deposit(i, e) in run
    ensures After(verify, w, run).Keys == w.Keys && e in FileOf(After(verify, w, run)[i].files, e.reporter)
  {
    hide SafeAt, OwnLog, Genuine, SafeSomewhere, Enabled;
    var earlier, last := run[..|run| - 1], run[|run| - 1];
    RunKeepsSound(verify, w, run);
    RunKeepsSound(verify, w, earlier);
    var v, u := After(verify, w, earlier), After(verify, w, run);
    if Deposit(i, e) in earlier {
      DepositStays(verify, w, earlier, i, e);
      hide Sound, Next, Gate.Sound;
      FilesOnlyGrow(verify, v, last, i);
      GrownKeepsEntry(v[i].files, u[i].files, e.reporter, e);
    } else {
      assert last == Deposit(i, e);
      AcceptKeepsFiles(GateOf(verify, i), v[i].files, e);
      HeldOnceVerified(GateOf(verify, i), u[i].files, e);
    }
  }

  lemma HeldOnceVerified(gate: Gate, files: Files, e: Entry)
    requires gate.Sound() && WellKept(gate, files) && gate.verify(e) && Holds(files, e)
    ensures e in FileOf(files, e.reporter)
  {
  }

  lemma SomeMember(file: seq<Entry>)
    ensures file != [] ==> exists x :: x in file
  {
    if file != [] {
      assert file[0] in file;
    }
  }

  lemma NothingAddedFor(before: Files, after: Files, batch: seq<Entry>, stranger: string)
    requires OnlyAdds(before, after, batch) && FileOf(before, stranger) == []
    requires forall x :: x in batch ==> x.reporter != stranger
    ensures FileOf(after, stranger) == []
  {
    SomeMember(FileOf(after, stranger));
    forall x ensures x !in FileOf(after, stranger) {
      assert x in FileOf(after, stranger) ==> x in FileOf(before, stranger) || (x in batch && x.reporter == stranger);
    }
  }

  /** No entry by a stranger reaches a cache but by a deposit there: pulls serve the author's own log. */
  lemma StrangerStaysAway(verify: Entry -> bool, w: World, ev: Event, j: string, stranger: string)
    requires GateOf(verify, "").Sound() && Sound(verify, w) && Enabled(verify, w, ev)
    requires j in w && stranger !in w && FileOf(w[j].files, stranger) == []
    requires !(ev.Deposit? && ev.agent == j && ev.entry.reporter == stranger)
    ensures j in Next(verify, w, ev) && FileOf(Next(verify, w, ev)[j].files, stranger) == []
  {
    hide SafeAt, Genuine, SafeSomewhere, Pull, HonestAnswer, Gate.Sound, Grown, WellKept, OnlyAdds;
    if ev.PullFrom? && ev.agent == j {
      var own := w[ev.source].own;
      assert OwnLog(verify, ev.source, own);
      var k := PullLands(verify, w, j, ev.source, ev.headSeen, ev.batch);
      PullOutcome(verify, w, j, ev.source, ev.headSeen, ev.batch, k);
      NothingAddedFor(w[j].files, Next(verify, w, ev)[j].files, own, stranger);
    }
  }

  lemma {:induction false} StrangerNeverArrives(
    verify: Entry -> bool, w: World, run: seq<Event>, j: string, stranger: string)
    requires GateOf(verify, "").Sound() && Sound(verify, w) && LegalRun(verify, w, run)
    requires j in w && stranger !in w && FileOf(w[j].files, stranger) == []
    requires forall ev :: ev in run ==> !(ev.Deposit? && ev.agent == j && ev.entry.reporter == stranger)
    ensures After(verify, w, run).Keys == w.Keys && FileOf(After(verify, w, run)[j].files, stranger) == []
  {
    hide Sound, Enabled, Next, Gate.Sound, FileOf;
    if run != [] {
      var earlier, last := run[..|run| - 1], run[|run| - 1];
      assert last in run && forall ev :: ev in earlier ==> ev in run;
      StrangerNeverArrives(verify, w, earlier, j, stranger);
      RunKeepsSound(verify, w, earlier);
      RunKeepsSound(verify, w, run);
      StrangerStaysAway(verify, After(verify, w, earlier), last, j, stranger);
    }
  }

  /**
   * Without the condition on outsiders agreement fails for good.  Once a stranger's request to join at
   * the minimum has reached one gatekeeper, then for as long as none of that stranger's reaches another,
   * the two compute different states, however much they pull.
   */
  lemma OutsiderSplitsAgents(
    verify: Entry -> bool, net: Network, start: World, run: seq<Event>, i: string, j: string, e: Entry,
    viewI: seq<Entry>, viewJ: seq<Entry>)
    requires GateOf(verify, "").Sound() && Initial(start) && LegalRun(verify, start, run)
    requires i in start && j in start && e.reporter !in start && e.reporter != ""
    requires net.admission.Legal() && e.network == net.id && e.payload == Donation(Some(net.admission.minSats))
    requires verify(e) && Deposit(i, e) in run
    requires forall ev :: ev in run ==> !(ev.Deposit? && ev.agent == j && ev.entry.reporter == e.reporter)
    requires var u := After(verify, start, run); i in u && j in u && Lists(viewI, u[i]) && Lists(viewJ, u[j])
    ensures e.reporter in Replay(net, viewI).members && e.reporter !in Replay(net, viewJ).members
  {
    InitialIsSound(verify, start);
    assert FileOf(start[j].files, e.reporter) == [];
    hide LegalRun, Gate.Sound, Replay, SafeSomewhere, WellKept, Genuine, Initial, FileOf, Accept, Next;
    DepositStays(verify, start, run, i, e);
    StrangerNeverArrives(verify, start, run, j, e.reporter);
    RunKeepsSound(verify, start, run);
    OnlyCachedStrangers(verify, After(verify, start, run), j, viewJ, e.reporter);
    hide Sound, After;
    assert e in viewI;
    MinimumDonorIsMember(net, viewI, e);
    MembersWrote(net, viewJ, e.reporter);
  }

  lemma OnlyCachedStrangers(verify: Entry -> bool, u: World, j: string, view: seq<Entry>, stranger: string)
    requires Sound(verify, u) && j in u && stranger !in u && Lists(view, u[j]) && FileOf(u[j].files, stranger) == []
    ensures forall x :: x in view ==> x.reporter != stranger
  {
    assert OwnLog(verify, j, u[j].own);
  }

  /** Such a run exists, and may even leave everybody synchronised. */
  lemma OutsiderSplitsSynced(verify: Entry -> bool, start: World, i: string, e: Entry)
    requires Initial(start) && i in start && verify(e) && e.reporter !in start
    ensures LegalRun(verify, start, [Deposit(i, e)]) && Synced(After(verify, start, [Deposit(i, e)]))
  {
    var run := [Deposit(i, e)];
    assert run[..0] == [] && LegalRun(verify, start, []) && After(verify, start, []) == start;
    assert Enabled(verify, start, run[0]);
  }

  lemma MinimumDonorIsMember(net: Network, view: seq<Entry>, e: Entry)
    requires net.admission.Legal() && e in view && e.reporter != ""
    requires e.network == net.id && e.payload == Donation(Some(net.admission.minSats))
    ensures e.reporter in Replay(net, view).members
  {
    SortIsOrderedPermutation(Relevant(view));
    MinimumDonorJoins(net, SortEntries(Relevant(view)), e);
  }

  /** Every member signed something in view. */
  lemma MembersWrote(net: Network, view: seq<Entry>, name: string)
    requires net.admission.Legal() && forall x :: x in view ==> x.reporter != name
    ensures name !in Replay(net, view).members
  {
    var ordered := SortEntries(Relevant(view));
    SortIsOrderedPermutation(Relevant(view));
    ReplayInvariant(net, view);
    if name in Replay(net, view).members {
      var d :| d in Replay(net, view).donations && d.reporter == name;
      var x := DonationSource(net, ordered, d);
    }
  }
}
