/** Fetching overlays and manifests by the hash of their canonical text, among peers of any honesty. */
module OverlayExchange {
  import opened Collections
  import opened Text
  import opened Canonical

  type Bytes = seq<bv8>

  const MAX_OVERLAY_BYTES := 64 * 1024
  const ID_BYTES := 20

  /** UTF-8 in both directions (decoding never fails: bad bytes are replaced) and SHA-1. */
  datatype Wire = Wire(encode: string -> Bytes, decode: Bytes -> string, sha1: string -> Bytes)
  {
    function IdOf(text: string): Bytes {
      sha1(Canon(text))
    }

    ghost predicate Faithful() {
      && (forall text :: decode(encode(text)) == text)
      && (forall text :: |sha1(text)| == ID_BYTES)
    }

    /** No other canonical text has this one's id. */
    ghost predicate CollisionFree(text: string) {
      forall other :: IdOf(other) == IdOf(text) ==> Canon(other) == Canon(text)
    }

    predicate Genuine(key: Key, body: Bytes) {
      |body| <= MAX_OVERLAY_BYTES && IdOf(decode(body)) == key.hash
    }
  }

  datatype Kind = Overlay | Manifest

  datatype Key = Key(kind: Kind, hash: Bytes)

  datatype Message = Request(key: Key) | Delivery(key: Key, body: Bytes)

  datatype Status = Waiting | Resolved(body: Bytes) | Cancelled

  /** What a fetch hands its caller. */
  datatype Future = Future(key: Key, status: Status)

  datatype Node = Node(
    published: map<Key, string>,
    pending: map<Key, nat>,
    futures: seq<Future>,
    sent: seq<(string, Message)>)

  const FRESH_NODE := Node(map[], map[], [], [])

  /** What can happen at a node; arrivals may be lost, repeated, reordered or forged. */
  datatype Event =
    | Publish(kind: Kind, text: string)
    | Fetch(peer: string, key: Key)
    | Cancel(future: nat)
    | RequestArrives(peer: string, key: Key)
    | DeliveryArrives(key: Key, body: Bytes)

  // -------------------------------------------------------------------------
  // One event
  // -------------------------------------------------------------------------

  function Settle(futures: seq<Future>, f: nat, status: Status): seq<Future> {
    if f < |futures| && futures[f].status == Waiting then futures[f := futures[f].(status := status)] else futures
  }

  function Step(w: Wire, n: Node, event: Event): Node {
    match event
    case Publish(kind, text) => n.(published := n.published[Key(kind, w.IdOf(text)) := text])
    case Fetch(peer, key) =>
      if |key.hash| != ID_BYTES then n
      else
        n.(pending := n.pending[key := |n.futures|],
           futures := n.futures + [Future(key, Waiting)],
           sent := n.sent + [(peer, Request(key))])
    case Cancel(f) => n.(futures := Settle(n.futures, f, Cancelled))
    case RequestArrives(peer, key) =>
      if key in n.published && |w.encode(n.published[key])| <= MAX_OVERLAY_BYTES then
        n.(sent := n.sent + [(peer, Delivery(key, w.encode(n.published[key])))])
      else n
    case DeliveryArrives(key, body) =>
      if w.Genuine(key, body) && key in n.pending then
        n.(pending := n.pending - {key}, futures := Settle(n.futures, n.pending[key], Resolved(body)))
      else n
  }

  function Run(w: Wire, n: Node, events: seq<Event>): Node
    decreases |events|
  {
    if events == [] then n else Run(w, Step(w, n, events[0]), events[1..])
  }

  class SeedboxCommunity {
    const wire: Wire
    var published: map<Key, string>
    var pending: map<Key, nat>
    var futures: seq<Future>
    var sent: seq<(string, Message)>

    function Value(): Node
      reads this
    {
      Node(published, pending, futures, sent)
    }

    constructor (wire: Wire)
      ensures this.wire == wire && Value() == FRESH_NODE
    {
      this.wire := wire;
      published := map[];
      pending := map[];
      futures := [];
      sent := [];
    }

    method PublishDocument(kind: Kind, text: string) returns (hash: Bytes)
      modifies this`published
      ensures Value() == Step(wire, old(Value()), Publish(kind, text))
      ensures hash == wire.sha1(Canon(text)) && published == old(published)[Key(kind, hash) := text]
    {
      var canonical := CanonicalizeMd(text);
      hash := wire.sha1(canonical);
      published := published[Key(kind, hash) := text];
    }

    /** Returns the new future, or None where the original raises ValueError. */
    method FetchDocument(peer: string, key: Key) returns (future: Option<nat>)
      modifies this`pending, this`futures, this`sent
      ensures Value() == Step(wire, old(Value()), Fetch(peer, key))
      ensures future == if |key.hash| == 20 then Some(|old(futures)|) else None
      ensures |key.hash| == 20 ==>
                && sent == old(sent) + [(peer, Request(key))]
                && futures == old(futures) + [Future(key, Waiting)]
                && pending == old(pending)[key := |old(futures)|]
      ensures |key.hash| != 20 ==> sent == old(sent) && futures == old(futures) && pending == old(pending)
    {
      if |key.hash| != ID_BYTES {
        return None;
      }
      future := Some(|futures|);
      pending := pending[key := |futures|];
      futures := futures + [Future(key, Waiting)];
      sent := sent + [(peer, Request(key))];
    }

    method CancelFuture(f: nat)
      modifies this`futures
      ensures Value() == Step(wire, old(Value()), Cancel(f))
      ensures futures == if f < |old(futures)| && old(futures)[f].status == Waiting then
                           old(futures)[f := Future(old(futures)[f].key, Cancelled)]
                         else old(futures)
    {
      if f < |futures| && futures[f].status == Waiting {
        futures := futures[f := futures[f].(status := Cancelled)];
      }
    }

    method OnRequest(peer: string, key: Key)
      modifies this`sent
      ensures Value() == Step(wire, old(Value()), RequestArrives(peer, key))
      ensures sent == old(sent) + if key in published && |wire.encode(published[key])| <= 65536 then
                                    [(peer, Delivery(key, wire.encode(published[key])))]
                                  else []
    {
      if key !in published {
        return;
      }
      var body := wire.encode(published[key]);
      if |body| > MAX_OVERLAY_BYTES {
        return;
      }
      sent := sent + [(peer, Delivery(key, body))];
    }

    method OnDelivery(key: Key, body: Bytes)
      modifies this`pending, this`futures
      ensures Value() == Step(wire, old(Value()), DeliveryArrives(key, body))
      ensures var genuine := |body| <= 65536 && wire.sha1(Canon(wire.decode(body))) == key.hash;
              if genuine && key in old(pending) then
                var f := old(pending)[key];
                && pending == old(pending) - {key}
                && futures == if f < |old(futures)| && old(futures)[f].status == Waiting then
                                old(futures)[f := Future(old(futures)[f].key, Resolved(body))]
                              else old(futures)
              else pending == old(pending) && futures == old(futures)
    {
      if |body| > MAX_OVERLAY_BYTES {
        return;
      }
      var canonical := CanonicalizeMd(wire.decode(body));
      if wire.sha1(canonical) != key.hash {
        return;
      }
      if key in pending {
        var f := pending[key];
        pending := pending - {key};
        if f < |futures| && futures[f].status == Waiting {
          futures := futures[f := futures[f].(status := Resolved(body))];
        }
      }
    }
  }

  // -------------------------------------------------------------------------
  // What every run keeps
  // -------------------------------------------------------------------------

  ghost predicate Authentic(w: Wire, n: Node) {
    && (forall k :: k in n.published ==> w.IdOf(n.published[k]) == k.hash)
    && (forall k :: k in n.pending ==> n.pending[k] < |n.futures| && n.futures[n.pending[k]].key == k)
    && (forall k :: k in n.pending ==> !n.futures[n.pending[k]].status.Resolved?)
    && (forall f :: f in n.futures && f.status.Resolved? ==> w.Genuine(f.key, f.status.body))
    && (forall m :: m in n.sent && m.1.Delivery? && w.Faithful() ==> w.Genuine(m.1.key, m.1.body))
  }

  lemma StepKeepsAuthentic(w: Wire, n: Node, event: Event)
    requires Authentic(w, n)
    ensures Authentic(w, Step(w, n, event))
  {
    hide Canon;
    match event {
      case Publish(_, _) =>
      case Fetch(_, _) =>
      case Cancel(f) => SettleKeeps(w, n.futures, f, Cancelled);
      case RequestArrives(_, _) =>
      case DeliveryArrives(key, body) =>
        if w.Genuine(key, body) && key in n.pending {
          SettleKeeps(w, n.futures, n.pending[key], Resolved(body));
        }
    }
  }

  lemma SettleKeeps(w: Wire, futures: seq<Future>, f: nat, status: Status)
    requires forall x :: x in futures && x.status.Resolved? ==> w.Genuine(x.key, x.status.body)
    requires f < |futures| && status.Resolved? ==> w.Genuine(futures[f].key, status.body)
    ensures var after := Settle(futures, f, status);
            && |after| == |futures|
            && (forall i :: 0 <= i < |after| ==> after[i].key == futures[i].key)
            && (forall i :: 0 <= i < |after| && i != f ==> after[i] == futures[i])
            && forall x :: x in after && x.status.Resolved? ==> w.Genuine(x.key, x.status.body)
  {
  }

  /** Whatever arrives, in whatever order: only genuine text is handed out, and only genuine text is sent. */
  lemma {:induction false} RunKeepsAuthentic(w: Wire, n: Node, events: seq<Event>)
    requires Authentic(w, n)
    ensures Authentic(w, Run(w, n, events))
    decreases |events|
  {
    if events != [] {
      hide Authentic;
      StepKeepsAuthentic(w, n, events[0]);
      RunKeepsAuthentic(w, Step(w, n, events[0]), events[1..]);
    }
  }

  lemma FetchedTextIsGenuine(w: Wire, events: seq<Event>, f: nat)
    requires var n := Run(w, FRESH_NODE, events); f < |n.futures| && n.futures[f].status.Resolved?
    ensures var future := Run(w, FRESH_NODE, events).futures[f]; w.Genuine(future.key, future.status.body)
  {
    assert Authentic(w, FRESH_NODE);
    RunKeepsAuthentic(w, FRESH_NODE, events);
  }

  lemma StepSettlesOnce(w: Wire, n: Node, event: Event, f: nat)
    requires f < |n.futures|
    ensures var next := Step(w, n, event);
            && |n.futures| <= |next.futures|
            && next.futures[f].key == n.futures[f].key
            && (n.futures[f].status != Waiting ==> next.futures[f] == n.futures[f])
  {
    hide Canon;
  }

  /** A future changes at most once: whatever has settled stays as it is. */
  lemma {:induction false} SettledForever(w: Wire, n: Node, events: seq<Event>, f: nat)
    requires f < |n.futures|
    ensures |n.futures| <= |Run(w, n, events).futures|
    ensures Run(w, n, events).futures[f].key == n.futures[f].key
    ensures n.futures[f].status != Waiting ==> Run(w, n, events).futures[f] == n.futures[f]
    decreases |events|
  {
    hide Step;
    if events != [] {
      StepSettlesOnce(w, n, events[0], f);
      SettledForever(w, Step(w, n, events[0]), events[1..], f);
    }
  }

  // -------------------------------------------------------------------------
  // Exactly when a fetch resolves
  // -------------------------------------------------------------------------

  /**
   * The fate of one fetch, told from the events after it alone: the first genuine delivery for its key
   * resolves it, unless its caller gives up or the same key is fetched again before.
   */
  function Fate(w: Wire, key: Key, f: nat, events: seq<Event>): Status {
    if events == [] then Waiting
    else
      match events[0]
      case DeliveryArrives(k, body) =>
        if k == key && w.Genuine(k, body) then Resolved(body) else Fate(w, key, f, events[1..])
      case Cancel(g) => if g == f then Cancelled else Fate(w, key, f, events[1..])
      case Fetch(_, k) => if k == key then Orphan(f, events[1..]) else Fate(w, key, f, events[1..])
      case _ => Fate(w, key, f, events[1..])
  }

  /** A fetch displaced by a later one for the same key can only be given up. */
  function Orphan(f: nat, events: seq<Event>): Status {
    if Cancel(f) in events then Cancelled else Waiting
  }

  lemma {:induction false} OrphanFate(w: Wire, n: Node, f: nat, events: seq<Event>)
    requires f < |n.futures| && n.futures[f].status == Waiting && f !in n.pending.Values
    ensures f < |Run(w, n, events).futures| && Run(w, n, events).futures[f].status == Orphan(f, events)
    decreases |events|
  {
    if events != [] {
      hide Canon;
      var next := Step(w, n, events[0]);
      assert forall g :: g in next.pending.Values ==> g in n.pending.Values || g == |n.futures|;
      if events[0] == Cancel(f) {
        SettledForever(w, next, events[1..], f);
      } else {
        assert next.futures[f] == n.futures[f] by {
          if events[0].DeliveryArrives? && events[0].key in n.pending {
            assert n.pending[events[0].key] in n.pending.Values;
          }
        }
        OrphanFate(w, next, f, events[1..]);
        assert events == [events[0]] + events[1..];
      }
    }
  }

  ghost predicate OneKeyEach(n: Node) {
    && (forall k :: k in n.pending ==> n.pending[k] < |n.futures| && n.futures[n.pending[k]].key == k)
  }

  lemma WaitingFate(w: Wire, n: Node, key: Key, f: nat, events: seq<Event>)
    requires OneKeyEach(n) && key in n.pending && n.pending[key] == f && n.futures[f].status == Waiting
    requires |key.hash| == ID_BYTES
    ensures f < |Run(w, n, events).futures| && Run(w, n, events).futures[f].status == Fate(w, key, f, events)
    decreases |events|
  {
    if events != [] {
      hide Canon;
      var event, next, rest := events[0], Step(w, n, events[0]), events[1..];
      if event.DeliveryArrives? && event.key == key && w.Genuine(key, event.body) {
        SettledForever(w, next, rest, f);
      } else if event == Cancel(f) {
        SettledForever(w, next, rest, f);
      } else if event.Fetch? && event.key == key {
        assert forall g :: g in next.pending.Values ==> g != f by {
          forall k | k in next.pending ensures next.pending[k] != f {
          }
        }
        OrphanFate(w, next, f, rest);
      } else {
        assert OneKeyEach(next) && key in next.pending && next.pending[key] == f;
        assert next.futures[f] == n.futures[f];
        WaitingFate(w, next, key, f, rest);
      }
    }
  }

  /** After any history, and before any future: a fetch comes out exactly as its fate says. */
  lemma FetchComesOutAsItsFate(w: Wire, history: seq<Event>, peer: string, key: Key, later: seq<Event>)
    requires |key.hash| == ID_BYTES
    ensures var before := Run(w, FRESH_NODE, history);
            var f := |before.futures|;
            var end := Run(w, Step(w, before, Fetch(peer, key)), later);
            f < |end.futures| && end.futures[f] == Future(key, Fate(w, key, f, later))
  {
    var before := Run(w, FRESH_NODE, history);
    assert Authentic(w, FRESH_NODE);
    RunKeepsAuthentic(w, FRESH_NODE, history);
    var after := Step(w, before, Fetch(peer, key));
    StepKeepsAuthentic(w, before, Fetch(peer, key));
    WaitingFate(w, after, key, |before.futures|, later);
    SettledForever(w, after, later, |before.futures|);
  }

  ghost predicate Undisturbed(key: Key, f: nat, events: seq<Event>) {
    Cancel(f) !in events && forall e :: e in events ==> !(e.Fetch? && e.key == key)
  }

  /** Left undisturbed, a fetch is resolved exactly when some genuine delivery got through. */
  lemma {:induction false} UndisturbedResolvesIff(w: Wire, key: Key, f: nat, events: seq<Event>)
    requires Undisturbed(key, f, events)
    ensures Fate(w, key, f, events).Resolved? <==>
              exists e :: e in events && e.DeliveryArrives? && e.key == key && w.Genuine(key, e.body)
  {
    if events != [] {
      hide Canon;
      assert events[0] in events;
      assert forall e :: e in events[1..] ==> e in events;
      UndisturbedResolvesIff(w, key, f, events[1..]);
      assert forall e :: e in events ==> e == events[0] || e in events[1..];
    }
  }

  // -------------------------------------------------------------------------
  // From publisher to fetcher
  // -------------------------------------------------------------------------

  /** A node answers for a key exactly when it serves a text of that key that fits in one delivery. */
  lemma AnswersIff(w: Wire, n: Node, peer: string, key: Key)
    requires w.Faithful() && Authentic(w, n)
    ensures var next := Step(w, n, RequestArrives(peer, key));
            if key in n.published && |w.encode(n.published[key])| <= MAX_OVERLAY_BYTES then
              exists body :: next.sent == n.sent + [(peer, Delivery(key, body))] && w.Genuine(key, body)
            else next == n
  {
    hide Canon;
    if key in n.published && |w.encode(n.published[key])| <= MAX_OVERLAY_BYTES {
      var body := w.encode(n.published[key]);
      assert w.decode(body) == n.published[key];
      assert w.Genuine(key, body);
    }
  }

  /** Publishing one text after another under a shared key leaves the key answered exactly when the later one fits. */
  lemma RepublishedAnswersIff(w: Wire, n: Node, kind: Kind, first: string, second: string, peer: string)
    requires w.IdOf(first) == w.IdOf(second)
    ensures var served := Step(w, Step(w, n, Publish(kind, first)), Publish(kind, second));
            Step(w, served, RequestArrives(peer, Key(kind, w.IdOf(first)))) != served
            <==> |w.encode(second)| <= MAX_OVERLAY_BYTES
  {
    hide Canon;
    var served := Step(w, Step(w, n, Publish(kind, first)), Publish(kind, second));
    var next := Step(w, served, RequestArrives(peer, Key(kind, w.IdOf(first))));
    assert next == served || |next.sent| == |served.sent| + 1;
  }

  /** So blanks at the end, invisible to the id, can silence a document. */
  lemma PaddingSilences(w: Wire, n: Node, kind: Kind, text: string, padding: string, peer: string)
    requires AllSpace(padding) && |w.encode(text + padding)| > MAX_OVERLAY_BYTES
    ensures var served := Step(w, Step(w, n, Publish(kind, text)), Publish(kind, text + padding));
            Step(w, served, RequestArrives(peer, Key(kind, w.IdOf(text)))) == served
  {
    TrailingSpaceInvisible(text, padding);
    RepublishedAnswersIff(w, n, kind, text, text + padding, peer);
  }

  /** Publishing is for good: later events may change the text behind a key, never what it shows. */
  lemma {:induction false} StaysPublished(w: Wire, n: Node, events: seq<Event>, key: Key)
    requires key in n.published && w.CollisionFree(n.published[key]) && Authentic(w, n)
    ensures key in Run(w, n, events).published
    ensures Canon(Run(w, n, events).published[key]) == Canon(n.published[key])
    decreases |events|
  {
    hide Canon;
    if events != [] {
      StepKeepsAuthentic(w, n, events[0]);
      var next := Step(w, n, events[0]);
      assert w.IdOf(n.published[key]) == key.hash == w.IdOf(next.published[key]);
      assert w.CollisionFree(next.published[key]);
      StaysPublished(w, next, events[1..], key);
    }
  }

  /** Whoever delivers it, fetched text shows exactly the lines of the text published under its hash. */
  lemma FetchedShowsPublished(w: Wire, text: string, kind: Kind, events: seq<Event>, f: nat)
    requires w.CollisionFree(text)
    requires var n := Run(w, FRESH_NODE, events);
             f < |n.futures| && n.futures[f].status.Resolved? && n.futures[f].key == Key(kind, w.IdOf(text))
    ensures var body := Run(w, FRESH_NODE, events).futures[f].status.body;
            VisibleLines(w.decode(body)) == VisibleLines(text)
  {
    FetchedTextIsGenuine(w, events, f);
    var body := Run(w, FRESH_NODE, events).futures[f].status.body;
    SameCanonIff(w.decode(body), text);
  }

  /**
   * The whole exchange.  A fetch sends a request to the peer it names; an honest publisher with a text
   * that fits answers whoever asked; and that answer, forgeries around it or not, resolves the fetch.
   */
  lemma HonestReplyResolves(
    w: Wire, published: seq<Event>, history: seq<Event>, asker: string, peer: string, key: Key, before: seq<Event>,
    after: seq<Event>)
    requires w.Faithful()
    requires var publisher := Run(w, FRESH_NODE, published);
             key in publisher.published && |w.encode(publisher.published[key])| <= 65536
    requires Undisturbed(key, |Run(w, FRESH_NODE, history).futures|, before + after)
    ensures var idle := Run(w, FRESH_NODE, history);
            var asking := Step(w, idle, Fetch(peer, key));
            && asking.sent == idle.sent + [(peer, Request(key))]
            && var publisher := Run(w, FRESH_NODE, published);
               var answering := Step(w, publisher, RequestArrives(asker, asking.sent[|idle.sent|].1.key));
               && |answering.sent| == |publisher.sent| + 1
               && var (to, reply) := answering.sent[|publisher.sent|];
                  && to == asker && reply.Delivery?
                  && var end := Run(w, asking, before + [DeliveryArrives(reply.key, reply.body)] + after);
                     |idle.futures| < |end.futures| && end.futures[|idle.futures|].status.Resolved?
  {
    hide Canon, Run;
    var publisher, idle := Run(w, FRESH_NODE, published), Run(w, FRESH_NODE, history);
    var reply := w.encode(publisher.published[key]);
    PublishedIsGenuine(w, published, key);
    DeliveredResolves(w, history, peer, key, reply, before, after);
  }

  lemma PublishedIsGenuine(w: Wire, published: seq<Event>, key: Key)
    requires w.Faithful() && key in Run(w, FRESH_NODE, published).published
    ensures |key.hash| == 20
    ensures var reply := w.encode(Run(w, FRESH_NODE, published).published[key]);
            |reply| <= 65536 ==> w.Genuine(key, reply)
  {
    hide Canon;
    assert Authentic(w, FRESH_NODE);
    RunKeepsAuthentic(w, FRESH_NODE, published);
  }

  lemma DeliveredResolves(
    w: Wire, history: seq<Event>, peer: string, key: Key, reply: Bytes, before: seq<Event>, after: seq<Event>)
    requires |key.hash| == 20 && w.Genuine(key, reply)
    requires Undisturbed(key, |Run(w, FRESH_NODE, history).futures|, before + after)
    ensures var f := |Run(w, FRESH_NODE, history).futures|;
            var end := Run(w, Step(w, Run(w, FRESH_NODE, history), Fetch(peer, key)),
                           before + [DeliveryArrives(key, reply)] + after);
            f < |end.futures| && end.futures[f].status.Resolved?
  {
    var f := |Run(w, FRESH_NODE, history).futures|;
    var later := before + [DeliveryArrives(key, reply)] + after;
    FetchComesOutAsItsFate(w, history, peer, key, later);
    forall e | e in later ensures e in before + after || e == DeliveryArrives(key, reply) {
    }
    assert Undisturbed(key, f, later);
    assert later[|before|] == DeliveryArrives(key, reply) && later[|before|] in later;
    UndisturbedResolvesIff(w, key, f, later);
  }

  /** Asking again before the answer leaves the first caller waiting for good, whatever is delivered. */
  lemma RefetchStrandsTheFirst(w: Wire, peer: string, key: Key, later: seq<Event>)
    requires |key.hash| == ID_BYTES && Cancel(0) !in later
    ensures var end := Run(w, FRESH_NODE, [Fetch(peer, key), Fetch(peer, key)] + later);
            0 < |end.futures| && end.futures[0] == Future(key, Waiting)
  {
    var rest := [Fetch(peer, key)] + later;
    assert [Fetch(peer, key), Fetch(peer, key)] + later == [Fetch(peer, key)] + rest;
    assert Run(w, FRESH_NODE, []) == FRESH_NODE;
    FetchComesOutAsItsFate(w, [], peer, key, rest);
    assert rest[1..] == later;
    assert ([Fetch(peer, key)] + rest)[1..] == rest;
  }
}
