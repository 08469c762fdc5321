/** What the treasury and the housing of a community guarantee over whole runs. */
module ClawCapacity {
  import opened Collections
  import opened Ordering
  import opened Text
  import opened ClawCommunity

  // -------------------------------------------------------------------------
  // How full the seedboxes are
  // -------------------------------------------------------------------------

  /** How many of the first `n` people land in a slot. */
  ghost function SlotCount(n: nat, slot: nat, capacity: int, boxes: nat): nat
    requires capacity >= 1 && boxes >= 1
  {
    if n == 0 then 0
    else SlotCount(n - 1, slot, capacity, boxes) + if Slot(n - 1, capacity, boxes) == slot then 1 else 0
  }

  lemma DivisionBand(rank: nat, capacity: int, slot: nat)
    requires capacity >= 1
    ensures rank / capacity == slot <==> slot * capacity <= rank < slot * capacity + capacity
    ensures rank / capacity >= slot <==> slot * capacity <= rank
  {
    var q := rank / capacity;
    assert q * capacity <= rank < q * capacity + capacity;
    if q < slot {
      assert (q + 1) * capacity <= slot * capacity;
    } else if q > slot {
      assert (slot + 1) * capacity <= q * capacity;
    }
  }

  function SlotLoad(n: nat, slot: nat, capacity: int, boxes: nat): int {
    var before := slot * capacity;
    if slot + 1 < boxes then Min(capacity, Max(0, n - before)) else Max(0, n - before)
  }

  lemma {:induction false} SlotCountClosed(n: nat, slot: nat, capacity: int, boxes: nat)
    requires capacity >= 1 && slot < boxes
    ensures SlotCount(n, slot, capacity, boxes) == SlotLoad(n, slot, capacity, boxes)
  {
    if n > 0 {
      SlotCountClosed(n - 1, slot, capacity, boxes);
      DivisionBand(n - 1, capacity, slot);
    }
  }

  lemma {:induction false} DistinctSize<K(!new)>(s: seq<K>, n: nat)
    requires Distinct(s) && n <= |s|
    ensures |Elements(s[..n])| == n
  {
    if n > 0 {
      DistinctSize(s, n - 1);
      assert s[..n] == s[..n - 1] + [s[n - 1]];
      assert Elements(s[..n]) == Elements(s[..n - 1]) + {s[n - 1]};
    }
  }

  lemma ListingSize<K(!new)>(order: seq<K>, times: map<K, string>)
    requires ListsByTime(order, times)
    ensures |order| == |times|
  {
    DistinctSize(order, |order|);
    assert order[..|order|] == order;
    assert Elements(order) == times.Keys;
  }

  ghost function HousedIn(members: map<string, Member>, agents: seq<string>, box: BoxId): set<string> {
    set id | id in agents && id in members && members[id].home == Some(box)
  }

  lemma {:induction false} HousedInCount(
    members: map<string, Member>, boxes: seq<BoxId>, agents: seq<string>, capacity: int, n: nat, slot: nat)
    requires capacity >= 1 && slot < |boxes| && Distinct(boxes) && Distinct(agents) && n <= |agents|
    requires forall a :: a in agents ==> a in members
    requires AssignedInOrder(members, boxes, agents, capacity)
    ensures |HousedIn(members, agents[..n], boxes[slot])| == SlotCount(n, slot, capacity, |boxes|)
  {
    if n > 0 {
      HousedInCount(members, boxes, agents, capacity, n - 1, slot);
      var last, at := agents[n - 1], Slot(n - 1, capacity, |boxes|);
      assert agents[..n] == agents[..n - 1] + [last];
      assert members[last].home == Some(boxes[at]);
      assert at == slot <==> boxes[at] == boxes[slot];
      hide Slot, AssignedInOrder;
      var earlier := HousedIn(members, agents[..n - 1], boxes[slot]);
      assert last !in earlier;
      assert HousedIn(members, agents[..n], boxes[slot]) == if at == slot then earlier + {last} else earlier;
    }
  }

  /** Every seedbox but the newest holds its share exactly; the newest holds the rest. */
  lemma LoadExact(
    members: map<string, Member>, boxes: map<BoxId, string>, boxOrder: seq<BoxId>, agents: seq<string>, capacity: int,
    slot: nat)
    requires capacity >= 1 && HousedBy(members, boxes, boxOrder, agents, capacity) && slot < |boxOrder|
    ensures Load(members, boxOrder[slot]) == SlotLoad(|members|, slot, capacity, |boxes|)
  {
    hide AssignedInOrder;
    ListingSize(agents, JoinTimes(members));
    ListingSize(boxOrder, boxes);
    assert JoinTimes(members).Keys == members.Keys;
    HousedInCount(members, boxOrder, agents, capacity, |agents|, slot);
    SlotCountClosed(|agents|, slot, capacity, |boxOrder|);
    assert agents[..|agents|] == agents;
    assert HousedIn(members, agents, boxOrder[slot]) ==
           set id | id in members && members[id].home == Some(boxOrder[slot]);
  }

  ghost predicate WithinCapacity(c: Snapshot) {
    forall b :: b in c.boxes ==> Load(c.members, b) <= c.terms.capacity
  }

  /** The last slot is within capacity exactly when there are enough slots. */
  lemma EnoughSlotsIff(n: nat, capacity: int, boxes: nat)
    requires capacity >= 1 && boxes >= 1
    ensures n >= 1 ==> (SlotLoad(n, boxes - 1, capacity, boxes) <= capacity <==> Need(n, capacity) <= boxes)
    ensures SlotLoad(0, boxes - 1, capacity, boxes) == 0
    ensures forall slot :: 0 <= slot < boxes - 1 ==> SlotLoad(n, slot, capacity, boxes) <= capacity
  {
    DivisionBand(n + capacity - 1, capacity, boxes + 1);
    assert (boxes - 1) * capacity == boxes * capacity - capacity;
    assert (boxes + 1) * capacity == boxes * capacity + capacity;
    assert (boxes - 1) * capacity >= 0;
  }

  /** With everyone housed, no seedbox is overfull exactly when the required number is there. */
  lemma WithinCapacityIff(c: Snapshot)
    requires c.terms.capacity >= 1 && c.boxes != map[] && Housed(c.members, c.boxes, c.terms.capacity)
    ensures WithinCapacity(c) <==> c.Covered()
  {
    var boxOrder, agents :| HousedBy(c.members, c.boxes, boxOrder, agents, c.terms.capacity);
    hide Need, AssignedInOrder, Load;
    NewestWithinIff(c, boxOrder, agents);
    if c.Covered() {
      forall b | b in c.boxes ensures Load(c.members, b) <= c.terms.capacity {
        assert b in boxOrder;
        var slot :| 0 <= slot < |boxOrder| && boxOrder[slot] == b;
        if slot < |boxOrder| - 1 {
          OlderWithin(c, boxOrder, agents, slot);
        }
      }
    }
  }

  lemma NewestWithinIff(c: Snapshot, boxOrder: seq<BoxId>, agents: seq<string>)
    requires c.terms.capacity >= 1 && HousedBy(c.members, c.boxes, boxOrder, agents, c.terms.capacity)
    ensures boxOrder[|boxOrder| - 1] in c.boxes
    ensures Load(c.members, boxOrder[|boxOrder| - 1]) <= c.terms.capacity <==> c.Covered()
  {
    ListingSize(boxOrder, c.boxes);
    assert boxOrder[|boxOrder| - 1] in boxOrder;
    assert c.members == map[] <==> |c.members| == 0;
    hide AssignedInOrder, Load;
    EnoughSlotsIff(|c.members|, c.terms.capacity, |boxOrder|);
    LoadExact(c.members, c.boxes, boxOrder, agents, c.terms.capacity, |boxOrder| - 1);
    hide SlotLoad, Need, ListsByTime;
  }

  lemma OlderWithin(c: Snapshot, boxOrder: seq<BoxId>, agents: seq<string>, slot: nat)
    requires c.terms.capacity >= 1 && HousedBy(c.members, c.boxes, boxOrder, agents, c.terms.capacity)
    requires slot < |boxOrder| - 1
    ensures Load(c.members, boxOrder[slot]) <= c.terms.capacity
  {
    ListingSize(boxOrder, c.boxes);
    hide AssignedInOrder, Load, ListsByTime;
    EnoughSlotsIff(|c.members|, c.terms.capacity, |boxOrder|);
    LoadExact(c.members, c.boxes, boxOrder, agents, c.terms.capacity, slot);
    hide SlotLoad;
  }

  /** However short of seedboxes, only one is overfull, and none is newer. */
  lemma OnlyNewestOverfull(c: Snapshot) returns (newest: BoxId)
    requires c.terms.capacity >= 1 && c.boxes != map[] && Housed(c.members, c.boxes, c.terms.capacity)
    ensures newest in c.boxes
    ensures forall b :: b in c.boxes ==> StringLeq(c.boxes[b], c.boxes[newest])
    ensures forall b :: b in c.boxes && b != newest ==> Load(c.members, b) <= c.terms.capacity
  {
    var capacity := c.terms.capacity;
    var boxOrder, agents :| HousedBy(c.members, c.boxes, boxOrder, agents, capacity);
    ListingSize(boxOrder, c.boxes);
    newest := boxOrder[|boxOrder| - 1];
    assert newest in boxOrder;
    forall b | b in c.boxes
      ensures StringLeq(c.boxes[b], c.boxes[newest]) && (b != newest ==> Load(c.members, b) <= capacity)
    {
      assert b in boxOrder;
      var slot :| 0 <= slot < |boxOrder| && boxOrder[slot] == b;
      if b == newest {
        StringReflexive(c.boxes[b]);
      } else {
        LoadExact(c.members, c.boxes, boxOrder, agents, capacity, slot);
      }
    }
  }

  /** First come, oldest home: whoever joined earlier never lives in a newer seedbox. */
  lemma EarlierJoinersOlderHomes(c: Snapshot, a: string, b: string)
    requires c.terms.capacity >= 1 && Housed(c.members, c.boxes, c.terms.capacity)
    requires a in c.members && b in c.members && Smaller(c.members[a].joinedAt, c.members[b].joinedAt)
    ensures c.members[a].home.Some? && c.members[a].home.value in c.boxes
    ensures c.members[b].home.Some? && c.members[b].home.value in c.boxes
    ensures !Smaller(c.boxes[c.members[b].home.value], c.boxes[c.members[a].home.value])
  {
    hide ListsByTime, Smaller, Slot;
    var boxOrder, agents :| HousedBy(c.members, c.boxes, boxOrder, agents, c.terms.capacity);
    var times := JoinTimes(c.members);
    var i := PlaceOf(agents, times, a);
    var j := PlaceOf(agents, times, b);
    EarlierComesFirst(agents, times, i, j);
    var p, q := Slot(i, c.terms.capacity, |boxOrder|), Slot(j, c.terms.capacity, |boxOrder|);
    SlotsAscend(i, j, c.terms.capacity, |boxOrder|);
    EarlierComesFirst(boxOrder, c.boxes, q, p);
  }

  lemma PlaceOf<K(!new)>(order: seq<K>, times: map<K, string>, key: K) returns (i: nat)
    requires ListsByTime(order, times) && key in times
    ensures i < |order| && order[i] == key
  {
    assert key in order;
    i :| 0 <= i < |order| && order[i] == key;
  }

  lemma EarlierComesFirst<K(!new)>(order: seq<K>, times: map<K, string>, i: nat, j: nat)
    requires ListsByTime(order, times) && i < |order| && j < |order|
    ensures order[i] in times && order[j] in times && (Smaller(times[order[i]], times[order[j]]) ==> i < j)
  {
    hide Smaller, StringLeq;
    assert order[i] in order && order[j] in order;
    StringReflexive(times[order[i]]);
    NotSmaller(times[order[j]], times[order[i]]);
  }

  lemma SlotsAscend(i: nat, j: nat, capacity: int, boxes: nat)
    requires capacity >= 1 && boxes >= 1 && i <= j
    ensures Slot(i, capacity, boxes) <= Slot(j, capacity, boxes)
  {
    DivisionBand(j, capacity, i / capacity);
    DivisionBand(i, capacity, i / capacity);
  }

  // -------------------------------------------------------------------------
  // Runs
  // -------------------------------------------------------------------------

  ghost predicate Sound(c: Snapshot)
    requires c.terms.capacity >= 1
  {
    && c.treasury.balance == c.treasury.incoming - c.treasury.outgoing
    && c.members != map[]
    && (c.boxes != map[] ==> Housed(c.members, c.boxes, c.terms.capacity))
  }

  lemma BoughtKeepsSound(c: Snapshot, price: int, id: BoxId, createdAt: string, d: Snapshot)
    requires c.terms.capacity >= 1 && Sound(c) && Bought(c, price, id, createdAt, d)
    ensures Sound(d)
  {
    hide Housed;
    assert id in d.boxes;
    var someone :| someone in c.members;
    assert someone in d.members;
  }

  lemma EnrolledKeepsSound(c: Snapshot, agent: string, amount: int, joinedAt: string, d: Snapshot)
    requires c.terms.capacity >= 1 && Sound(c) && Enrolled(c, agent, amount, joinedAt, d)
    ensures Sound(d)
  {
    hide Housed;
    assert agent in c.members[agent := Member(joinedAt, amount, None)];
    assert agent in d.members;
  }

  lemma StepKeepsSound(c: Snapshot, op: Op, d: Snapshot)
    requires c.terms.capacity >= 1 && Sound(c) && Step(c, op, d)
    ensures d.terms == c.terms && Sound(d)
  {
    hide Housed, Rebalanced, DefaultHostname;
    match op {
      case Fund(_) =>
      case Buy(provider, hostname, cost, createdAt) =>
        if d != c {
          BoughtKeepsSound(c, ChargeFor(c, cost), BoxId(provider, HostnameFor(c, hostname)), createdAt, d);
        }
      case Join(agent, amount, joinedAt, createdAt) =>
        if amount >= c.terms.joinFee {
          var e :| Enrolled(c, agent, amount, joinedAt, e) && Expanded(e, createdAt, d);
          EnrolledKeepsSound(c, agent, amount, joinedAt, e);
          ExpandedKeepsSound(e, createdAt, d);
        }
    }
  }

  lemma ExpandedKeepsSound(e: Snapshot, createdAt: string, d: Snapshot)
    requires e.terms.capacity >= 1 && Sound(e) && Expanded(e, createdAt, d)
    ensures d.terms == e.terms && Sound(d)
  {
    hide Housed, Rebalanced, DefaultHostname;
    if Expands(e) {
      var provider :|
        IsExpansionProvider(e.boxes, provider)
        && Bought(e, e.terms.threshold, BoxId(provider, HostnameFor(e, None)), createdAt, d);
      BoughtKeepsSound(e, e.terms.threshold, BoxId(provider, HostnameFor(e, None)), createdAt, d);
    }
  }

  /** The books balance, and everyone is housed as soon as there is a seedbox, whatever happens. */
  lemma {:induction false} RunKeepsSound(trace: seq<Snapshot>, ops: seq<Op>, funding: int, i: nat)
    requires IsRun(trace, ops, funding) && i < |trace|
    ensures trace[i] in trace && trace[i].terms == trace[0].terms && Sound(trace[i])
  {
    if i == 0 {
      var founder, joinedAt: string :| trace[0].members == map[founder := Member(joinedAt, funding, None)];
      assert founder in trace[0].members;
    } else {
      RunKeepsSound(trace, ops, funding, i - 1);
      hide Step, Sound, Created;
      assert Step(trace[i - 1], ops[i - 1], trace[i]);
      StepKeepsSound(trace[i - 1], ops[i - 1], trace[i]);
    }
  }

  /** What an operation brings in: funding, and the amount of a join that is not refused. */
  function Received(c: Snapshot, op: Op): int {
    match op
    case Fund(amount) => amount
    case Buy(_, _, _, _) => 0
    case Join(_, amount, _, _) => if amount < c.terms.joinFee then 0 else amount
  }

  /** What an operation spends: the price of a purchase that goes through, by a buyer or by a join that expands. */
  function Paid(c: Snapshot, op: Op): int {
    match op
    case Fund(_) => 0
    case Buy(provider, _, cost, _) =>
      var price := if cost.Some? then cost.value else c.terms.threshold;
      if price <= c.treasury.balance && (provider == Mock || provider == Local) then price else 0
    case Join(agent, amount, _, _) =>
      var heads := |c.members| + if agent in c.members then 0 else 1;
      if && c.terms.joinFee <= amount
         && heads > |c.boxes| * c.terms.capacity
         && c.treasury.balance + amount >= c.terms.threshold
      then c.terms.threshold
      else 0
  }

  lemma StepMovesMoney(c: Snapshot, op: Op, d: Snapshot)
    requires c.terms.capacity >= 1 && Step(c, op, d)
    ensures d.treasury.incoming == c.treasury.incoming + Received(c, op)
    ensures d.treasury.outgoing == c.treasury.outgoing + Paid(c, op)
    ensures d.treasury.balance == c.treasury.balance + Received(c, op) - Paid(c, op)
  {
    hide Rebalanced, HostnameFor, Need, IsExpansionProvider, HeadCount;
    if op.Join? && op.amount >= c.terms.joinFee {
      var e :| Enrolled(c, op.agent, op.amount, op.joinedAt, e) && Expanded(e, op.createdAt, d);
      EnrolledCount(c, op.agent, op.amount, op.joinedAt, e);
      CoveredIff(e);
    }
  }

  lemma EnrolledCount(c: Snapshot, agent: string, amount: int, joinedAt: string, e: Snapshot)
    requires c.terms.capacity >= 1 && Enrolled(c, agent, amount, joinedAt, e)
    ensures |e.members| == |c.members| + if agent in c.members then 0 else 1
  {
    JoinedCount(c, agent, Member(joinedAt, amount, None));
    RebalancedKeepsPeople(c.members[agent := Member(joinedAt, amount, None)], e.members, e.boxes, c.terms.capacity);
  }

  /** All that came in and all that was paid in the first `i` steps of a run. */
  function TotalReceived(trace: seq<Snapshot>, ops: seq<Op>, i: nat): int
    requires i <= |ops| && |trace| == |ops| + 1
  {
    if i == 0 then 0 else TotalReceived(trace, ops, i - 1) + Received(trace[i - 1], ops[i - 1])
  }

  function TotalPaid(trace: seq<Snapshot>, ops: seq<Op>, i: nat): int
    requires i <= |ops| && |trace| == |ops| + 1
  {
    if i == 0 then 0 else TotalPaid(trace, ops, i - 1) + Paid(trace[i - 1], ops[i - 1])
  }

  /** In every run the books are the sums of what was received and of what was paid for. */
  lemma {:induction false} BooksAddUp(trace: seq<Snapshot>, ops: seq<Op>, funding: int, i: nat)
    requires IsRun(trace, ops, funding) && i < |trace|
    ensures trace[i].treasury.incoming == funding + TotalReceived(trace, ops, i)
    ensures trace[i].treasury.outgoing == TotalPaid(trace, ops, i)
    ensures trace[i].treasury.balance == funding + TotalReceived(trace, ops, i) - TotalPaid(trace, ops, i)
  {
    hide Step, Received, Paid;
    if i > 0 {
      BooksAddUp(trace, ops, funding, i - 1);
      assert trace[i - 1] in trace;
      StepMovesMoney(trace[i - 1], ops[i - 1], trace[i]);
    }
  }

  ghost predicate NoRefunds(ops: seq<Op>) {
    forall op :: op in ops ==> (op.Fund? ==> op.amount >= 0)
  }

  lemma StepKeepsSolvent(c: Snapshot, op: Op, d: Snapshot)
    requires c.terms.capacity >= 1 && c.terms.joinFee >= 0 && Step(c, op, d) && (op.Fund? ==> op.amount >= 0)
    requires c.treasury.balance >= 0
    ensures d.treasury.balance >= 0
  {
    hide Rebalanced, DefaultHostname, HostnameFor;
  }

  /** No purchase overdraws the treasury, at any price. */
  lemma {:induction false} RunStaysSolvent(trace: seq<Snapshot>, ops: seq<Op>, funding: int, i: nat)
    requires IsRun(trace, ops, funding) && i < |trace|
    requires funding >= 0 && trace[0].terms.joinFee >= 0 && NoRefunds(ops)
    ensures trace[i].treasury.balance >= 0
  {
    hide Step, Sound;
    if i > 0 {
      RunStaysSolvent(trace, ops, funding, i - 1);
      RunKeepsSound(trace, ops, funding, i - 1);
      hide Created;
      assert ops[i - 1] in ops && trace[i - 1] in trace;
      assert Step(trace[i - 1], ops[i - 1], trace[i]);
      StepKeepsSolvent(trace[i - 1], ops[i - 1], trace[i]);
    }
  }

  // -------------------------------------------------------------------------
  // Expansion
  // -------------------------------------------------------------------------

  lemma BoughtRequires(c: Snapshot, price: int, id: BoxId, createdAt: string, d: Snapshot)
    requires c.terms.capacity >= 1 && c.members != map[] && Bought(c, price, id, createdAt, d)
    ensures d.members != map[] && d.Required() == c.Required()
    ensures |d.boxes| == if id in c.boxes then |c.boxes| else |c.boxes| + 1
  {
    hide Housed;
    assert id in d.boxes;
    SamePeopleCount(c.members, d.members);
    var someone :| someone in c.members;
    assert someone in d.members;
    assert d.boxes.Keys == c.boxes.Keys + {id};
    assert |d.boxes| == |d.boxes.Keys| && |c.boxes| == |c.boxes.Keys|;
  }

  lemma EnrolledRequires(c: Snapshot, agent: string, amount: int, joinedAt: string, e: Snapshot)
    requires c.terms.capacity >= 1 && Enrolled(c, agent, amount, joinedAt, e)
    ensures e.members != map[] && e.Required() == Need(HeadCount(c, agent), c.terms.capacity)
  {
    hide Housed, Need, HeadCount;
    var joined := c.members[agent := Member(joinedAt, amount, None)];
    JoinedCount(c, agent, Member(joinedAt, amount, None));
    assert agent in joined && agent in e.members;
    if c.boxes != map[] {
      SamePeopleCount(joined, e.members);
    }
    hide SamePeople;
  }

  lemma EnrolledChanges(c: Snapshot, agent: string, amount: int, joinedAt: string, e: Snapshot)
    requires c.terms.capacity >= 1 && Enrolled(c, agent, amount, joinedAt, e)
    ensures e.terms == c.terms && e.treasury == c.treasury.Funded(amount) && e.boxes == c.boxes
    ensures HostnameFor(e, None) == HostnameFor(c, None)
  {
  }

  /** A join adds at most one seedbox: it is enough exactly when one is wanted, affordable and new. */
  lemma CoveredAfterJoinIff(
    c: Snapshot, agent: string, amount: int, joinedAt: string, createdAt: string, provider: Provider, d: Snapshot)
    requires c.terms.capacity >= 1 && amount >= c.terms.joinFee
    requires Step(c, Join(agent, amount, joinedAt, createdAt), d)
    requires forall p :: IsExpansionProvider(c.boxes, p) ==> p == provider
    ensures var need := Need(HeadCount(c, agent), c.terms.capacity);
            d.terms == c.terms
            && (d.Covered() <==>
                need <= |c.boxes|
                || (need == |c.boxes| + 1
                    && c.treasury.balance + amount >= c.terms.threshold
                    && BoxId(provider, HostnameFor(c, None)) !in c.boxes))
  {
    hide Rebalanced, DefaultHostname, Need;
    var e :| Enrolled(c, agent, amount, joinedAt, e) && Expanded(e, createdAt, d);
    hide Enrolled;
    EnrolledChanges(c, agent, amount, joinedAt, e);
    EnrolledRequires(c, agent, amount, joinedAt, e);
    if Expands(e) {
      var p :|
        IsExpansionProvider(e.boxes, p)
        && Bought(e, e.terms.threshold, BoxId(p, HostnameFor(e, None)), createdAt, d);
      assert p == provider;
      hide IsExpansionProvider, HostnameFor;
      BoughtRequires(e, e.terms.threshold, BoxId(p, HostnameFor(e, None)), createdAt, d);
    }
  }

  // -------------------------------------------------------------------------
  // Names
  // -------------------------------------------------------------------------

  ghost predicate NameFree(c: Snapshot) {
    forall b :: b in c.boxes ==> b.hostname != HostnameFor(c, None)
  }

  /** Every seedbox carries the default name of a number no larger than the count. */
  ghost predicate DefaultNamed(c: Snapshot) {
    forall b :: b in c.boxes ==>
      exists k: nat :: 1 <= k <= |c.boxes| && b.hostname == DefaultHostname(c.terms.communityId, k)
  }

  lemma DefaultHostnameInjective(communityId: string, i: nat, j: nat)
    requires DefaultHostname(communityId, i) == DefaultHostname(communityId, j)
    ensures i == j
  {
    var stem := communityId + "-seedbox-";
    assert DefaultHostname(communityId, i)[|stem|..] == PrintNat(i);
    assert DefaultHostname(communityId, j)[|stem|..] == PrintNat(j);
    ParseOfPrintNat(i);
    ParseOfPrintNat(j);
  }

  lemma DefaultNamedIsFree(c: Snapshot)
    requires DefaultNamed(c)
    ensures NameFree(c)
  {
    forall b | b in c.boxes ensures b.hostname != HostnameFor(c, None) {
      var k: nat :| 1 <= k <= |c.boxes| && b.hostname == DefaultHostname(c.terms.communityId, k);
      if b.hostname == HostnameFor(c, None) {
        DefaultHostnameInjective(c.terms.communityId, k, |c.boxes| + 1);
      }
    }
  }

  lemma BoughtKeepsDefaultNamed(c: Snapshot, price: int, provider: Provider, createdAt: string, d: Snapshot)
    requires c.terms.capacity >= 1 && DefaultNamed(c)
    requires Bought(c, price, BoxId(provider, HostnameFor(c, None)), createdAt, d)
    ensures DefaultNamed(d) && |d.boxes| == |c.boxes| + 1
  {
    hide Rebalanced, DefaultHostname;
    DefaultNamedIsFree(c);
    var id := BoxId(provider, HostnameFor(c, None));
    assert d.boxes.Keys == c.boxes.Keys + {id};
    assert |d.boxes| == |d.boxes.Keys| && |c.boxes| == |c.boxes.Keys|;
    assert id.hostname == DefaultHostname(c.terms.communityId, |c.boxes| + 1);
  }

  ghost predicate DefaultHostnames(ops: seq<Op>) {
    forall op :: op in ops ==> (op.Buy? ==> op.hostname == None)
  }

  lemma StepKeepsDefaultNamed(c: Snapshot, op: Op, d: Snapshot)
    requires c.terms.capacity >= 1 && DefaultNamed(c) && Step(c, op, d) && (op.Buy? ==> op.hostname == None)
    ensures DefaultNamed(d)
  {
    hide Rebalanced, DefaultHostname;
    match op {
      case Fund(_) =>
      case Buy(provider, hostname, cost, createdAt) =>
        if d != c {
          BoughtKeepsDefaultNamed(c, ChargeFor(c, cost), provider, createdAt, d);
        }
      case Join(agent, amount, joinedAt, createdAt) =>
        if amount >= c.terms.joinFee {
          var e :| Enrolled(c, agent, amount, joinedAt, e) && Expanded(e, createdAt, d);
          assert DefaultNamed(e);
          if Expands(e) {
            var p :|
              IsExpansionProvider(e.boxes, p)
              && Bought(e, e.terms.threshold, BoxId(p, HostnameFor(e, None)), createdAt, d);
            BoughtKeepsDefaultNamed(e, e.terms.threshold, p, createdAt, d);
          }
        }
    }
  }

  lemma {:induction false} RunKeepsDefaultNamed(trace: seq<Snapshot>, ops: seq<Op>, funding: int, i: nat)
    requires IsRun(trace, ops, funding) && i < |trace| && DefaultHostnames(ops)
    ensures DefaultNamed(trace[i]) && NameFree(trace[i])
  {
    if i > 0 {
      RunKeepsDefaultNamed(trace, ops, funding, i - 1);
      hide Step, DefaultNamed, NameFree, Created;
      assert ops[i - 1] in ops && trace[i - 1] in trace;
      assert Step(trace[i - 1], ops[i - 1], trace[i]);
      StepKeepsDefaultNamed(trace[i - 1], ops[i - 1], trace[i]);
    }
    DefaultNamedIsFree(trace[i]);
  }

  // -------------------------------------------------------------------------
  // Capacity over whole runs
  // -------------------------------------------------------------------------

  /** Every accepted join after `i` leaves the treasury able to pay for one more seedbox. */
  ghost predicate JoinsCanPay(trace: seq<Snapshot>, ops: seq<Op>, i: nat)
    requires |trace| == |ops| + 1
  {
    forall k :: i <= k < |ops| && ops[k].Join? && ops[k].amount >= trace[k].terms.joinFee ==>
                  trace[k].treasury.balance + ops[k].amount >= trace[k].terms.threshold
  }

  lemma OneMoreNeed(people: nat, capacity: int)
    requires capacity >= 1
    ensures Need(people + 1, capacity) <= Need(people, capacity) + 1
  {
    DivisionBand(people + capacity - 1, capacity, Need(people, capacity));
    DivisionBand(people + capacity, capacity, Need(people, capacity) + 2);
    var q := Need(people, capacity);
    assert (q + 2) * capacity == q * capacity + 2 * capacity;
  }

  lemma JoinKeepsCovered(
    c: Snapshot, agent: string, amount: int, joinedAt: string, createdAt: string, e: Snapshot, d: Snapshot)
    requires c.terms.capacity >= 1 && Sound(c) && c.Covered() && NameFree(c)
    requires Enrolled(c, agent, amount, joinedAt, e) && Expanded(e, createdAt, d)
    requires c.treasury.balance + amount >= c.terms.threshold
    ensures d.Covered()
  {
    hide Housed, Rebalanced, DefaultHostname, Need, Enrolled, IsExpansionProvider;
    EnrolledChanges(c, agent, amount, joinedAt, e);
    EnrolledRequires(c, agent, amount, joinedAt, e);
    OneMoreNeed(|c.members|, c.terms.capacity);
    if Expands(e) {
      var p :|
        IsExpansionProvider(e.boxes, p)
        && Bought(e, e.terms.threshold, BoxId(p, HostnameFor(e, None)), createdAt, d);
      hide HostnameFor;
      BoughtRequires(e, e.terms.threshold, BoxId(p, HostnameFor(e, None)), createdAt, d);
    }
  }

  lemma StepKeepsCovered(c: Snapshot, op: Op, d: Snapshot)
    requires c.terms.capacity >= 1 && Sound(c) && c.Covered() && NameFree(c) && Step(c, op, d)
    requires op.Join? && op.amount >= c.terms.joinFee ==> c.treasury.balance + op.amount >= c.terms.threshold
    ensures d.terms == c.terms && d.Covered()
  {
    StepKeepsSound(c, op, d);
    hide Housed, Rebalanced, DefaultHostname, NameFree, Need;
    match op {
      case Fund(_) =>
      case Buy(provider, hostname, cost, createdAt) =>
        if d != c {
          BoughtRequires(c, ChargeFor(c, cost), BoxId(provider, HostnameFor(c, hostname)), createdAt, d);
        }
      case Join(agent, amount, joinedAt, createdAt) =>
        if amount >= c.terms.joinFee {
          hide Sound, Enrolled, Expanded;
          var e :| Enrolled(c, agent, amount, joinedAt, e) && Expanded(e, createdAt, d);
          JoinKeepsCovered(c, agent, amount, joinedAt, createdAt, e, d);
        }
    }
  }

  /** Once enough seedboxes are rented, they stay enough while joins can pay, and none is overfull. */
  lemma {:induction false} RunStaysWithinCapacity(
    trace: seq<Snapshot>, ops: seq<Op>, funding: int, i: nat, j: nat)
    requires IsRun(trace, ops, funding) && i <= j < |trace|
    requires trace[i] in trace && trace[i].Covered()
    requires DefaultHostnames(ops) && JoinsCanPay(trace, ops, i)
    ensures trace[j] in trace && trace[j].Covered() && WithinCapacity(trace[j])
    decreases j
  {
    hide Need, WithinCapacity, Sound, Step, Created;
    RunKeepsSound(trace, ops, funding, j);
    if j > i {
      RunStaysWithinCapacity(trace, ops, funding, i, j - 1);
      RunKeepsSound(trace, ops, funding, j - 1);
      RunKeepsDefaultNamed(trace, ops, funding, j - 1);
      assert Step(trace[j - 1], ops[j - 1], trace[j]);
      hide Step, NameFree, DefaultNamed, WithinCapacity, Sound;
      StepKeepsCovered(trace[j - 1], ops[j - 1], trace[j]);
    }
    CoveredIsWithinCapacity(trace[j]);
  }

  lemma CoveredIsWithinCapacity(c: Snapshot)
    requires c.terms.capacity >= 1 && Sound(c) && c.Covered()
    ensures WithinCapacity(c)
  {
    hide Housed;
    if c.boxes != map[] {
      WithinCapacityIff(c);
    }
  }

  // -------------------------------------------------------------------------
  // A taken name
  // -------------------------------------------------------------------------

  /**
   * If the next default name is already in use with the provider that expansions use, an expansion
   * pays in full, replaces that seedbox instead of adding one, and leaves the same trap set.
   */
  lemma TakenNameIsPaidInVain(c: Snapshot, createdAt: string, provider: Provider, d: Snapshot)
    requires c.terms.capacity >= 1 && c.members != map[] && Expands(c) && Expanded(c, createdAt, d)
    requires forall p :: IsExpansionProvider(c.boxes, p) ==> p == provider
    requires BoxId(provider, HostnameFor(c, None)) in c.boxes
    ensures d.treasury.balance == c.treasury.balance - c.terms.threshold
    ensures d.treasury.outgoing == c.treasury.outgoing + c.terms.threshold && d.treasury.incoming == c.treasury.incoming
    ensures d.boxes.Keys == c.boxes.Keys && !d.Covered()
    ensures HostnameFor(d, None) == HostnameFor(c, None)
  {
    var p :|
      IsExpansionProvider(c.boxes, p)
      && Bought(c, c.terms.threshold, BoxId(p, HostnameFor(c, None)), createdAt, d);
    hide Rebalanced, DefaultHostname, IsExpansionProvider;
    var id := BoxId(p, HostnameFor(c, None));
    BoughtRequires(c, c.terms.threshold, id, createdAt, d);
    assert d.boxes.Keys == c.boxes.Keys + {id};
  }

  /**
   * The trap is easy to set: a first seedbox bought under the explicit name of number two. The second
   * member's join then pays the threshold price and still leaves one seedbox for two.
   */
  lemma ExplicitNameSetsTheTrap(c: Snapshot, agent: string, amount: int, t1: string, t2: string, t3: string, d: Snapshot)
    requires c.terms.capacity == 1 && |c.members| == 1 && agent !in c.members
    requires c.boxes == map[BoxId(Local, DefaultHostname(c.terms.communityId, 2)) := t1]
    requires amount >= c.terms.joinFee && c.treasury.balance + amount >= c.terms.threshold
    requires Step(c, Join(agent, amount, t2, t3), d)
    ensures c.Covered() && NeedsOneMore(c) && !d.Covered()
  {
    hide Rebalanced, DefaultHostname;
    var id := BoxId(Local, DefaultHostname(c.terms.communityId, 2));
    assert |c.boxes| == 1 && id in c.boxes && HostnameFor(c, None) == id.hostname;
    assert forall p :: IsExpansionProvider(c.boxes, p) ==> p == Local;
    hide Step, IsExpansionProvider, HostnameFor;
    CoveredAfterJoinIff(c, agent, amount, t2, t3, Local, d);
  }

  ghost predicate NeedsOneMore(c: Snapshot)
    requires c.terms.capacity >= 1
  {
    Need(|c.members| + 1, c.terms.capacity) == |c.boxes| + 1
  }
}
