/** A shared treasury that rents seedboxes: members, purchases, and who is housed where. */
module ClawCommunity {
  import opened Collections
  import opened Ordering
  import opened Text

  datatype Provider = Mock | Local | SporeStack | Unlisted(name: string)
  {
    predicate Launches() {
      Mock? || Local?
    }
  }

  /** A machine id is a digest of provider and hostname, taken as injective. */
  datatype BoxId = BoxId(provider: Provider, hostname: string)

  datatype Member = Member(joinedAt: string, donated: int, home: Option<BoxId>)

  datatype Terms = Terms(communityId: string, joinFee: int, capacity: int, threshold: int)

  datatype Treasury = Treasury(balance: int, incoming: int, outgoing: int)
  {
    function Funded(amount: int): Treasury {
      Treasury(balance + amount, incoming + amount, outgoing)
    }

    function Spent(price: int): Treasury {
      Treasury(balance - price, incoming, outgoing + price)
    }
  }

  /** How many seedboxes of this capacity so many people fill. */
  function Need(people: int, capacity: int): int
    requires capacity >= 1
  {
    (people + capacity - 1) / capacity
  }

  /** A community as it is saved; seedboxes map to their creation times. */
  datatype Snapshot = Snapshot(
    terms: Terms, treasury: Treasury, members: map<string, Member>, boxes: map<BoxId, string>)
  {
    function Required(): int
      requires terms.capacity >= 1
    {
      if members == map[] then (if boxes != map[] then 1 else 0)
      else Need(|members|, terms.capacity)
    }

    predicate Covered()
      requires terms.capacity >= 1
    {
      Required() <= |boxes|
    }
  }

  /** The required count is the least that holds everyone, and one for a community of nobody that has a seedbox. */
  lemma RequiredIsLeast(c: Snapshot, n: nat)
    requires c.terms.capacity >= 1
    ensures c.Required() <= n <==>
              |c.members| <= n * c.terms.capacity && (|c.members| == 0 && |c.boxes| > 0 ==> n >= 1)
  {
    assert c.members == map[] <==> |c.members| == 0;
    assert c.boxes == map[] <==> |c.boxes| == 0;
    if c.members == map[] {
      assert 0 <= n * c.terms.capacity;
    } else {
      NeedIff(|c.members|, c.terms.capacity, n);
    }
  }

  /** There are enough seedboxes exactly when together they hold everyone. */
  lemma CoveredIff(c: Snapshot)
    requires c.terms.capacity >= 1
    ensures c.Covered() <==> |c.members| <= |c.boxes| * c.terms.capacity
  {
    RequiredIsLeast(c, |c.boxes|);
  }

  lemma NeedIff(people: nat, capacity: int, boxes: nat)
    requires capacity >= 1
    ensures Need(people, capacity) <= boxes <==> people <= boxes * capacity
  {
    var q := Need(people, capacity);
    assert q * capacity <= people + capacity - 1 < q * capacity + capacity;
    if q <= boxes {
      assert q * capacity <= boxes * capacity;
    } else {
      assert (boxes + 1) * capacity <= q * capacity;
    }
  }

  function DefaultHostname(communityId: string, number: nat): string {
    communityId + "-seedbox-" + PrintNat(number)
  }

  // -------------------------------------------------------------------------
  // Listing a dictionary by time
  // -------------------------------------------------------------------------

  ghost predicate Distinct<K(!new)>(s: seq<K>) {
    forall i, j :: 0 <= i < j < |s| ==> s[i] != s[j]
  }

  /** The keys once each, oldest first; ties stand as the dictionary yields them. */
  ghost predicate ListsByTime<K(!new)>(order: seq<K>, times: map<K, string>) {
    && Distinct(order)
    && (forall k :: k in order <==> k in times)
    && (forall i, j :: 0 <= i < j < |order| ==> StringLeq(times[order[i]], times[order[j]]))
  }

  function InsertByTime<K>(key: K, order: seq<K>, times: map<K, string>): seq<K>
    requires key in times && forall k :: k in order ==> k in times
  {
    if order == [] || StringLeq(times[key], times[order[0]]) then [key] + order
    else [order[0]] + InsertByTime(key, order[1..], times)
  }

  lemma {:induction false} InsertMembers<K(!new)>(key: K, order: seq<K>, times: map<K, string>)
    requires key in times && forall k :: k in order ==> k in times
    ensures forall k :: k in InsertByTime(key, order, times) <==> k == key || k in order
  {
    if order != [] && !StringLeq(times[key], times[order[0]]) {
      InsertMembers(key, order[1..], times);
      assert order == [order[0]] + order[1..];
    }
  }

  ghost predicate Sorted<K(!new)>(order: seq<K>, times: map<K, string>)
    requires forall k :: k in order ==> k in times
  {
    forall i, j :: 0 <= i < j < |order| ==> StringLeq(times[order[i]], times[order[j]])
  }

  lemma {:induction false} InsertSorted<K(!new)>(key: K, order: seq<K>, times: map<K, string>)
    requires key in times && forall k :: k in order ==> k in times
    requires Sorted(order, times)
    ensures forall k :: k in InsertByTime(key, order, times) ==> k in times
    ensures Sorted(InsertByTime(key, order, times), times)
  {
    InsertMembers(key, order, times);
    if order != [] {
      if StringLeq(times[key], times[order[0]]) {
        forall j | 0 <= j < |order| ensures StringLeq(times[key], times[order[j]]) {
          assert order[j] in order;
          if j > 0 {
            StringTransitive(times[key], times[order[0]], times[order[j]]);
          }
        }
      } else {
        StringTotal(times[key], times[order[0]]);
        InsertMembers(key, order[1..], times);
        InsertSorted(key, order[1..], times);
        var rest := InsertByTime(key, order[1..], times);
        forall j | 0 <= j < |rest| ensures StringLeq(times[order[0]], times[rest[j]]) {
          assert rest[j] in rest;
        }
      }
    }
  }

  lemma DistinctCons<K(!new)>(first: K, rest: seq<K>)
    requires Distinct(rest) && first !in rest
    ensures Distinct([first] + rest)
  {
    forall j | 0 <= j < |rest| ensures rest[j] != first {
      assert rest[j] in rest;
    }
  }

  lemma {:induction false} InsertDistinct<K(!new)>(key: K, order: seq<K>, times: map<K, string>)
    requires key in times && key !in order && forall k :: k in order ==> k in times
    requires Distinct(order)
    ensures Distinct(InsertByTime(key, order, times))
  {
    if order != [] && !StringLeq(times[key], times[order[0]]) {
      InsertDistinct(key, order[1..], times);
      InsertMembers(key, order[1..], times);
      DistinctCons(order[0], InsertByTime(key, order[1..], times));
    } else {
      DistinctCons(key, order);
    }
  }

  /** `sorted(d.values(), key=...)`, for whatever order the dictionary has. */
  method SortByTime<K(==, !new)>(times: map<K, string>) returns (order: seq<K>)
    ensures ListsByTime(order, times)
    ensures forall i, j :: 0 <= i < j < |order| && order[i] in times && order[j] in times ==>
              !Smaller(times[order[j]], times[order[i]])
  {
    var rest := times.Keys;
    order := [];
    while rest != {}
      invariant rest <= times.Keys
      invariant forall k :: k in order <==> k in times && k !in rest
      invariant Distinct(order)
      invariant Sorted(order, times)
      decreases |rest|
    {
      var key :| key in rest;
      InsertMembers(key, order, times);
      InsertSorted(key, order, times);
      InsertDistinct(key, order, times);
      order := InsertByTime(key, order, times);
      rest := rest - {key};
    }
    forall i, j | 0 <= i < j < |order| ensures !Smaller(times[order[j]], times[order[i]]) {
      NotSmaller(times[order[i]], times[order[j]]);
    }
  }

  // -------------------------------------------------------------------------
  // Rebalancing
  // -------------------------------------------------------------------------

  function JoinTimes(members: map<string, Member>): map<string, string> {
    map id | id in members :: members[id].joinedAt
  }

  /** Seedboxes are filled in order of age; the last takes whoever is left. */
  function Slot(rank: nat, capacity: int, boxes: nat): (slot: nat)
    requires capacity >= 1 && boxes >= 1
    ensures slot < boxes
  {
    Min(rank / capacity, boxes - 1)
  }

  ghost predicate AssignedInOrder(members: map<string, Member>, boxes: seq<BoxId>, agents: seq<string>, capacity: int)
    requires capacity >= 1 && boxes != [] && forall a :: a in agents ==> a in members
  {
    forall i :: 0 <= i < |agents| ==> members[agents[i]].home == Some(boxes[Slot(i, capacity, |boxes|)])
  }

  /** The same people, now housed in order. */
  ghost predicate SamePeople(before: map<string, Member>, after: map<string, Member>) {
    && after.Keys == before.Keys
    && forall id :: id in before ==>
         after[id].joinedAt == before[id].joinedAt && after[id].donated == before[id].donated
  }

  ghost predicate HousedBy(
    members: map<string, Member>, boxes: map<BoxId, string>, boxOrder: seq<BoxId>, agents: seq<string>, capacity: int)
    requires capacity >= 1
  {
    && ListsByTime(boxOrder, boxes)
    && ListsByTime(agents, JoinTimes(members))
    && boxOrder != []
    && (forall a :: a in agents ==> a in members)
    && AssignedInOrder(members, boxOrder, agents, capacity)
  }

  ghost predicate Housed(members: map<string, Member>, boxes: map<BoxId, string>, capacity: int)
    requires capacity >= 1
  {
    exists boxOrder, agents :: HousedBy(members, boxes, boxOrder, agents, capacity)
  }

  ghost predicate Rebalanced(
    before: map<string, Member>, after: map<string, Member>, boxes: map<BoxId, string>, capacity: int)
    requires capacity >= 1
  {
    if boxes == map[] then after == before else SamePeople(before, after) && Housed(after, boxes, capacity)
  }

  lemma SamePeopleSameTimes(before: map<string, Member>, after: map<string, Member>)
    requires SamePeople(before, after)
    ensures JoinTimes(after) == JoinTimes(before)
  {
  }

  lemma NobodyMovedYet(members: map<string, Member>, boxes: seq<BoxId>, capacity: int)
    requires capacity >= 1 && boxes != []
    ensures SamePeople(members, members) && AssignedInOrder(members, boxes, [], capacity)
  {
  }

  /** One turn of the rebalancing loop. */
  lemma AssignNext(
    before: map<string, Member>, members: map<string, Member>, boxes: seq<BoxId>, agents: seq<string>, i: nat,
    capacity: int)
    requires capacity >= 1 && boxes != [] && i < |agents| && Distinct(agents)
    requires SamePeople(before, members) && forall a :: a in agents ==> a in members
    requires AssignedInOrder(members, boxes, agents[..i], capacity)
    ensures var id := agents[i];
            var after := members[id := members[id].(home := Some(boxes[Slot(i, capacity, |boxes|)]))];
            SamePeople(before, after) && AssignedInOrder(after, boxes, agents[..i + 1], capacity)
  {
    hide Slot;
    var done := agents[..i + 1];
    forall k | 0 <= k < i ensures done[k] == agents[..i][k] && done[k] != agents[i] {
    }
  }

  function Load(members: map<string, Member>, box: BoxId): nat {
    |set id | id in members && members[id].home == Some(box)|
  }

  // -------------------------------------------------------------------------
  // Operations
  // -------------------------------------------------------------------------

  datatype Op =
    | Fund(amount: int)
    | Buy(provider: Provider, hostname: Option<string>, cost: Option<int>, createdAt: string)
    | Join(agent: string, amount: int, joinedAt: string, createdAt: string)

  function HostnameFor(c: Snapshot, hostname: Option<string>): string {
    match hostname
    case Some(name) => if name == "" then DefaultHostname(c.terms.communityId, |c.boxes| + 1) else name
    case None => DefaultHostname(c.terms.communityId, |c.boxes| + 1)
  }

  /** A purchase that went through: paid, registered, everyone rehoused. */
  ghost predicate Bought(c: Snapshot, price: int, id: BoxId, createdAt: string, d: Snapshot)
    requires c.terms.capacity >= 1
  {
    && d.terms == c.terms
    && d.treasury == c.treasury.Spent(price)
    && d.boxes == c.boxes[id := createdAt]
    && Rebalanced(c.members, d.members, d.boxes, c.terms.capacity)
  }

  ghost predicate Enrolled(c: Snapshot, agent: string, amount: int, joinedAt: string, d: Snapshot)
    requires c.terms.capacity >= 1
  {
    && d.terms == c.terms
    && d.treasury == c.treasury.Funded(amount)
    && d.boxes == c.boxes
    && Rebalanced(c.members[agent := Member(joinedAt, amount, None)], d.members, d.boxes, c.terms.capacity)
  }

  /** The provider of the oldest seedbox, or the local one when there is none yet. */
  ghost predicate IsExpansionProvider(boxes: map<BoxId, string>, provider: Provider) {
    if boxes == map[] then provider == Local
    else exists b :: b in boxes && b.provider == provider && forall o :: o in boxes ==> StringLeq(boxes[b], boxes[o])
  }

  /** One seedbox of this name is added with the provider of the oldest there is, the local one for the first. */
  ghost predicate AddsNextTo(before: map<BoxId, string>, hostname: string, createdAt: string, after: map<BoxId, string>) {
    if before == map[] then after == map[BoxId(Local, hostname) := createdAt]
    else
      exists oldest ::
        && oldest in before
        && (forall o :: o in before ==> before[oldest] == before[o] || Smaller(before[oldest], before[o]))
        && after == before[BoxId(oldest.provider, hostname) := createdAt]
  }

  ghost predicate Expands(c: Snapshot)
    requires c.terms.capacity >= 1
  {
    !c.Covered() && c.treasury.balance >= c.terms.threshold
  }

  ghost predicate Expanded(c: Snapshot, createdAt: string, d: Snapshot)
    requires c.terms.capacity >= 1
  {
    if !Expands(c) then d == c
    else exists provider ::
           IsExpansionProvider(c.boxes, provider)
           && Bought(c, c.terms.threshold, BoxId(provider, HostnameFor(c, None)), createdAt, d)
  }

  function ChargeFor(c: Snapshot, cost: Option<int>): int {
    if cost.Some? then cost.value else c.terms.threshold
  }

  ghost predicate Step(c: Snapshot, op: Op, d: Snapshot)
    requires c.terms.capacity >= 1
  {
    match op
    case Fund(amount) => d == c.(treasury := c.treasury.Funded(amount))
    case Buy(provider, hostname, cost, createdAt) =>
      if c.treasury.balance < ChargeFor(c, cost) || !provider.Launches() then d == c
      else Bought(c, ChargeFor(c, cost), BoxId(provider, HostnameFor(c, hostname)), createdAt, d)
    case Join(agent, amount, joinedAt, createdAt) =>
      if amount < c.terms.joinFee then d == c
      else exists e :: Enrolled(c, agent, amount, joinedAt, e) && Expanded(e, createdAt, d)
  }

  ghost predicate Created(c: Snapshot, funding: int) {
    && c.terms.capacity >= 1
    && c.treasury == Treasury(funding, funding, 0)
    && c.boxes == map[]
    && exists founder, joinedAt: string :: c.members == map[founder := Member(joinedAt, funding, None)]
  }

  ghost predicate IsRun(trace: seq<Snapshot>, ops: seq<Op>, funding: int) {
    && |trace| == |ops| + 1
    && (forall c :: c in trace ==> c.terms.capacity >= 1)
    && Created(trace[0], funding)
    && forall i :: 0 <= i < |ops| ==> Step(trace[i], ops[i], trace[i + 1])
  }

  /** The head count after a join: an agent who joins again takes its own place. */
  function HeadCount(c: Snapshot, agent: string): nat {
    if agent in c.members then |c.members| else |c.members| + 1
  }


  lemma SamePeopleCount(before: map<string, Member>, after: map<string, Member>)
    requires SamePeople(before, after)
    ensures |after| == |before|
  {
    assert |after| == |after.Keys| == |before.Keys| == |before|;
  }


  lemma JoinedCount(c: Snapshot, agent: string, member: Member)
    ensures |c.members[agent := member]| == HeadCount(c, agent)
  {
    var joined := c.members[agent := member];
    assert joined.Keys == c.members.Keys + {agent};
    assert |joined| == |joined.Keys| && |c.members| == |c.members.Keys|;
  }


  lemma SamePeopleThroughout(a: map<string, Member>, b: map<string, Member>, c: map<string, Member>)
    requires SamePeople(a, b) && SamePeople(b, c)
    ensures SamePeople(a, c)
  {
  }

  lemma RebalancedKeepsPeople(
    before: map<string, Member>, after: map<string, Member>, boxes: map<BoxId, string>, capacity: int)
    requires capacity >= 1 && Rebalanced(before, after, boxes, capacity)
    ensures SamePeople(before, after) && |after| == |before|
  {
    SamePeopleCount(before, after);
  }

  /** The first seedbox by creation time is the oldest, and one that launches. */
  lemma OldestProvider(boxes: map<BoxId, string>, order: seq<BoxId>)
    requires ListsByTime(order, boxes) && forall b :: b in boxes ==> b.provider.Launches()
    ensures var provider := if order == [] then Local else order[0].provider;
            IsExpansionProvider(boxes, provider) && provider.Launches()
  {
    if order == [] {
      assert forall b :: b in boxes ==> b in order;
      assert boxes == map[];
    } else {
      assert order[0] in order;
      forall o | o in boxes ensures StringLeq(boxes[order[0]], boxes[o]) {
        assert o in order;
        var k :| 0 <= k < |order| && order[k] == o;
        StringReflexive(boxes[o]);
      }
      assert order[0] in boxes;
    }
  }

  lemma ProviderAddsNextTo(boxes: map<BoxId, string>, provider: Provider, hostname: string, createdAt: string)
    requires IsExpansionProvider(boxes, provider)
    ensures AddsNextTo(boxes, hostname, createdAt, boxes[BoxId(provider, hostname) := createdAt])
  {
    if boxes != map[] {
      var b :| b in boxes && b.provider == provider && forall o :: o in boxes ==> StringLeq(boxes[b], boxes[o]);
      forall o | o in boxes ensures boxes[b] == boxes[o] || Smaller(boxes[b], boxes[o]) {
        StringLeqIff(boxes[b], boxes[o]);
      }
    }
  }

  lemma MembersAfterJoin(before: map<string, Member>, agent: string, member: Member, after: map<string, Member>)
    requires SamePeople(before[agent := member], after)
    ensures after.Keys == before.Keys + {agent}
    ensures after[agent].joinedAt == member.joinedAt && after[agent].donated == member.donated
  {
  }

  // -------------------------------------------------------------------------
  // The community as an object
  // -------------------------------------------------------------------------

  datatype Outcome = Done | NotEnoughFunds | LaunchDisabled | NoSuchProvider | BelowJoinFee

  class Community {
    const terms: Terms
    var balance: int
    var incoming: int
    var outgoing: int
    var members: map<string, Member>
    var boxes: map<BoxId, string>

    ghost predicate Valid()
      reads this
    {
      terms.capacity >= 1 && forall b :: b in boxes ==> b.provider.Launches()
    }

    function Value(): Snapshot
      reads this
    {
      Snapshot(terms, Treasury(balance, incoming, outgoing), members, boxes)
    }

    constructor (terms: Terms, founder: string, funding: int, now: string)
      requires terms.capacity >= 1
      ensures Valid() && this.terms == terms && Created(Value(), funding)
      ensures balance == funding && incoming == funding && outgoing == 0 && boxes == map[]
      ensures members == map[founder := Member(now, funding, None)]
    {
      this.terms := terms;
      balance := funding;
      incoming := funding;
      outgoing := 0;
      members := map[founder := Member(now, funding, None)];
      boxes := map[];
    }

    method FundTreasury(amount: int)
      requires Valid()
      modifies this
      ensures Valid() && Step(old(Value()), Fund(amount), Value())
      ensures balance == old(balance) + amount && incoming == old(incoming) + amount && outgoing == old(outgoing)
      ensures members == old(members) && boxes == old(boxes)
    {
      balance := balance + amount;
      incoming := incoming + amount;
    }

    method RebalanceMembers()
      requires Valid()
      modifies this`members
      ensures Valid() && Rebalanced(old(members), members, boxes, terms.capacity)
    {
      hide Slot, StringLeq, Sorted, AssignedInOrder, SamePeople;
      var boxOrder := SortByTime(boxes);
      if boxOrder == [] {
        assert forall b :: b in boxes ==> b in boxOrder;
        assert boxes == map[];
        return;
      }
      assert boxOrder[0] in boxOrder;
      var agents := SortByTime(JoinTimes(members));
      ghost var before := members;
      assert agents != [] ==> agents[0] in agents;
      assert forall a :: a in agents <==> a in members;
      assert AssignedInOrder(members, boxOrder, agents[..0], terms.capacity) && SamePeople(before, members) by {
        NobodyMovedYet(members, boxOrder, terms.capacity);
        assert agents[..0] == [];
      }
      for i := 0 to |agents|
        invariant SamePeople(before, members) && forall a :: a in agents ==> a in members
        invariant AssignedInOrder(members, boxOrder, agents[..i], terms.capacity)
      {
        AssignNext(before, members, boxOrder, agents, i, terms.capacity);
        var id := agents[i];
        members := members[id := members[id].(home := Some(boxOrder[Slot(i, terms.capacity, |boxOrder|)]))];
      }
      assert agents[..|agents|] == agents;
      SamePeopleSameTimes(before, members);
      assert HousedBy(members, boxes, boxOrder, agents, terms.capacity);
    }

    method BuySeedbox(provider: Provider, hostname: Option<string>, cost: Option<int>, createdAt: string)
      returns (outcome: Outcome)
      requires Valid()
      modifies this
      ensures Valid() && Step(old(Value()), Buy(provider, hostname, cost, createdAt), Value())
      ensures var price := if cost.Some? then cost.value else terms.threshold;
              outcome == if old(balance) < price then NotEnoughFunds
                         else if provider.SporeStack? then LaunchDisabled
                         else if provider.Unlisted? then NoSuchProvider
                         else Done
      ensures outcome != Done ==> Value() == old(Value())
      ensures outcome == Done ==>
                var price := if cost.Some? then cost.value else terms.threshold;
                var host := if hostname.Some? && hostname.value != "" then hostname.value
                            else terms.communityId + "-seedbox-" + PrintNat(|old(boxes)| + 1);
                && balance == old(balance) - price && outgoing == old(outgoing) + price && incoming == old(incoming)
                && boxes == old(boxes)[BoxId(provider, host) := createdAt]
    {
      hide Rebalanced, PrintNat;
      var price := if cost.Some? then cost.value else terms.threshold;
      if balance < price {
        return NotEnoughFunds;
      }
      var number := |boxes| + 1;
      var named := hostname.Some? && hostname.value != "";
      var host := if named then hostname.value else DefaultHostname(terms.communityId, number);
      if provider.SporeStack? {
        return LaunchDisabled;
      }
      if provider.Unlisted? {
        return NoSuchProvider;
      }
      balance := balance - price;
      outgoing := outgoing + price;
      boxes := boxes[BoxId(provider, host) := createdAt];
      RebalanceMembers();
      outcome := Done;
    }

    method MaybeExpandSeedboxes(createdAt: string) returns (expanded: bool)
      requires Valid()
      modifies this
      ensures Valid() && Expanded(old(Value()), createdAt, Value())
      ensures expanded <==> |old(members)| > |old(boxes)| * terms.capacity && old(balance) >= terms.threshold
      ensures !expanded ==> Value() == old(Value())
      ensures SamePeople(old(members), members)
      ensures expanded ==>
                && balance == old(balance) - terms.threshold && outgoing == old(outgoing) + terms.threshold
                && incoming == old(incoming)
                && AddsNextTo(old(boxes), terms.communityId + "-seedbox-" + PrintNat(|old(boxes)| + 1), createdAt, boxes)
    {
      hide Need, IsExpansionProvider, AddsNextTo, ListsByTime, SamePeople, Provider.Launches;
      CoveredIff(Value());
      RebalancedKeepsPeople(members, members, map[], terms.capacity);
      var required := Value().Required();
      if required <= |boxes| {
        return false;
      }
      if balance < terms.threshold {
        return false;
      }
      var existing := SortByTime(boxes);
      OldestProvider(boxes, existing);
      var provider := if existing == [] then Local else existing[0].provider;
      ProviderAddsNextTo(boxes, provider, DefaultHostname(terms.communityId, |boxes| + 1), createdAt);
      var outcome := BuySeedbox(provider, None, None, createdAt);
      RebalancedKeepsPeople(old(members), members, boxes, terms.capacity);
      expanded := true;
    }

    method JoinCommunity(agent: string, amount: int, joinedAt: string, createdAt: string) returns (outcome: Outcome)
      requires Valid()
      modifies this
      ensures Valid() && Step(old(Value()), Join(agent, amount, joinedAt, createdAt), Value())
      ensures outcome == if amount < terms.joinFee then BelowJoinFee else Done
      ensures outcome == BelowJoinFee ==> Value() == old(Value())
      ensures outcome == Done ==>
                var heads := |old(members)| + if agent in old(members) then 0 else 1;
                var expands := heads > |old(boxes)| * terms.capacity && old(balance) + amount >= terms.threshold;
                var paid := if expands then terms.threshold else 0;
                && incoming == old(incoming) + amount
                && balance == old(balance) + amount - paid && outgoing == old(outgoing) + paid
                && members.Keys == old(members).Keys + {agent}
                && members[agent].joinedAt == joinedAt && members[agent].donated == amount
                && (if expands then
                      AddsNextTo(old(boxes), terms.communityId + "-seedbox-" + PrintNat(|old(boxes)| + 1), createdAt, boxes)
                    else boxes == old(boxes))
    {
      hide Rebalanced, DefaultHostname, Need, IsExpansionProvider, Expands, Bought, Expanded, AddsNextTo, SamePeople;
      if amount < terms.joinFee {
        return BelowJoinFee;
      }
      balance := balance + amount;
      incoming := incoming + amount;
      members := members[agent := Member(joinedAt, amount, None)];
      ghost var joined := members;
      RebalanceMembers();
      ghost var enrolled := Value();
      RebalancedKeepsPeople(joined, members, boxes, terms.capacity);
      JoinedCount(old(Value()), agent, Member(joinedAt, amount, None));
      assert Enrolled(old(Value()), agent, amount, joinedAt, enrolled);
      hide Enrolled;
      var expanded := MaybeExpandSeedboxes(createdAt);
      SamePeopleThroughout(joined, enrolled.members, members);
      MembersAfterJoin(old(members), agent, Member(joinedAt, amount, None), members);
      outcome := Done;
    }
  }
}
