/** The replicated community: admission policy, accepted records, and the replay of a view. */
module CommunityLedger {
  import opened Collections
  import opened Entries

  /** Amounts are satoshis; zero in the last three fields means "not declared". */
  datatype AdmissionPolicy = AdmissionPolicy(
    gatekeeperAddress: string,
    minSats: int,
    minConfirmations: int,
    bootstrapCapSats: int,
    maxAgentsPerSeedbox: int,
    seedboxCostSats: int)
  {
    function EffectiveBootstrapCap(): int {
      if bootstrapCapSats > 0 then bootstrapCapSats else 10 * minSats
    }

    predicate GrowthEnabled() {
      maxAgentsPerSeedbox > 0 && seedboxCostSats > 0
    }

    /** What manifest parsing guarantees of the policy. */
    ghost predicate Legal() {
      && 1 <= minSats
      && (bootstrapCapSats == 0 || minSats <= bootstrapCapSats)
      && 0 <= maxAgentsPerSeedbox
      && 0 <= seedboxCostSats
    }
  }

  /** The parts of a network manifest that replay reads. */
  datatype Network = Network(id: string, admission: AdmissionPolicy)

  datatype DonationRecord = DonationRecord(reporter: string, amount: int, timestamp: string, hash: string)

  datatype PurchaseRecord = PurchaseRecord(reporter: string, cost: int, timestamp: string, hash: string)

  datatype ProvisionRecord = ProvisionRecord(
    reporter: string, intentHash: string, url: string, pubkey: string, timestamp: string, hash: string)

  datatype CommunityState = CommunityState(
    members: set<string>,
    donations: seq<DonationRecord>,
    purchases: seq<PurchaseRecord>,
    provisioned: seq<ProvisionRecord>,
    balance: int,
    seedboxCount: int)
  {
    function PendingPurchases(): int {
      |purchases| - |provisioned|
    }

    predicate ThresholdActive(policy: AdmissionPolicy) {
      policy.GrowthEnabled() && |members| > policy.maxAgentsPerSeedbox * seedboxCount
    }
  }

  const EMPTY_COMMUNITY := CommunityState({}, [], [], [], 0, 1)

  function Total(ds: seq<DonationRecord>): int {
    if ds == [] then 0 else Total(ds[..|ds| - 1]) + ds[|ds| - 1].amount
  }

  /** The most a newcomer may give: the declared cap for the first donor, then the floor mean. */
  function DonationCap(policy: AdmissionPolicy, prior: seq<DonationRecord>): int {
    if prior == [] then policy.EffectiveBootstrapCap()
    else Max(policy.minSats, Total(prior) / |prior|)
  }

  // -------------------------------------------------------------------------
  // Per-entry validators
  // -------------------------------------------------------------------------

  function ValidateDonation(policy: AdmissionPolicy, members: set<string>, prior: seq<DonationRecord>, e: Entry):
    Option<DonationRecord>
    requires e.payload.Donation?
  {
    if e.reporter == "" || e.reporter in members then None
    else
      match e.payload.amount
      case None => None
      case Some(amount) =>
        if amount < policy.minSats then None
        else if amount > DonationCap(policy, prior) then None
        else Some(DonationRecord(e.reporter, amount, e.timestamp, e.hash))
  }

  function ValidatePurchase(
    policy: AdmissionPolicy, members: set<string>, balance: int, seedboxCount: int, pending: int, e: Entry):
    Option<PurchaseRecord>
    requires e.payload.Purchase?
  {
    if !policy.GrowthEnabled() then None
    else if e.reporter !in members then None
    else
      match e.payload.cost
      case None => None
      case Some(cost) =>
        if cost != policy.seedboxCostSats then None
        else if balance < cost then None
        else if |members| <= policy.maxAgentsPerSeedbox * seedboxCount then None
        else if pending != 0 then None
        else Some(PurchaseRecord(e.reporter, cost, e.timestamp, e.hash))
  }

  function ValidateProvision(
    members: set<string>, purchases: seq<PurchaseRecord>, provisioned: seq<ProvisionRecord>, e: Entry):
    Option<ProvisionRecord>
    requires e.payload.Provision?
  {
    var Provision(intentHash, url, pubkey) := e.payload;
    if e.reporter !in members then None
    else if intentHash == "" then None
    else if forall p | p in purchases :: p.hash != intentHash then None
    else if exists v | v in provisioned :: v.intentHash == intentHash then None
    else if url == "" || pubkey == "" then None
    else Some(ProvisionRecord(e.reporter, intentHash, url, pubkey, e.timestamp, e.hash))
  }

  // -------------------------------------------------------------------------
  // One step and the fold, as functions
  // -------------------------------------------------------------------------

  function Step(net: Network, s: CommunityState, e: Entry): CommunityState {
    if e.network != net.id then s
    else
      match e.payload
      case Donation(_) => (
        match ValidateDonation(net.admission, s.members, s.donations, e)
        case None => s
        case Some(d) =>
          s.(members := s.members + {d.reporter}, donations := s.donations + [d], balance := s.balance + d.amount))
      case Purchase(_) => (
        match ValidatePurchase(net.admission, s.members, s.balance, s.seedboxCount, s.PendingPurchases(), e)
        case None => s
        case Some(p) => s.(purchases := s.purchases + [p], balance := s.balance - p.cost))
      case Provision(_, _, _) => (
        match ValidateProvision(s.members, s.purchases, s.provisioned, e)
        case None => s
        case Some(v) => s.(provisioned := s.provisioned + [v], seedboxCount := s.seedboxCount + 1))
      case Other => s
  }

  function Fold(net: Network, start: CommunityState, es: seq<Entry>): CommunityState {
    if es == [] then start
    else Step(net, Fold(net, start, es[..|es| - 1]), es[|es| - 1])
  }

  lemma {:induction false} FoldConcat(net: Network, start: CommunityState, a: seq<Entry>, b: seq<Entry>)
    ensures Fold(net, start, a + b) == Fold(net, Fold(net, start, a), b)
  {
    if b == [] {
      assert a + b == a;
    } else {
      assert (a + b)[..|a + b| - 1] == a + b[..|b| - 1];
      FoldConcat(net, start, a, b[..|b| - 1]);
    }
  }

  function Relevant(es: seq<Entry>): (rs: seq<Entry>)
    ensures forall e :: e in rs <==> e in es && !e.payload.Other?
  {
    if es == [] then []
    else Relevant(es[..|es| - 1]) + (if es[|es| - 1].payload.Other? then [] else [es[|es| - 1]])
  }

  lemma {:induction false} RelevantConcat(a: seq<Entry>, b: seq<Entry>)
    ensures Relevant(a + b) == Relevant(a) + Relevant(b)
  {
    if b == [] {
      assert a + b == a;
    } else {
      assert (a + b)[..|a + b| - 1] == a + b[..|b| - 1];
      RelevantConcat(a, b[..|b| - 1]);
    }
  }

  /** The specification of replay: filter, sort, fold. */
  function Replay(net: Network, es: seq<Entry>): CommunityState {
    Fold(net, EMPTY_COMMUNITY, SortEntries(Relevant(es)))
  }

  // -------------------------------------------------------------------------
  // replay_community, in the imperative form it is written in
  // -------------------------------------------------------------------------

  method ReplayCommunity(net: Network, entries: seq<Entry>) returns (state: CommunityState)
    ensures state == Replay(net, entries)
    ensures entries == [] ==> state == CommunityState({}, [], [], [], 0, 1)
  {
    var ordered := SortEntries(Relevant(entries));

    var members := {};
    var donations := [];
    var purchases := [];
    var provisioned := [];
    var balance := 0;
    var seedboxCount := 1;
    for i := 0 to |ordered|
      invariant CommunityState(members, donations, purchases, provisioned, balance, seedboxCount)
             == Fold(net, EMPTY_COMMUNITY, ordered[..i])
    {
      var e := ordered[i];
      assert ordered[..i + 1][..i] == ordered[..i];
      if e.network != net.id {
        continue;
      }
      match e.payload
      case Donation(_) =>
        var accepted := ValidateDonation(net.admission, members, donations, e);
        if accepted.Some? {
          members := members + {accepted.value.reporter};
          donations := donations + [accepted.value];
          balance := balance + accepted.value.amount;
        }
      case Purchase(_) =>
        var pending := |purchases| - |provisioned|;
        var accepted := ValidatePurchase(net.admission, members, balance, seedboxCount, pending, e);
        if accepted.Some? {
          purchases := purchases + [accepted.value];
          balance := balance - accepted.value.cost;
        }
      case Provision(_, _, _) =>
        var accepted := ValidateProvision(members, purchases, provisioned, e);
        if accepted.Some? {
          provisioned := provisioned + [accepted.value];
          seedboxCount := seedboxCount + 1;
        }
      case Other =>
    }
    assert ordered[..|ordered|] == ordered;
    state := CommunityState(members, donations, purchases, provisioned, balance, seedboxCount);
  }
}
