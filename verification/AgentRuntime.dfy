/** One agent's runtime: the memoised community state, the join gate, and the tools' local pre-checks. */
module AgentRuntime {
  import opened Collections
  import opened Entries
  import opened CommunityLedger
  import opened LedgerInvariants
  import opened ReplayOrder
  import opened SignedLogs
  import opened PeerLogs
  import opened PullSync

  // -------------------------------------------------------------------------
  // Views and the memo key
  // -------------------------------------------------------------------------

  /** `es` lists the own log and every cached entry, in some order. */
  ghost predicate IsListing(es: seq<Entry>, own: seq<Entry>, files: Files) {
    forall e :: e in es <==> e in own || exists s :: s in files && e in files[s]
  }

  /** The state a fresh replay of this view computes, whatever order its files are read in. */
  ghost predicate IsFreshReplay(state: CommunityState, net: Network, own: seq<Entry>, files: Files) {
    forall es :: IsListing(es, own, files) ==> state == Replay(net, es)
  }

  /** The own head and the tail of every peer file; the manifest is not part of it. */
  datatype MemoKey = MemoKey(ownHead: string, peerHeads: map<string, Option<string>>)

  datatype Memo = Memo(key: MemoKey, state: CommunityState)

  ghost function KeyOf(own: seq<Entry>, files: Files): MemoKey {
    MemoKey(Head(own), map s | s in files :: TailOf(files[s]))
  }

  function TailOf(file: seq<Entry>): Option<string> {
    if file == [] then None else Some(Head(file))
  }

  /** Own logs and peer files in which heads mean something. */
  ghost predicate WellFormedView(gate: Gate, own: seq<Entry>, files: Files) {
    && gate.Sound()
    && Chain(own)
    && (forall e :: e in own ==> gate.verify(e))
    && WellKept(gate, files)
  }

  /** The memo was a fresh replay, under `net`, of an earlier state of this very view. */
  ghost predicate MemoSound(memo: Option<Memo>, net: Option<Network>, gate: Gate, own: seq<Entry>, files: Files) {
    memo.Some? ==> net.Some? && exists own0, files0 ::
      && own0 <= own && Grown(files0, files)
      && WellFormedView(gate, own0, files0)
      && memo.value.key == KeyOf(own0, files0)
      && IsFreshReplay(memo.value.state, net.value, own0, files0)
  }

  /** Equal heads of an append-only, duplicate-free view mean equal contents. */
  lemma EqualKeysEqualViews(gate: Gate, own0: seq<Entry>, files0: Files, own: seq<Entry>, files: Files)
    requires WellFormedView(gate, own, files) && WellFormedView(gate, own0, files0)
    requires own0 <= own && Grown(files0, files) && KeyOf(own0, files0) == KeyOf(own, files)
    ensures own0 == own && files0 == files
  {
    hide Chain, DistinctHashes, Gate.Sound;
    PrefixWithSameHead(own0, own);
    var heads0, heads := KeyOf(own0, files0).peerHeads, KeyOf(own, files).peerHeads;
    assert files0.Keys == heads0.Keys == heads.Keys == files.Keys;
    forall s | s in files ensures files0[s] == files[s] {
      assert heads0[s] == heads[s];
      FileIsChain(gate, files, s);
      PrefixWithSameHead(files0[s], files[s]);
    }
  }

  lemma FileIsChain(gate: Gate, files: Files, s: string)
    requires gate.Sound() && WellKept(gate, files) && s in files
    ensures Chain(files[s])
  {
  }

  lemma MemoSurvivesGrowth(
    memo: Option<Memo>, net: Option<Network>, gate: Gate, own: seq<Entry>, files: Files, own': seq<Entry>, files': Files)
    requires MemoSound(memo, net, gate, own, files) && own <= own' && Grown(files, files')
    ensures MemoSound(memo, net, gate, own', files')
  {
    if memo.Some? {
      var own0, files0 :| own0 <= own && Grown(files0, files) && WellFormedView(gate, own0, files0)
        && memo.value.key == KeyOf(own0, files0) && IsFreshReplay(memo.value.state, net.value, own0, files0);
      GrownTransitive(files0, files, files');
      assert own0 <= own';
    }
  }

  /** The memoised answer is exactly a fresh replay of the current view, under the memo's manifest. */
  lemma MemoHitIsFresh(memo: Option<Memo>, net: Option<Network>, gate: Gate, own: seq<Entry>, files: Files)
    requires WellFormedView(gate, own, files) && MemoSound(memo, net, gate, own, files)
    requires memo.Some? && memo.value.key == KeyOf(own, files)
    ensures IsFreshReplay(memo.value.state, net.value, own, files)
  {
    var own0, files0 :| own0 <= own && Grown(files0, files) && WellFormedView(gate, own0, files0)
      && memo.value.key == KeyOf(own0, files0) && IsFreshReplay(memo.value.state, net.value, own0, files0);
    EqualKeysEqualViews(gate, own0, files0, own, files);
  }

  lemma ListingKeysIdentify(gate: Gate, own: seq<Entry>, files: Files, es: seq<Entry>)
    requires WellFormedView(gate, own, files) && IsListing(es, own, files)
    ensures KeysIdentify(Relevant(es))
  {
    assert forall e :: e in es ==> gate.verify(e);
  }

  lemma AnyListingIsFresh(net: Network, gate: Gate, own: seq<Entry>, files: Files, es: seq<Entry>)
    requires WellFormedView(gate, own, files) && IsListing(es, own, files)
    ensures IsFreshReplay(Replay(net, es), net, own, files)
  {
    ListingKeysIdentify(gate, own, files, es);
    forall fs | IsListing(fs, own, files) ensures Replay(net, fs) == Replay(net, es) {
      ReplayDependsOnlyOnTheSet(net, es, fs);
    }
  }

  /**
   * After a different manifest is loaded the memo still answers for the old one.  That stale answer
   * is right exactly when nothing in view could open a community of either network.
   */
  lemma StaleMemoRightIff(old': Network, net: Network, gate: Gate, own: seq<Entry>, files: Files, es: seq<Entry>)
    requires old'.id != net.id && WellFormedView(gate, own, files) && IsListing(es, own, files)
    ensures IsFreshReplay(Replay(old', es), net, own, files) <==>
              forall e :: e in es ==> !Opens(old', e) && !Opens(net, e)
  {
    ListingKeysIdentify(gate, own, files, es);
    AnyListingIsFresh(net, gate, own, files, es);
    NetworksAgreeIffEmpty(old', net, es);
  }

  const WITNESS_POLICY := AdmissionPolicy("", 1, 0, 0, 0, 0)
  const WITNESS_ENTRY := Entry("t", "a", "h", "first", Donation(Some(1)))

  predicate IsWitness(e: Entry) {
    e == WITNESS_ENTRY
  }

  lemma WitnessView(own: seq<Entry>)
    requires own == [WITNESS_ENTRY]
    ensures WellFormedView(Gate(Some("a"), IsWitness), own, map[]) && IsListing(own, own, map[])
    ensures Opens(Network("first", WITNESS_POLICY), WITNESS_ENTRY) && own <= own && Grown(map[], map[])
  {
    assert Network("first", WITNESS_POLICY).admission.EffectiveBootstrapCap() == 10;
  }

  /** A concrete stale answer: one donation, asked about under its network and then under another. */
  lemma StaleMemoWitness() returns (old': Network, net: Network, gate: Gate, own: seq<Entry>, memo: Memo)
    ensures old'.admission.Legal() && net.admission.Legal() && WellFormedView(gate, own, map[])
    ensures MemoSound(Some(memo), Some(old'), gate, own, map[]) && memo.key == KeyOf(own, map[])
    ensures !IsFreshReplay(memo.state, net, own, map[])
  {
    old', net := Network("first", WITNESS_POLICY), Network("second", WITNESS_POLICY);
    gate, own := Gate(Some("a"), IsWitness), [WITNESS_ENTRY];
    memo := Memo(KeyOf(own, map[]), Replay(old', own));
    WitnessView(own);
    hide WellFormedView, IsFreshReplay, IsListing, KeyOf, Replay, Opens, Grown;
    AnyListingIsFresh(old', gate, own, map[], own);
    StaleMemoRightIff(old', net, gate, own, map[], own);
    assert WITNESS_ENTRY in own;
  }

  // -------------------------------------------------------------------------
  // Any interleaving of appends, deposits and questions
  // -------------------------------------------------------------------------

  datatype View = View(own: seq<Entry>, files: Files, memo: Option<Memo>)

  datatype Operation =
    | WriteOwn(entry: Entry)
    | PullDeposits(head: Option<string>, answer: Answer, last: Option<string>, batch: int)
    | JoinDeposit(entry: Entry)
      // `listing` is the order in which the logs happen to be merged on a miss.
    | Ask(listing: seq<Entry>)

  ghost predicate Hit(v: View) {
    v.memo.Some? && v.memo.value.key == KeyOf(v.own, v.files)
  }

  /** What `community_state()` answers. */
  ghost function AnswerOf(net: Network, v: View, listing: seq<Entry>): CommunityState {
    if Hit(v) then v.memo.value.state else Replay(net, listing)
  }

  ghost function Operate(gate: Gate, net: Network, v: View, op: Operation): View {
    match op
    case WriteOwn(e) => v.(own := v.own + [e])
    case PullDeposits(head, answer, last, batch) => v.(files := Pull(gate, v.files, head, answer, last, batch).1)
    case JoinDeposit(e) => v.(files := Accept(gate, v.files, e).0)
    case Ask(listing) => v.(memo := Some(Memo(KeyOf(v.own, v.files), AnswerOf(net, v, listing))))
  }

  /** What each operation does; a question is answered from the memo exactly on a hit, and remembered. */
  lemma OperationEffects(gate: Gate, net: Network, v: View, ops: seq<Operation>, op: Operation)
    ensures OperateAll(gate, net, v, []) == v
    ensures OperateAll(gate, net, v, ops + [op]) == Operate(gate, net, OperateAll(gate, net, v, ops), op)
    ensures op.WriteOwn? ==> Operate(gate, net, v, op) == View(v.own + [op.entry], v.files, v.memo)
    ensures op.PullDeposits? ==>
              Operate(gate, net, v, op)
              == View(v.own, Pull(gate, v.files, op.head, op.answer, op.last, op.batch).1, v.memo)
    ensures op.JoinDeposit? ==> Operate(gate, net, v, op) == View(v.own, Accept(gate, v.files, op.entry).0, v.memo)
    ensures op.Ask? && v.memo.Some? && v.memo.value.key == KeyOf(v.own, v.files) ==> Operate(gate, net, v, op) == v
    ensures op.Ask? && !(v.memo.Some? && v.memo.value.key == KeyOf(v.own, v.files)) ==>
              Operate(gate, net, v, op) == View(v.own, v.files, Some(Memo(KeyOf(v.own, v.files), Replay(net, op.listing))))
  {
    assert (ops + [op])[..|ops|] == ops;
    hide Pull, Accept, KeyOf, Replay;
  }

  ghost predicate Possible(gate: Gate, v: View, op: Operation) {
    match op
    case WriteOwn(e) => gate.verify(e) && forall x :: x in v.own ==> x.hash != e.hash
    case Ask(listing) => IsListing(listing, v.own, v.files)
    case _ => true
  }

  ghost function OperateAll(gate: Gate, net: Network, v: View, ops: seq<Operation>): View
    decreases |ops|
  {
    if ops == [] then v else Operate(gate, net, OperateAll(gate, net, v, ops[..|ops| - 1]), ops[|ops| - 1])
  }

  ghost predicate AllPossible(gate: Gate, net: Network, v: View, ops: seq<Operation>)
    decreases |ops|
  {
    ops != [] ==>
      && AllPossible(gate, net, v, ops[..|ops| - 1])
      && Possible(gate, OperateAll(gate, net, v, ops[..|ops| - 1]), ops[|ops| - 1])
  }

  ghost predicate Remembers(gate: Gate, net: Network, v: View) {
    WellFormedView(gate, v.own, v.files) && MemoSound(v.memo, Some(net), gate, v.own, v.files)
  }

  lemma NewMemoSound(gate: Gate, net: Network, v: View, listing: seq<Entry>)
    requires Remembers(gate, net, v) && IsListing(listing, v.own, v.files)
    ensures IsFreshReplay(AnswerOf(net, v, listing), net, v.own, v.files)
    ensures Remembers(gate, net, Operate(gate, net, v, Ask(listing)))
  {
    hide IsFreshReplay, IsListing, KeyOf, WellFormedView;
    if Hit(v) {
      MemoHitIsFresh(v.memo, Some(net), gate, v.own, v.files);
    } else {
      AnyListingIsFresh(net, gate, v.own, v.files, listing);
    }
    assert v.own <= v.own && Grown(v.files, v.files);
  }

  lemma GrowthKeepsMemory(gate: Gate, net: Network, v: View, own: seq<Entry>, files: Files)
    requires Remembers(gate, net, v) && v.own <= own && Grown(v.files, files) && WellFormedView(gate, own, files)
    ensures Remembers(gate, net, v.(own := own, files := files))
  {
    MemoSurvivesGrowth(v.memo, Some(net), gate, v.own, v.files, own, files);
  }

  lemma OperateKeepsMemory(gate: Gate, net: Network, v: View, op: Operation)
    requires Remembers(gate, net, v) && Possible(gate, v, op)
    ensures Remembers(gate, net, Operate(gate, net, v, op))
  {
    hide MemoSound, WellKept, Accept, Pull, Grown;
    match op
    case WriteOwn(e) =>
      LongerChain(gate, v.own, e);
      GrownItself(v.files);
      GrowthKeepsMemory(gate, net, v, v.own + [e], v.files);
    case PullDeposits(head, answer, last, batch) =>
      PullKeepsFiles(gate, v.files, head, answer, last, batch);
      GrowthKeepsMemory(gate, net, v, v.own, Pull(gate, v.files, head, answer, last, batch).1);
    case JoinDeposit(e) =>
      AcceptKeepsFiles(gate, v.files, e);
      GrowthKeepsMemory(gate, net, v, v.own, Accept(gate, v.files, e).0);
    case Ask(listing) =>
      NewMemoSound(gate, net, v, listing);
  }

  lemma GrownItself(files: Files)
    ensures Grown(files, files)
  {
  }

  lemma LongerChain(gate: Gate, own: seq<Entry>, e: Entry)
    requires gate.Sound() && Chain(own) && (forall x :: x in own ==> gate.verify(x) && x.hash != e.hash) && gate.verify(e)
    ensures Chain(own + [e]) && forall x :: x in own + [e] ==> gate.verify(x)
  {
    forall i, j | 0 <= i < j < |own + [e]| ensures (own + [e])[i].hash != (own + [e])[j].hash {
      assert own[i] in own;
    }
  }

  lemma PullKeepsFiles(gate: Gate, files: Files, head: Option<string>, answer: Answer, last: Option<string>, batch: int)
    requires WellKept(gate, files)
    ensures var after := Pull(gate, files, head, answer, last, batch).1; WellKept(gate, after) && Grown(files, after)
  {
    GrownItself(files);
    if head.Some? && Fetch(answer, OrGenesis(last), batch).Some? {
      AbsorbTakesAcceptablePrefix(gate, files, Fetch(answer, OrGenesis(last), batch).value, last, 0);
    }
    hide WellKept, Grown, Absorb, Fetch;
  }

  /**
   * Memo refinement.  Under one manifest, after any interleaving of own appends, pulls, join deposits
   * and earlier questions, the memoised state answers exactly as a fresh replay of the view would.
   */
  lemma {:induction false} EveryAnswerIsFresh(
    gate: Gate, net: Network, v: View, ops: seq<Operation>, listing: seq<Entry>)
    requires WellFormedView(gate, v.own, v.files) && v.memo.None? && AllPossible(gate, net, v, ops)
    requires var u := OperateAll(gate, net, v, ops); IsListing(listing, u.own, u.files)
    ensures var u := OperateAll(gate, net, v, ops);
            IsFreshReplay(AnswerOf(net, u, listing), net, u.own, u.files)
  {
    OperationsKeepMemory(gate, net, v, ops);
    NewMemoSound(gate, net, OperateAll(gate, net, v, ops), listing);
  }

  lemma {:induction false} OperationsKeepMemory(gate: Gate, net: Network, v: View, ops: seq<Operation>)
    requires Remembers(gate, net, v) && AllPossible(gate, net, v, ops)
    ensures Remembers(gate, net, OperateAll(gate, net, v, ops))
    decreases |ops|
  {
    hide Remembers, Operate, Possible;
    if ops != [] {
      OperationsKeepMemory(gate, net, v, ops[..|ops| - 1]);
      OperateKeepsMemory(gate, net, OperateAll(gate, net, v, ops[..|ops| - 1]), ops[|ops| - 1]);
    }
  }

  // -------------------------------------------------------------------------
  // The tools' pre-checks, against the authoritative replay
  // -------------------------------------------------------------------------

  datatype Refusal =
    | NoManifest | BadAmount | AlreadyAdmitted | BelowMinimum | AboveCap | WalletRefused
    | GrowthDisabled | NotAdmitted | WrongCost | InsufficientTreasury | BelowThreshold | PurchaseInFlight
    | MissingField | NoMatchingIntent | AlreadyClosed

  function DonateCheck(net: Network, s: CommunityState, me: string, amount: int): Option<Refusal> {
    if amount < 1 then Some(BadAmount)
    else if me in s.members then Some(AlreadyAdmitted)
    else if amount < net.admission.minSats then Some(BelowMinimum)
    else if amount > DonationCap(net.admission, s.donations) then Some(AboveCap)
    else None
  }

  function PurchaseCheck(net: Network, s: CommunityState, me: string, cost: int): Option<Refusal> {
    if !net.admission.GrowthEnabled() then Some(GrowthDisabled)
    else if me !in s.members then Some(NotAdmitted)
    else if cost < 1 then Some(BadAmount)
    else if cost != net.admission.seedboxCostSats then Some(WrongCost)
    else if s.balance < cost then Some(InsufficientTreasury)
    else if !s.ThresholdActive(net.admission) then Some(BelowThreshold)
    else if s.PendingPurchases() != 0 then Some(PurchaseInFlight)
    else None
  }

  function ProvisionCheck(s: CommunityState, me: string, intentHash: string, url: string, pubkey: string): Option<Refusal> {
    if me !in s.members then Some(NotAdmitted)
    else if intentHash == "" || url == "" || pubkey == "" then Some(MissingField)
    else if forall p | p in s.purchases :: p.hash != intentHash then Some(NoMatchingIntent)
    else if exists v | v in s.provisioned :: v.intentHash == intentHash then Some(AlreadyClosed)
    else None
  }

  /** The tool that would write this entry passes its guards. */
  function ToolCheck(net: Network, s: CommunityState, me: string, payload: Payload): (refusal: Option<Refusal>)
    ensures refusal != Some(WalletRefused)
  {
    match payload
    case Donation(Some(amount)) => DonateCheck(net, s, me, amount)
    case Purchase(Some(cost)) => PurchaseCheck(net, s, me, cost)
    case Provision(h, url, pubkey) => ProvisionCheck(s, me, h, url, pubkey)
    case _ => Some(MissingField)
  }

  lemma GuardsAllowPositive(net: Network, s: CommunityState, me: string, payload: Payload)
    ensures ToolCheck(net, s, me, payload).None? && payload.Donation? ==>
              payload.amount.Some? && 1 <= payload.amount.value
  {
  }

  /** Which guard of the donating tool speaks first, for every state and amount. */
  lemma DonateRefusals(net: Network, s: CommunityState, me: string, amount: int)
    ensures var cap := if s.donations == [] then
                         (if net.admission.bootstrapCapSats > 0 then net.admission.bootstrapCapSats
                          else 10 * net.admission.minSats)
                       else if Total(s.donations) / |s.donations| > net.admission.minSats then
                         Total(s.donations) / |s.donations|
                       else net.admission.minSats;
            var refusal := DonateCheck(net, s, me, amount);
            && (refusal == Some(BadAmount) <==> amount <= 0)
            && (refusal == Some(AlreadyAdmitted) <==> 0 < amount && me in s.members)
            && (refusal == Some(BelowMinimum) <==> 0 < amount < net.admission.minSats && me !in s.members)
            && (refusal == Some(AboveCap) <==>
                  0 < amount && net.admission.minSats <= amount && cap < amount && me !in s.members)
            && (refusal == None <==> 0 < amount && net.admission.minSats <= amount <= cap && me !in s.members)
  {
  }

  /** Which guard of the purchasing tool speaks first: the refusals in their order, each with what was all right before it. */
  lemma PurchaseRefusals(net: Network, s: CommunityState, me: string, cost: int)
    ensures var p, refusal := net.admission, PurchaseCheck(net, s, me, cost);
            var enabled := p.maxAgentsPerSeedbox > 0 && p.seedboxCostSats > 0;
            var priced := enabled && me in s.members && cost == p.seedboxCostSats;
            var active := priced && s.balance >= cost && |s.members| > p.maxAgentsPerSeedbox * s.seedboxCount;
            && (refusal == Some(GrowthDisabled) <==> !enabled)
            && (refusal == Some(NotAdmitted) <==> enabled && me !in s.members)
            && (refusal == Some(BadAmount) <==> enabled && me in s.members && cost <= 0)
            && (refusal == Some(WrongCost) <==> enabled && me in s.members && 0 < cost != p.seedboxCostSats)
            && (refusal == Some(InsufficientTreasury) <==> priced && s.balance < cost)
            && (refusal == Some(BelowThreshold) <==>
                  priced && s.balance >= cost && |s.members| <= p.maxAgentsPerSeedbox * s.seedboxCount)
            && (refusal == Some(PurchaseInFlight) <==> active && |s.purchases| != |s.provisioned|)
            && (refusal == None <==> active && |s.purchases| == |s.provisioned|)
  {
  }

  /** Which guard of the provisioning tool speaks first. */
  lemma ProvisionRefusals(s: CommunityState, me: string, intentHash: string, url: string, pubkey: string)
    ensures var refusal := ProvisionCheck(s, me, intentHash, url, pubkey);
            var filled := me in s.members && intentHash != "" && url != "" && pubkey != "";
            var intended := exists p :: p in s.purchases && p.hash == intentHash;
            var closed := exists v :: v in s.provisioned && v.intentHash == intentHash;
            && (refusal == Some(NotAdmitted) <==> me !in s.members)
            && (refusal == Some(MissingField) <==> me in s.members && (intentHash == "" || url == "" || pubkey == ""))
            && (refusal == Some(NoMatchingIntent) <==> filled && !intended)
            && (refusal == Some(AlreadyClosed) <==> filled && intended && closed)
            && (refusal == None <==> filled && intended && !closed)
  {
  }

  /**
   * Pre-check equivalence.  For an entry of ours that sorts after everything in view, the tool's
   * guards pass iff replay of the extended view accepts the entry; and the extended view keeps
   * every record the old one had accepted, as prefixes.
   */
  lemma PreCheckIff(net: Network, view: seq<Entry>, e: Entry)
    requires net.admission.Legal() && e.network == net.id && e.reporter != "" && AllBefore(view, [e])
    ensures ToolCheck(net, Replay(net, view), e.reporter, e.payload).None? <==> Replay(net, view + [e]) != Replay(net, view)
    ensures var s, t := Replay(net, view), Replay(net, view + [e]);
            s.donations <= t.donations && s.purchases <= t.purchases && s.provisioned <= t.provisioned
  {
    LaterEntryExtends(net, view, e);
    ToolCheckMatchesStep(net, Replay(net, view), e);
    RunOnlyExtends(net, Replay(net, view), [e]);
    assert Fold(net, Replay(net, view), [e]) == Step(net, Fold(net, Replay(net, view), [e][..0]), e);
  }

  lemma ToolCheckMatchesStep(net: Network, s: CommunityState, e: Entry)
    requires net.admission.Legal() && e.network == net.id && e.reporter != ""
    ensures ToolCheck(net, s, e.reporter, e.payload).None? <==> Step(net, s, e) != s
  {
    var t := Step(net, s, e);
    match e.payload
    case Donation(amount) =>
      assert t == s || |t.donations| == |s.donations| + 1;
      assert ValidateDonation(net.admission, s.members, s.donations, e).Some? <==> t != s;
    case Purchase(cost) =>
      assert t == s || |t.purchases| == |s.purchases| + 1;
      assert ValidatePurchase(net.admission, s.members, s.balance, s.seedboxCount, s.PendingPurchases(), e).Some?
             <==> t != s;
    case Provision(_, _, _) =>
      assert t == s || |t.provisioned| == |s.provisioned| + 1;
      assert ValidateProvision(s.members, s.purchases, s.provisioned, e).Some? <==> t != s;
    case Other =>
  }

  // -------------------------------------------------------------------------
  // The agent
  // -------------------------------------------------------------------------

  class OpenClawAgent {
    const id: string
    const log: SignedLog
    const peerLog: PeerLog
    var manifest: Option<Network>
    var memo: Option<Memo>
    var walletStart: int
    var walletSpent: int
    /** The manifest the memo was computed under; the code does not remember it. */
    ghost var memoNet: Option<Network>

    ghost predicate Valid()
      reads this, log, peerLog
    {
      && id != ""
      && log.Valid() && peerLog.Valid() && peerLog.gate.own == Some(id)
      && WellFormedView(peerLog.gate, log.entries, peerLog.files)
      && (forall e :: e in log.entries ==> e.reporter == id)
      && (manifest.Some? ==> manifest.value.admission.Legal())
      && MemoSound(memo, memoNet, peerLog.gate, log.entries, peerLog.files)
    }

    /** The memo, if there is one, answers for the loaded manifest. */
    ghost predicate MemoCurrent()
      reads this
    {
      memo.None? || memoNet == manifest
    }

    /** The next `community_state()` will be served from the memo. */
    ghost predicate MemoHit()
      reads this, log, peerLog
    {
      memo.Some? && memo.value.key == KeyOf(log.entries, peerLog.files)
    }

    constructor (id: string, log: SignedLog, peerLog: PeerLog, walletStart: int)
      requires id != "" && log.Valid() && peerLog.Valid() && peerLog.gate.own == Some(id)
      requires WellFormedView(peerLog.gate, log.entries, peerLog.files)
      requires forall e :: e in log.entries ==> e.reporter == id
      ensures Valid() && this.id == id && this.log == log && this.peerLog == peerLog && manifest.None? && memo.None?
      ensures this.walletStart == walletStart && walletSpent == 0
    {
      this.id := id;
      this.log := log;
      this.peerLog := peerLog;
      this.walletStart := walletStart;
      walletSpent := 0;
      manifest := None;
      memo := None;
      memoNet := None;
    }

    /** Loading the same network again changes nothing; a different one replaces the manifest, not the memo. */
    method LoadManifest(net: Network) returns (loaded: Network)
      requires Valid() && net.admission.Legal()
      modifies this`manifest
      ensures Valid()
      ensures manifest == if old(manifest).Some? && old(manifest).value.id == net.id then old(manifest) else Some(net)
      ensures manifest == Some(loaded)
    {
      if manifest.Some? && manifest.value.id == net.id {
        return manifest.value;
      }
      manifest := Some(net);
      loaded := net;
    }

    method AllCommunityEntries() returns (merged: seq<Entry>)
      requires Valid()
      ensures IsListing(merged, log.entries, peerLog.files)
    {
      merged := log.entries;
      var sources := peerLog.ListSources();
      for i := 0 to |sources|
        invariant forall e :: e in merged <==>
                    e in log.entries || exists s :: s in sources[..i] && e in FileOf(peerLog.files, s)
      {
        assert sources[..i + 1] == sources[..i] + [sources[i]];
        merged := merged + FileOf(peerLog.files, sources[i]);
      }
      assert sources[..|sources|] == sources;
    }

    method CurrentKey() returns (key: MemoKey)
      requires Valid()
      modifies peerLog`seen, peerLog`latest
      ensures Valid() && key == KeyOf(log.entries, peerLog.files)
    {
      hide MemoSound, WellKept, PeerLog.IsIndexOf, Gate.Sound, Chain;
      var ownHead := log.LatestHash();
      var sources := peerLog.ListSources();
      var heads := map[];
      for i := 0 to |sources|
        invariant peerLog.Valid()
        invariant heads.Keys == set s | s in sources[..i]
        invariant forall s :: s in heads ==> heads[s] == TailOf(FileOf(peerLog.files, s))
      {
        assert sources[..i + 1] == sources[..i] + [sources[i]];
        var tail := peerLog.LatestHashFor(sources[i]);
        heads := heads[sources[i] := tail];
      }
      assert sources[..|sources|] == sources;
      key := MemoKey(ownHead, heads);
      assert heads == KeyOf(log.entries, peerLog.files).peerHeads;
    }

    /**
     * Served from the memo or recomputed, the answer is exactly a fresh replay of the current view:
     * under the loaded manifest, or on a memo hit under the manifest the memo was computed with.
     */
    method CommunityState() returns (state: Option<CommunityState>)
      requires Valid()
      modifies this`memo, this`memoNet, peerLog`seen, peerLog`latest
      ensures Valid()
      ensures state.None? <==> manifest.None?
      ensures manifest.Some? ==> memoNet == if old(MemoHit()) then old(memoNet) else manifest
      ensures manifest.Some? ==> MemoHit() && IsFreshReplay(state.value, memoNet.value, log.entries, peerLog.files)
      ensures manifest.Some? ==> state.value == memo.value.state
      ensures manifest.Some? && old(MemoHit()) ==> memo == old(memo)
      ensures old(MemoCurrent()) ==> MemoCurrent()
    {
      if manifest.None? {
        return None;
      }
      var key := CurrentKey();
      if memo.Some? && memo.value.key == key {
        MemoHitIsFresh(memo, memoNet, peerLog.gate, log.entries, peerLog.files);
        return Some(memo.value.state);
      }
      var entries := AllCommunityEntries();
      var replayed := ReplayCommunity(manifest.value, entries);
      AnyListingIsFresh(manifest.value, peerLog.gate, log.entries, peerLog.files, entries);
      memo := Some(Memo(key, replayed));
      memoNet := manifest;
      state := Some(replayed);
    }

    /** One pull deposits into the shared cache; the memo stays sound. */
    method PullFromPeer(head: Option<string>, answer: Answer, last: Option<string>, batch: int) returns (result: PullResult)
      requires Valid()
      modifies peerLog
      ensures Valid() && Grown(old(peerLog.files), peerLog.files)
      ensures (result, peerLog.files) == Pull(peerLog.gate, old(peerLog.files), head, answer, last, batch)
    {
      ghost var before := peerLog.files;
      if head.Some? && Fetch(answer, OrGenesis(last), batch).Some? {
        AbsorbTakesAcceptablePrefix(peerLog.gate, before, Fetch(answer, OrGenesis(last), batch).value, last, 0);
      }
      result := PullOnce(peerLog, head, answer, last, batch);
      MemoSurvivesGrowth(memo, memoNet, peerLog.gate, log.entries, before, log.entries, peerLog.files);
    }

    /** The joiner's entry goes through the cache's gate; the memo stays sound. */
    method CacheJoin(e: Entry) returns (verdict: Verdict)
      requires Valid()
      modifies peerLog
      ensures Valid() && (peerLog.files, verdict) == Accept(peerLog.gate, old(peerLog.files), e)
    {
      ghost var before := peerLog.files;
      AcceptKeepsFiles(peerLog.gate, before, e);
      verdict := peerLog.AcceptEntry(e);
      hide MemoSound, Chain, Gate.Sound, PeerLog.IsIndexOf, WellKept, Grown, Accept;
      MemoSurvivesGrowth(memo, memoNet, peerLog.gate, log.entries, before, log.entries, peerLog.files);
    }

    /** What the cache's gate makes of a joiner's entry. */
    lemma DepositOutcome(e: Entry)
      requires Valid()
      ensures var (after, verdict) := Accept(peerLog.gate, peerLog.files, e);
              && Grown(peerLog.files, after)
              && (verdict.Rejected() <==> !peerLog.gate.Acceptable(e))
              && (peerLog.gate.Acceptable(e) <==> e.reporter != id && peerLog.gate.verify(e))
              && (peerLog.gate.Acceptable(e) ==> Holds(after, e))
    {
      AcceptKeepsFiles(peerLog.gate, peerLog.files, e);
    }

    /**
     * The gatekeeper's side of a join.  The entry enters the cache iff it is a donation that passes
     * the gate, and the joiner is accepted iff replaying the view it is now part of admits it.
     */
    method HandleCommunityJoin(e: Entry) returns (accepted: bool, reason: string)
      requires Valid()
      modifies this`memo, this`memoNet, peerLog
      ensures Valid()
      ensures reason == if manifest.None? then "no_manifest_loaded"
                        else if !e.payload.Donation? then "unsupported_action"
                        else if e.reporter == "" then "missing_reporter_id"
                        else if e.reporter == id || !peerLog.gate.verify(e) then "peer_log_rejected"
                        else if accepted then ""
                        else "rejected_by_community_rules"
      ensures var deposited := manifest.Some? && e.payload.Donation? && e.reporter != "";
              peerLog.files == if deposited then Accept(peerLog.gate, old(peerLog.files), e).0 else old(peerLog.files)
      ensures accepted ==> manifest.Some? && Holds(peerLog.files, e)
      ensures Grown(old(peerLog.files), peerLog.files)
      ensures old(MemoCurrent()) ==> MemoCurrent()
      ensures old(MemoCurrent()) ==>
                forall es :: IsListing(es, log.entries, peerLog.files) ==>
                  (accepted <==>
                     && manifest.Some? && e.payload.Donation? && e.reporter != "" && peerLog.gate.Acceptable(e)
                     && e.reporter in Replay(manifest.value, es).members)
    {
      hide Valid, MemoHit, Replay, IsListing, Grown, Accept, Holds, Gate.Acceptable;
      DepositOutcome(e);
      GrownItself(peerLog.files);
      if manifest.None? {
        return false, "no_manifest_loaded";
      }
      if !e.payload.Donation? {
        return false, "unsupported_action";
      }
      if e.reporter == "" {
        return false, "missing_reporter_id";
      }
      var verdict := CacheJoin(e);
      if verdict.Rejected() {
        return false, "peer_log_rejected";
      }
      var state := CommunityState();
      if e.reporter in state.value.members {
        return true, "";
      }
      return false, "rejected_by_community_rules";
    }

    /** What signing and hashing promise of an entry we are about to write. */
    ghost predicate Signable(e: Entry)
      reads log, peerLog
    {
      && e.reporter == id && peerLog.gate.verify(e)
      && forall x :: x in log.entries ==> x.hash != e.hash
    }

    method AppendOwn(e: Entry)
      requires Valid() && Signable(e)
      modifies log
      ensures Valid() && log.entries == old(log.entries) + [e]
    {
      ghost var before := log.entries;
      log.Append(e);
      MemoSurvivesGrowth(memo, memoNet, peerLog.gate, before, peerLog.files, log.entries, peerLog.files);
    }

    /** What the environment of a writing tool provides. */
    ghost predicate ReadyToWrite(payload: Payload, stamp: string, hash: string)
      reads this, log, peerLog
    {
      && Valid()
      && (manifest.Some? ==> Signable(Entry(stamp, id, hash, manifest.value.id, payload)))
    }

    /** For every listing of the view in which our entry would come last, replay accepts it iff `accepts`. */
    ghost predicate ReplayAgrees(own: seq<Entry>, e: Entry, accepts: bool)
      requires manifest.Some?
      reads this, peerLog
    {
      forall es :: IsListing(es, own, peerLog.files) && AllBefore(es, [e]) ==>
        (accepts <==> Replay(manifest.value, es + [e]) != Replay(manifest.value, es))
    }

    /** The tool asked for the community state: a fresh replay of the view it found, or its memo's. */
    ghost predicate Asked(own: seq<Entry>, hit: bool, hitNet: Option<Network>)
      reads this, peerLog
    {
      && memo.Some? && memoNet.Some?
      && memoNet == (if hit then hitNet else manifest)
      && IsFreshReplay(memo.value.state, memoNet.value, own, peerLog.files)
    }

    /** There is nobody to pay, or a tracked balance with less than the amount left. */
    ghost predicate Unaffordable(spent: int, amount: int)
      requires manifest.Some?
      reads this
    {
      manifest.value.admission.gatekeeperAddress == "" || (walletStart > 0 && amount > walletStart - spent)
    }

    /**
     * The shape the three writing tools share: refuse on the first failing guard, otherwise append
     * exactly one signed entry.  A donation also debits the wallet, only when it is written.
     */
    method WriteIfAllowed(payload: Payload, stamp: string, hash: string) returns (refusal: Option<Refusal>)
      requires ReadyToWrite(payload, stamp, hash) && manifest.Some?
      requires (payload.Donation? ==> payload.amount.Some?) && (payload.Purchase? ==> payload.cost.Some?)
      modifies this`memo, this`memoNet, this`walletSpent, log, peerLog`seen, peerLog`latest
      ensures Valid() && (old(MemoCurrent()) ==> MemoCurrent())
      ensures old(MemoCurrent()) ==>
                ReplayAgrees(old(log.entries), Entry(stamp, id, hash, manifest.value.id, payload),
                             refusal.None? || refusal == Some(WalletRefused))
      ensures Asked(old(log.entries), old(MemoHit()), old(memoNet))
      ensures refusal == var guard := ToolCheck(manifest.value, memo.value.state, id, payload);
                         if guard.Some? then guard
                         else if payload.Donation? && Unaffordable(old(walletSpent), payload.amount.value) then
                           Some(WalletRefused)
                         else None
      ensures refusal.Some? ==> log.entries == old(log.entries) && walletSpent == old(walletSpent)
      ensures refusal.None? ==>
                && log.entries == old(log.entries) + [Entry(stamp, id, hash, manifest.value.id, payload)]
                && walletSpent == old(walletSpent) + if payload.Donation? then payload.amount.value else 0
    {
      assert memo.Some? ==> memoNet.Some?;
      hide ToolCheck, AllBefore, Replay, IsListing, MemoSound, WellKept, Chain, Gate.Sound, KeyOf, PeerLog.IsIndexOf;
      ghost var e := Entry(stamp, id, hash, manifest.value.id, payload);
      var state := CommunityState();
      assert Asked(old(log.entries), old(MemoHit()), old(memoNet));
      hide IsFreshReplay;
      refusal := ToolCheck(manifest.value, state.value, id, payload);
      GuardsAllowPositive(manifest.value, state.value, id, payload);
      forall es | memoNet == manifest && IsListing(es, log.entries, peerLog.files) && AllBefore(es, [e])
        ensures refusal.None? <==> Replay(manifest.value, es + [e]) != Replay(manifest.value, es)
      {
        PreCheckIff(manifest.value, es, e);
      }
      if refusal.Some? {
        return;
      }
      if payload.Donation? {
        if !CanSpend(manifest.value.admission.gatekeeperAddress, walletStart, walletSpent, payload.amount.value) {
          return Some(WalletRefused);
        }
        walletSpent := walletSpent + payload.amount.value;
      }
      AppendOwn(Entry(stamp, id, hash, manifest.value.id, payload));
    }

    method CommunityDonateAndJoin(amount: int, stamp: string, hash: string) returns (refusal: Option<Refusal>)
      requires ReadyToWrite(Donation(Some(amount)), stamp, hash)
      modifies this`memo, this`memoNet, this`walletSpent, log, peerLog`seen, peerLog`latest
      ensures Valid() && (old(MemoCurrent()) ==> MemoCurrent())
      ensures manifest.None? ==> refusal == Some(NoManifest)
      ensures manifest.Some? && old(MemoCurrent()) ==>
                ReplayAgrees(old(log.entries), Entry(stamp, id, hash, manifest.value.id, Donation(Some(amount))),
                             refusal.None? || refusal == Some(WalletRefused))
      ensures manifest.Some? ==>
                && Asked(old(log.entries), old(MemoHit()), old(memoNet))
                && refusal == var guard := DonateCheck(manifest.value, memo.value.state, id, amount);
                              if guard.Some? then guard
                              else if manifest.value.admission.gatekeeperAddress == "" then Some(WalletRefused)
                              else if walletStart > 0 && amount > walletStart - old(walletSpent) then Some(WalletRefused)
                              else None
      ensures refusal.None? ==>
                && log.entries == old(log.entries) + [Entry(stamp, id, hash, manifest.value.id, Donation(Some(amount)))]
                && walletSpent == old(walletSpent) + amount
      ensures refusal.Some? ==> log.entries == old(log.entries) && walletSpent == old(walletSpent)
    {
      if manifest.None? {
        return Some(NoManifest);
      }
      refusal := WriteIfAllowed(Donation(Some(amount)), stamp, hash);
    }

    /**
     * Writing the entry is what joins; the message to the gatekeeper only asks for early news.  So the
     * entry is written and paid for unless a guard refuses, even if the peer is unknown or never answers.
     */
    method CommunityJoinViaPeer(amount: int, stamp: string, hash: string, wire: WireReply) returns (outcome: JoinOutcome)
      requires ReadyToWrite(Donation(Some(amount)), stamp, hash)
      modifies this`memo, this`memoNet, this`walletSpent, log, peerLog`seen, peerLog`latest
      ensures Valid() && (old(MemoCurrent()) ==> MemoCurrent())
      ensures outcome.NotWritten? ==> log.entries == old(log.entries) && walletSpent == old(walletSpent)
      ensures manifest.None? ==> outcome == NotWritten(NoManifest)
      ensures manifest.Some? ==>
                && Asked(old(log.entries), old(MemoHit()), old(memoNet))
                && var guard := DonateCheck(manifest.value, memo.value.state, id, amount);
                   var empty := walletStart > 0 && amount > walletStart - old(walletSpent);
                   if guard.Some? then outcome == NotWritten(guard.value)
                   else if empty || manifest.value.admission.gatekeeperAddress == "" then
                     outcome == NotWritten(WalletRefused)
                   else
                     && (wire.UnknownPeer? ==> outcome == PeerNotFound)
                     && (wire.Silence? ==> outcome == AdmissionPending)
                     && (wire.Replied? ==> outcome == Answered(wire.accepted, wire.reason))
      ensures !outcome.NotWritten? ==>
                && manifest.Some?
                && log.entries == old(log.entries) + [Entry(stamp, id, hash, manifest.value.id, Donation(Some(amount)))]
                && walletSpent == old(walletSpent) + amount
      ensures manifest.Some? && old(MemoCurrent()) ==>
                ReplayAgrees(old(log.entries), Entry(stamp, id, hash, manifest.value.id, Donation(Some(amount))),
                             !outcome.NotWritten? || outcome.refusal == WalletRefused)
    {
      var refusal := CommunityDonateAndJoin(amount, stamp, hash);
      if refusal.Some? {
        return NotWritten(refusal.value);
      }
      outcome := OutcomeOf(wire);
    }

    /** The price defaults to the manifest's; any other is refused here as it would be at replay. */
    method SeedboxPurchasePropose(cost: Option<int>, stamp: string, hash: string) returns (refusal: Option<Refusal>)
      requires manifest.Some? ==> ReadyToWrite(Purchase(Some(PriceOf(cost, manifest.value))), stamp, hash)
      requires Valid()
      modifies this`memo, this`memoNet, this`walletSpent, log, peerLog`seen, peerLog`latest
      ensures Valid() && (old(MemoCurrent()) ==> MemoCurrent())
      ensures manifest.None? ==> refusal == Some(NoManifest)
      ensures manifest.Some? ==>
                var price := if cost.Some? then cost.value else manifest.value.admission.seedboxCostSats;
                var e := Entry(stamp, id, hash, manifest.value.id, Purchase(Some(price)));
                && Asked(old(log.entries), old(MemoHit()), old(memoNet))
                && refusal == PurchaseCheck(manifest.value, memo.value.state, id, price)
                && (old(MemoCurrent()) ==> ReplayAgrees(old(log.entries), e, refusal.None?))
                && log.entries == old(log.entries) + if refusal.None? then [e] else []
      ensures walletSpent == old(walletSpent)
    {
      if manifest.None? {
        return Some(NoManifest);
      }
      refusal := WriteIfAllowed(Purchase(Some(PriceOf(cost, manifest.value))), stamp, hash);
    }

    method SeedboxProvisioned(intentHash: string, url: string, pubkey: string, stamp: string, hash: string)
      returns (refusal: Option<Refusal>)
      requires ReadyToWrite(Provision(intentHash, url, pubkey), stamp, hash)
      modifies this`memo, this`memoNet, this`walletSpent, log, peerLog`seen, peerLog`latest
      ensures Valid() && (old(MemoCurrent()) ==> MemoCurrent())
      ensures manifest.None? ==> refusal == Some(NoManifest)
      ensures manifest.Some? ==>
                var e := Entry(stamp, id, hash, manifest.value.id, Provision(intentHash, url, pubkey));
                && Asked(old(log.entries), old(MemoHit()), old(memoNet))
                && refusal == ProvisionCheck(memo.value.state, id, intentHash, url, pubkey)
                && (old(MemoCurrent()) ==> ReplayAgrees(old(log.entries), e, refusal.None?))
                && log.entries == old(log.entries) + if refusal.None? then [e] else []
      ensures walletSpent == old(walletSpent)
    {
      if manifest.None? {
        return Some(NoManifest);
      }
      refusal := WriteIfAllowed(Provision(intentHash, url, pubkey), stamp, hash);
    }
  }

  /** A stale memo that answered truly for the first network answers falsely for the second. */
  lemma WitnessIsStale(gate: Gate, own: seq<Entry>, files: Files, answer: CommunityState)
    requires own == [WITNESS_ENTRY] && files == map[] && WellFormedView(gate, own, files)
    requires IsFreshReplay(answer, Network("first", WITNESS_POLICY), own, files)
    ensures !IsFreshReplay(answer, Network("second", WITNESS_POLICY), own, files)
  {
    WitnessView(own);
    assert answer == Replay(Network("first", WITNESS_POLICY), own);
    hide WellFormedView, IsFreshReplay, IsListing, Replay, Opens;
    StaleMemoRightIff(Network("first", WITNESS_POLICY), Network("second", WITNESS_POLICY), gate, own, files, own);
    assert WITNESS_ENTRY in own;
  }

  /** The same failure run on an agent: ask, load another manifest, ask again. */
  method StaleAnswerAfterLoad() returns (agent: OpenClawAgent, answer: CommunityState)
    ensures agent.Valid() && agent.manifest.Some?
    ensures !IsFreshReplay(answer, agent.manifest.value, agent.log.entries, agent.peerLog.files)
  {
    var log := new SignedLog();
    log.Append(WITNESS_ENTRY);
    var peerLog := new PeerLog(Gate(Some("a"), IsWitness), map[]);
    WitnessView(log.entries);
    hide WellFormedView, IsFreshReplay, KeyOf, MemoSound;
    agent := new OpenClawAgent("a", log, peerLog, 0);
    var loaded := agent.LoadManifest(Network("first", WITNESS_POLICY));
    var state := agent.CommunityState();
    loaded := agent.LoadManifest(Network("second", WITNESS_POLICY));
    state := agent.CommunityState();
    answer := state.value;
    WitnessIsStale(peerLog.gate, log.entries, peerLog.files, answer);
  }

  /** A call on an agent; the writing tools are one, since they share their shape. */
  datatype Call =
    | CallAppend(entry: Entry)
    | CallTool(payload: Payload, stamp: string, hash: string)
    | CallPull(head: Option<string>, answer: Answer, last: Option<string>, batch: int)
    | CallJoin(entry: Entry)
    | CallState

  /** The entry a call may sign and append. */
  function WrittenBy(id: string, net: Network, call: Call): Option<Entry> {
    match call
    case CallAppend(e) => Some(e)
    case CallTool(payload, stamp, hash) => Some(Entry(stamp, id, hash, net.id, payload))
    case _ => None
  }

  /** Each call may sign what it writes, and no two of them write entries of one hash. */
  ghost predicate Callable(id: string, net: Network, gate: Gate, own: seq<Entry>, calls: seq<Call>) {
    && (forall k :: 0 <= k < |calls| && calls[k].CallTool? ==>
          && (calls[k].payload.Donation? ==> calls[k].payload.amount.Some?)
          && (calls[k].payload.Purchase? ==> calls[k].payload.cost.Some?))
    && (forall k :: 0 <= k < |calls| && WrittenBy(id, net, calls[k]).Some? ==>
          var e := WrittenBy(id, net, calls[k]).value;
          && e.reporter == id && gate.verify(e)
          && forall x :: x in own ==> x.hash != e.hash)
    && (forall k, l :: 0 <= k < l < |calls| && WrittenBy(id, net, calls[k]).Some? && WrittenBy(id, net, calls[l]).Some? ==>
          WrittenBy(id, net, calls[k]).value.hash != WrittenBy(id, net, calls[l]).value.hash)
  }

  /** The same refinement of the class itself: whatever calls came before, the next answer is a fresh replay. */
  method AnswerAfter(agent: OpenClawAgent, calls: seq<Call>) returns (state: CommunityState)
    requires agent.Valid() && agent.manifest.Some? && agent.MemoCurrent()
    requires Callable(agent.id, agent.manifest.value, agent.peerLog.gate, agent.log.entries, calls)
    modifies agent`memo, agent`memoNet, agent`walletSpent, agent.log, agent.peerLog
    ensures agent.Valid() && agent.MemoCurrent()
    ensures IsFreshReplay(state, agent.manifest.value, agent.log.entries, agent.peerLog.files)
    ensures old(agent.walletSpent) <= agent.walletSpent
    ensures agent.walletStart > 0 && old(agent.walletSpent) <= agent.walletStart ==>
              agent.walletSpent <= agent.walletStart
  {
    hide WellFormedView, MemoSound, IsListing, IsFreshReplay, KeyOf, Replay;
    ghost var net, gate, id := agent.manifest.value, agent.peerLog.gate, agent.id;
    for i := 0 to |calls|
      invariant agent.Valid() && agent.MemoCurrent()
      invariant agent.peerLog.gate == gate
      invariant old(agent.walletSpent) <= agent.walletSpent
      invariant agent.walletStart > 0 && old(agent.walletSpent) <= agent.walletStart ==>
                  agent.walletSpent <= agent.walletStart
      invariant Callable(id, net, gate, agent.log.entries, calls[i..])
    {
      ghost var own := agent.log.entries;
      assert calls[i..][0] == calls[i] && calls[i..][1..] == calls[i + 1..];
      match calls[i] {
        case CallAppend(e) => agent.AppendOwn(e);
        case CallTool(payload, stamp, hash) => var refusal := agent.WriteIfAllowed(payload, stamp, hash);
        case CallPull(head, answer, last, batch) => var result := agent.PullFromPeer(head, answer, last, batch);
        case CallJoin(e) => var accepted, reason := agent.HandleCommunityJoin(e);
        case CallState => var ignored := agent.CommunityState();
      }
      CallableAfter(id, net, gate, own, calls[i..], agent.log.entries);
    }
    var answer := agent.CommunityState();
    state := answer.value;
  }

  lemma CallableAfter(id: string, net: Network, gate: Gate, own: seq<Entry>, calls: seq<Call>, after: seq<Entry>)
    requires calls != [] && Callable(id, net, gate, own, calls)
    requires after == own || (WrittenBy(id, net, calls[0]).Some? && after == own + [WrittenBy(id, net, calls[0]).value])
    ensures Callable(id, net, gate, after, calls[1..])
  {
    hide WrittenBy;
    var rest := calls[1..];
    assert forall k :: 0 <= k < |rest| ==> rest[k] == calls[k + 1];
  }

  /** What becomes of the message: the peer is not known, does not answer in time, or answers. */
  datatype WireReply = UnknownPeer | Silence | Replied(accepted: bool, reason: string)

  datatype JoinOutcome =
    | NotWritten(refusal: Refusal)
    | PeerNotFound
    | AdmissionPending
    | Answered(accepted: bool, reason: string)

  function OutcomeOf(wire: WireReply): JoinOutcome {
    match wire
    case UnknownPeer => PeerNotFound
    case Silence => AdmissionPending
    case Replied(accepted, reason) => Answered(accepted, reason)
  }

  function PriceOf(cost: Option<int>, net: Network): int {
    if cost.Some? then cost.value else net.admission.seedboxCostSats
  }

  /** A wallet needs an address and a positive amount, and with a tracked balance refuses to overspend it. */
  predicate CanSpend(address: string, start: int, spent: int, sats: int) {
    1 <= sats && address != "" && (start > 0 ==> sats <= start - spent)
  }
}
