/** What every run of the community state machine keeps, from any stream of entries. */
module LedgerInvariants {
  import opened Collections
  import opened Entries
  import opened CommunityLedger

  /** The members are the donors, one donation each. */
  ghost predicate Roster(s: CommunityState) {
    && |s.members| == |s.donations|
    && (forall d :: d in s.donations ==> d.reporter in s.members && d.reporter != "")
    && (forall m :: m in s.members ==> exists d :: d in s.donations && d.reporter == m)
    && (forall i, j :: 0 <= i < j < |s.donations| ==> s.donations[i].reporter != s.donations[j].reporter)
  }

  /** The treasury holds what came in less what was committed, and never goes negative. */
  ghost predicate Conserved(policy: AdmissionPolicy, s: CommunityState) {
    && s.balance == Total(s.donations) - policy.seedboxCostSats * |s.purchases|
    && 0 <= s.balance
    && (forall p :: p in s.purchases ==> p.cost == policy.seedboxCostSats && p.reporter in s.members)
    && s.seedboxCount == 1 + |s.provisioned|
  }

  /** Purchases and provisions alternate: the i-th provision closes the i-th purchase. */
  ghost predicate Alternating(s: CommunityState) {
    && 0 <= s.PendingPurchases() <= 1
    && (forall i :: 0 <= i < |s.provisioned| ==> s.provisioned[i].intentHash == s.purchases[i].hash)
    && (forall v :: v in s.provisioned ==> v.reporter in s.members && v.intentHash != "")
  }

  /** Each donation is at least the minimum and at most the exact mean of those before it. */
  ghost predicate MeanCapped(policy: AdmissionPolicy, ds: seq<DonationRecord>) {
    && (forall i :: 0 <= i < |ds| ==> policy.minSats <= ds[i].amount)
    && (ds != [] ==> ds[0].amount <= policy.EffectiveBootstrapCap())
    && (forall i :: 1 <= i < |ds| ==> ds[i].amount * i <= Total(ds[..i]))
  }

  /** Growth is paid for by membership: k purchases need more than k full seedboxes of members. */
  ghost predicate GrowthBacked(policy: AdmissionPolicy, s: CommunityState) {
    s.purchases != [] ==> policy.GrowthEnabled() && |s.members| > policy.maxAgentsPerSeedbox * |s.purchases|
  }

  ghost predicate Invariant(policy: AdmissionPolicy, s: CommunityState) {
    && Roster(s)
    && Conserved(policy, s)
    && Alternating(s)
    && MeanCapped(policy, s.donations)
    && GrowthBacked(policy, s)
  }

  /** `Total` is the sum of the amounts. */
  lemma {:induction false} TotalIsSum(a: seq<DonationRecord>, b: seq<DonationRecord>)
    ensures Total([]) == 0 && Total(a + b) == Total(a) + Total(b)
    ensures |a| == 1 ==> Total(a) == a[0].amount
  {
    if b == [] {
      assert a + b == a;
    } else {
      TotalIsSum(a, b[..|b| - 1]);
      assert (a + b)[..|a + b| - 1] == a + b[..|b| - 1];
    }
    assert |a| == 1 ==> a[..0] == [];
  }

  // -------------------------------------------------------------------------
  // Floor means
  // -------------------------------------------------------------------------

  /** A whole amount is at most the floor mean exactly when it is at most the exact mean. */
  lemma AtMostFloorMean(amount: int, total: int, n: int)
    requires n > 0
    ensures amount <= total / n <==> amount * n <= total
  {
    var q, r := total / n, total % n;
    assert total == q * n + r && 0 <= r < n;
    if amount <= q {
      assert amount * n <= q * n by { MulMonotone(amount, q, n); }
    } else {
      assert (q + 1) * n <= amount * n by { MulMonotone(q + 1, amount, n); }
      assert (q + 1) * n == q * n + n;
    }
  }

  lemma MulMonotone(a: int, b: int, n: int)
    requires a <= b && 0 <= n
    ensures a * n <= b * n
  {
    assert (b - a) * n >= 0;
    assert (b - a) * n == b * n - a * n;
  }

  lemma MulSuccessor(a: int, n: int)
    ensures a * (n + 1) == a * n + a
  {
  }

  lemma CancelFactor(a: int, b: int, n: int)
    requires a * n <= b * n && 0 < n
    ensures a <= b
  {
    assert (b + 1) * n == b * n + n;
    if a > b {
      MulMonotone(b + 1, a, n);
    }
  }

  lemma {:induction false} TotalAtLeast(ds: seq<DonationRecord>, low: int)
    requires forall i :: 0 <= i < |ds| ==> low <= ds[i].amount
    ensures low * |ds| <= Total(ds)
  {
    if ds != [] {
      TotalAtLeast(ds[..|ds| - 1], low);
      MulSuccessor(low, |ds| - 1);
    }
  }

  /** Past the first donor the documented `max(min_sats, mean)` is always the mean. */
  lemma CapIsFloorMean(policy: AdmissionPolicy, ds: seq<DonationRecord>)
    requires MeanCapped(policy, ds) && ds != []
    ensures policy.minSats <= Total(ds) / |ds|
    ensures DonationCap(policy, ds) == Total(ds) / |ds|
  {
    TotalAtLeast(ds, policy.minSats);
    AtMostFloorMean(policy.minSats, Total(ds), |ds|);
  }

  // -------------------------------------------------------------------------
  // One step keeps the invariant
  // -------------------------------------------------------------------------

  /** The exact admission rule, read off the state the run has reached. */
  lemma DonationAcceptedIff(net: Network, s: CommunityState, e: Entry)
    requires net.admission.Legal() && Invariant(net.admission, s)
    requires e.network == net.id && e.payload.Donation?
    ensures Step(net, s, e) != s <==>
              && e.reporter != ""
              && e.reporter !in s.members
              && e.payload.amount.Some?
              && net.admission.minSats <= e.payload.amount.value
              && (if s.donations == [] then
                    e.payload.amount.value
                    <= if net.admission.bootstrapCapSats > 0 then net.admission.bootstrapCapSats
                       else 10 * net.admission.minSats
                  else e.payload.amount.value * |s.donations| <= Total(s.donations))
    ensures Step(net, s, e) != s ==>
              && Step(net, s, e).donations
                 == s.donations + [DonationRecord(e.reporter, e.payload.amount.value, e.timestamp, e.hash)]
              && Step(net, s, e).purchases == s.purchases && Step(net, s, e).provisioned == s.provisioned
  {
    var t := Step(net, s, e);
    assert t == s || |t.donations| == |s.donations| + 1;
    if e.payload.amount.Some? && s.donations != [] {
      CapIsFloorMean(net.admission, s.donations);
      AtMostFloorMean(e.payload.amount.value, Total(s.donations), |s.donations|);
    }
  }

  /** The guards of a purchase as the validator evaluates them, from any state. */
  lemma PurchaseGuards(net: Network, s: CommunityState, e: Entry)
    requires e.network == net.id && e.payload.Purchase?
    ensures Step(net, s, e) != s <==>
              && net.admission.GrowthEnabled() && e.reporter in s.members
              && e.payload.cost == Some(net.admission.seedboxCostSats)
              && s.balance >= net.admission.seedboxCostSats
              && |s.members| > net.admission.maxAgentsPerSeedbox * s.seedboxCount
              && s.PendingPurchases() == 0
    ensures Step(net, s, e) != s ==>
              && Step(net, s, e).purchases
                 == s.purchases + [PurchaseRecord(e.reporter, net.admission.seedboxCostSats, e.timestamp, e.hash)]
              && Step(net, s, e).donations == s.donations && Step(net, s, e).provisioned == s.provisioned
  {
    var t := Step(net, s, e);
    assert t == s || |t.purchases| == |s.purchases| + 1;
  }

  /** A purchase goes through exactly when every earlier one is closed and k+1 seedboxes are outgrown and paid for. */
  lemma PurchaseAcceptedIff(net: Network, s: CommunityState, e: Entry)
    requires net.admission.Legal() && Invariant(net.admission, s)
    requires e.network == net.id && e.payload.Purchase?
    ensures Step(net, s, e) != s <==>
              && net.admission.maxAgentsPerSeedbox > 0 && net.admission.seedboxCostSats > 0
              && e.reporter in s.members
              && e.payload.cost == Some(net.admission.seedboxCostSats)
              && net.admission.seedboxCostSats * (|s.purchases| + 1) <= Total(s.donations)
              && |s.donations| > net.admission.maxAgentsPerSeedbox * (|s.purchases| + 1)
              && |s.purchases| == |s.provisioned|
    ensures Step(net, s, e) != s ==>
              && Step(net, s, e).purchases
                 == s.purchases + [PurchaseRecord(e.reporter, net.admission.seedboxCostSats, e.timestamp, e.hash)]
              && Step(net, s, e).donations == s.donations && Step(net, s, e).provisioned == s.provisioned
  {
    PurchaseGuards(net, s, e);
    hide Step, MeanCapped, GrowthBacked, Alternating;
    assert |s.members| == |s.donations|;
    hide Roster, Total;
    MulSuccessor(net.admission.seedboxCostSats, |s.purchases|);
    if s.PendingPurchases() == 0 {
      assert s.seedboxCount == |s.purchases| + 1;
    }
  }

  /**
   * A provision goes through exactly when it names the one open purchase.  The purchase is out of
   * reach when its hash is empty or repeats the hash of an earlier, closed one.
   */
  lemma ProvisionAcceptedIff(net: Network, s: CommunityState, e: Entry)
    requires Invariant(net.admission, s)
    requires e.network == net.id && e.payload.Provision?
    ensures Step(net, s, e) != s <==>
              && e.reporter in s.members
              && e.payload.url != "" && e.payload.pubkey != ""
              && s.PendingPurchases() == 1
              && Closable(s)
              && e.payload.intentHash == s.purchases[|s.purchases| - 1].hash
    ensures Step(net, s, e) != s ==>
              && Step(net, s, e).provisioned
                 == s.provisioned + [ProvisionRecord(e.reporter, e.payload.intentHash, e.payload.url,
                                                     e.payload.pubkey, e.timestamp, e.hash)]
              && Step(net, s, e).purchases == s.purchases && Step(net, s, e).donations == s.donations
  {
    hide Roster, Conserved, MeanCapped, GrowthBacked;
    var t, h, k := Step(net, s, e), e.payload.intentHash, |s.purchases| - 1;
    assert t == s || |t.provisioned| == |s.provisioned| + 1;
    if t != s {
      forall j | 0 <= j < |s.provisioned| ensures s.purchases[j].hash != h {
        assert s.provisioned[j] in s.provisioned;
      }
      var p :| p in s.purchases && p.hash == h;
      var i :| 0 <= i < |s.purchases| && s.purchases[i] == p;
      assert i == k == |s.provisioned|;
    }
    if s.PendingPurchases() == 1 && h == s.purchases[k].hash && Closable(s) {
      assert s.purchases[k] in s.purchases;
      assert forall v :: v in s.provisioned ==> v.intentHash != h;
    }
  }

  /** The newest purchase can still be named by a provision. */
  ghost predicate Closable(s: CommunityState) {
    s.purchases != [] ==>
      var h := s.purchases[|s.purchases| - 1].hash;
      h != "" && forall j :: 0 <= j < |s.purchases| - 1 ==> s.purchases[j].hash != h
  }

  lemma StepKeepsInvariant(net: Network, s: CommunityState, e: Entry)
    requires net.admission.Legal() && Invariant(net.admission, s)
    ensures Invariant(net.admission, Step(net, s, e))
  {
    if Step(net, s, e) != s {
      match e.payload
      case Donation(_) => DonationKeepsInvariant(net, s, e);
      case Purchase(_) =>
        PurchaseAcceptedIff(net, s, e);
        var p := PurchaseRecord(e.reporter, net.admission.seedboxCostSats, e.timestamp, e.hash);
        PurchaseKeepsInvariant(net.admission, s, p);
      case Provision(intentHash, url, pubkey) =>
        ProvisionAcceptedIff(net, s, e);
        var v := ProvisionRecord(e.reporter, intentHash, url, pubkey, e.timestamp, e.hash);
        ProvisionKeepsInvariant(net.admission, s, v);
    }
  }

  lemma ProvisionKeepsAlternating(s: CommunityState, t: CommunityState, v: ProvisionRecord)
    requires Alternating(s) && s.PendingPurchases() == 1 && v.reporter in s.members && v.intentHash != ""
    requires v.intentHash == s.purchases[|s.purchases| - 1].hash
    requires t.members == s.members && t.purchases == s.purchases && t.provisioned == s.provisioned + [v]
    ensures Alternating(t)
  {
  }

  lemma ProvisionKeepsInvariant(policy: AdmissionPolicy, s: CommunityState, v: ProvisionRecord)
    requires Invariant(policy, s) && s.PendingPurchases() == 1
    requires v.reporter in s.members && v.intentHash != ""
    requires v.intentHash == s.purchases[|s.purchases| - 1].hash
    ensures Invariant(policy, s.(provisioned := s.provisioned + [v], seedboxCount := s.seedboxCount + 1))
  {
    var t := s.(provisioned := s.provisioned + [v], seedboxCount := s.seedboxCount + 1);
    assert GrowthBacked(policy, t) && Conserved(policy, t);
    RosterKept(s, t);
    hide Roster, Conserved, MeanCapped, GrowthBacked, Alternating;
    ProvisionKeepsAlternating(s, t, v);
  }

  lemma DonationKeepsInvariant(net: Network, s: CommunityState, e: Entry)
    requires net.admission.Legal() && Invariant(net.admission, s)
    requires e.network == net.id && e.payload.Donation? && Step(net, s, e) != s
    ensures Invariant(net.admission, Step(net, s, e))
  {
    DonationAcceptedIff(net, s, e);
    var d := DonationRecord(e.reporter, e.payload.amount.value, e.timestamp, e.hash);
    DonationKeepsMeanCap(net.admission, s.donations, d);
    DonationKeepsRoster(s, Step(net, s, e), d);
  }

  lemma DonationKeepsMeanCap(policy: AdmissionPolicy, ds: seq<DonationRecord>, d: DonationRecord)
    requires MeanCapped(policy, ds) && policy.minSats <= d.amount
    requires if ds == [] then d.amount <= policy.EffectiveBootstrapCap() else d.amount * |ds| <= Total(ds)
    ensures MeanCapped(policy, ds + [d]) && Total(ds + [d]) == Total(ds) + d.amount
  {
    var es := ds + [d];
    assert es[..|ds|] == ds;
    forall i | 1 <= i < |es| ensures es[i].amount * i <= Total(es[..i]) {
      if i < |ds| {
        assert es[..i] == ds[..i];
      }
    }
  }

  lemma DonationKeepsRoster(s: CommunityState, t: CommunityState, d: DonationRecord)
    requires Roster(s) && d.reporter !in s.members && d.reporter != ""
    requires t.members == s.members + {d.reporter} && t.donations == s.donations + [d]
    ensures Roster(t)
  {
    assert t.donations[|s.donations|] == d;
    forall m | m in t.members ensures exists d' :: d' in t.donations && d'.reporter == m {
      if m != d.reporter {
        var d' :| d' in s.donations && d'.reporter == m;
        assert d' in t.donations;
      }
    }
  }

  lemma PurchaseKeepsConserved(policy: AdmissionPolicy, s: CommunityState, t: CommunityState, p: PurchaseRecord)
    requires Conserved(policy, s) && p.cost == policy.seedboxCostSats <= s.balance && p.reporter in s.members
    requires t == s.(purchases := s.purchases + [p], balance := s.balance - p.cost)
    ensures Conserved(policy, t)
  {
    hide Total;
    MulSuccessor(policy.seedboxCostSats, |s.purchases|);
  }

  lemma PurchaseKeepsGrowth(policy: AdmissionPolicy, s: CommunityState, t: CommunityState, p: PurchaseRecord)
    requires policy.GrowthEnabled() && |s.members| > policy.maxAgentsPerSeedbox * (|s.purchases| + 1)
    requires t.members == s.members && t.purchases == s.purchases + [p]
    ensures GrowthBacked(policy, t)
  {
    assert |t.purchases| == |s.purchases| + 1;
  }

  lemma RosterKept(s: CommunityState, t: CommunityState)
    requires Roster(s) && t.members == s.members && t.donations == s.donations
    ensures Roster(t)
  {
  }

  lemma PurchaseKeepsAlternating(s: CommunityState, t: CommunityState, p: PurchaseRecord)
    requires Alternating(s) && s.PendingPurchases() == 0
    requires t.members == s.members && t.provisioned == s.provisioned && t.purchases == s.purchases + [p]
    ensures Alternating(t)
  {
  }

  lemma PurchaseKeepsInvariant(policy: AdmissionPolicy, s: CommunityState, p: PurchaseRecord)
    requires policy.Legal() && policy.GrowthEnabled() && Invariant(policy, s)
    requires p.cost == policy.seedboxCostSats <= s.balance && p.reporter in s.members
    requires |s.members| > policy.maxAgentsPerSeedbox * (|s.purchases| + 1) && s.PendingPurchases() == 0
    ensures Invariant(policy, s.(purchases := s.purchases + [p], balance := s.balance - p.cost))
  {
    var t := s.(purchases := s.purchases + [p], balance := s.balance - p.cost);
    hide Conserved, MeanCapped, Alternating;
    PurchaseKeepsGrowth(policy, s, t, p);
    RosterKept(s, t);
    hide Roster, GrowthBacked;
    PurchaseKeepsAlternating(s, t, p);
    PurchaseKeepsConserved(policy, s, t, p);
  }

  // -------------------------------------------------------------------------
  // Whole runs
  // -------------------------------------------------------------------------

  lemma {:induction false} FoldKeepsInvariant(net: Network, es: seq<Entry>)
    requires net.admission.Legal()
    ensures Invariant(net.admission, Fold(net, EMPTY_COMMUNITY, es))
  {
    if es != [] {
      FoldKeepsInvariant(net, es[..|es| - 1]);
      StepKeepsInvariant(net, Fold(net, EMPTY_COMMUNITY, es[..|es| - 1]), es[|es| - 1]);
    }
  }

  /** Every state a run passes through satisfies the invariant, whatever the stream contains. */
  lemma RunKeepsInvariant(net: Network, es: seq<Entry>)
    requires net.admission.Legal()
    ensures forall k :: 0 <= k <= |es| ==> Invariant(net.admission, Fold(net, EMPTY_COMMUNITY, es[..k]))
  {
    forall k | 0 <= k <= |es| ensures Invariant(net.admission, Fold(net, EMPTY_COMMUNITY, es[..k])) {
      FoldKeepsInvariant(net, es[..k]);
    }
  }

  lemma ReplayInvariant(net: Network, es: seq<Entry>)
    requires net.admission.Legal()
    ensures Invariant(net.admission, Replay(net, es))
  {
    FoldKeepsInvariant(net, SortEntries(Relevant(es)));
  }

  /** A closable purchase can be closed by any member, and then the next purchase is unblocked. */
  lemma OpenPurchaseClosableIff(net: Network, s: CommunityState, closer: string)
    requires net.admission.Legal() && Invariant(net.admission, s)
    requires s.PendingPurchases() == 1 && closer in s.members
    ensures Closable(s) <==>
              exists e: Entry :: e.payload.Provision? && e.reporter == closer && e.network == net.id
                                 && Step(net, s, e).PendingPurchases() == 0
  {
    if Closable(s) {
      var e := Entry("", closer, "", net.id, Provision(s.purchases[|s.purchases| - 1].hash, "u", "k"));
      ProvisionAcceptedIff(net, s, e);
      assert Step(net, s, e).PendingPurchases() == 0;
    } else {
      forall e: Entry | e.payload.Provision? && e.network == net.id
        ensures Step(net, s, e).PendingPurchases() == 1
      {
        ProvisionAcceptedIff(net, s, e);
      }
    }
  }

  // -------------------------------------------------------------------------
  // Consequences read off the invariant
  // -------------------------------------------------------------------------

  /** The running mean never rises: exactly (cross-multiplied) and after flooring. */
  lemma MeanNeverRises(policy: AdmissionPolicy, ds: seq<DonationRecord>, i: nat)
    requires MeanCapped(policy, ds) && 1 <= i < |ds|
    ensures Total(ds[..i + 1]) * i <= Total(ds[..i]) * (i + 1)
    ensures Total(ds[..i + 1]) / (i + 1) <= Total(ds[..i]) / i
  {
    assert ds[..i + 1][..i] == ds[..i];
    MeanStep(Total(ds[..i]), ds[i].amount, i);
  }

  // Averaging in a value no larger than the mean lowers the mean.
  lemma MeanStep(total: int, amount: int, i: int)
    requires 1 <= i && amount * i <= total
    ensures (total + amount) * i <= total * (i + 1)
    ensures (total + amount) / (i + 1) <= total / i
  {
    assert (total + amount) * i == total * i + amount * i;
    assert total * (i + 1) == total * i + total;
    var q := (total + amount) / (i + 1);
    AtMostFloorMean(q, total + amount, i + 1);
    MulMonotone(q * (i + 1), total + amount, i);
    assert (q * i) * (i + 1) == (q * (i + 1)) * i;
    CancelFactor(q * i, total, i + 1);
    AtMostFloorMean(q, total, i);
  }

  /** Every donation lies between the minimum and the founder's donation. */
  lemma {:induction false} DonationsAtMostFirst(policy: AdmissionPolicy, ds: seq<DonationRecord>)
    requires MeanCapped(policy, ds) && ds != []
    ensures forall i :: 0 <= i < |ds| ==> policy.minSats <= ds[i].amount <= ds[0].amount
    ensures Total(ds) <= ds[0].amount * |ds|
  {
    var n := |ds| - 1;
    if n > 0 {
      DonationsAtMostFirst(policy, ds[..n]) by { MeanCappedPrefix(policy, ds, n); }
      assert ds[n].amount * n <= Total(ds[..n]) <= ds[0].amount * n;
      CancelFactor(ds[n].amount, ds[0].amount, n);
      MulSuccessor(ds[0].amount, n);
      forall i | 0 <= i < n ensures policy.minSats <= ds[i].amount <= ds[0].amount {
        assert ds[i] == ds[..n][i];
      }
    }
  }

  lemma MeanCappedPrefix(policy: AdmissionPolicy, ds: seq<DonationRecord>, n: nat)
    requires MeanCapped(policy, ds) && n <= |ds|
    ensures MeanCapped(policy, ds[..n])
  {
    forall i | 1 <= i < n ensures ds[..n][i].amount * i <= Total(ds[..n][..i]) {
      assert ds[..n][..i] == ds[..i];
    }
  }

  /** All that ever came in is at most the bootstrap cap per member. */
  lemma IncomeBounded(net: Network, es: seq<Entry>)
    requires net.admission.Legal()
    ensures var s := Replay(net, es);
            Total(s.donations) <= |s.members| * net.admission.EffectiveBootstrapCap()
  {
    ReplayInvariant(net, es);
    var s := Replay(net, es);
    if s.donations != [] {
      DonationsAtMostFirst(net.admission, s.donations);
      MulMonotone(s.donations[0].amount, net.admission.EffectiveBootstrapCap(), |s.donations|);
    }
  }

  /** A newcomer who offers exactly the minimum is always admitted. */
  lemma MinimumDonationAdmitted(net: Network, es: seq<Entry>, e: Entry)
    requires net.admission.Legal()
    requires e.network == net.id && e.payload == Donation(Some(net.admission.minSats)) && e.reporter != ""
    requires e.reporter !in Replay(net, es).members
    ensures Step(net, Replay(net, es), e).members == Replay(net, es).members + {e.reporter}
  {
    ReplayInvariant(net, es);
    var s := Replay(net, es);
    if s.donations != [] {
      CapIsFloorMean(net.admission, s.donations);
    }
  }

  /** Whoever offers exactly the minimum somewhere in a stream is a member at its end. */
  lemma {:induction false} MinimumDonorJoins(net: Network, es: seq<Entry>, e: Entry)
    requires net.admission.Legal() && e in es
    requires e.network == net.id && e.payload == Donation(Some(net.admission.minSats)) && e.reporter != ""
    ensures e.reporter in Fold(net, EMPTY_COMMUNITY, es).members
  {
    var init, last := es[..|es| - 1], es[|es| - 1];
    if e in init {
      MinimumDonorJoins(net, init, e);
    } else {
      assert last == e;
      var s := Fold(net, EMPTY_COMMUNITY, init);
      FoldKeepsInvariant(net, init);
      if s.donations != [] {
        CapIsFloorMean(net.admission, s.donations);
      }
    }
  }

  /** Whenever something was provisioned, all seedboxes but the newest are outgrown. */
  lemma SeedboxesOutgrown(net: Network, es: seq<Entry>)
    requires net.admission.Legal()
    ensures var s := Replay(net, es);
            s.provisioned != [] ==> (s.seedboxCount - 1) * net.admission.maxAgentsPerSeedbox < |s.members|
  {
    ReplayInvariant(net, es);
    var s := Replay(net, es);
    if s.provisioned != [] {
      MulMonotone(s.seedboxCount - 1, |s.purchases|, net.admission.maxAgentsPerSeedbox);
    }
  }

  /** Members, purchases and provisions are never taken back while a run goes on. */
  lemma {:induction false} RunOnlyExtends(net: Network, s: CommunityState, es: seq<Entry>)
    ensures var t := Fold(net, s, es);
            && s.members <= t.members && s.donations <= t.donations
            && s.purchases <= t.purchases && s.provisioned <= t.provisioned
  {
    if es != [] {
      RunOnlyExtends(net, s, es[..|es| - 1]);
    }
  }
}
