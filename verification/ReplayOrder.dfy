/** Replay is a function of the set of entries: neither order nor repetition matters. */
module ReplayOrder {
  import opened Collections
  import opened Entries
  import opened CommunityLedger
  import opened LedgerInvariants
  import opened Ordering

  /** Among community entries the sort key tells entries apart (hashes cover the whole entry). */
  ghost predicate KeysIdentify(es: seq<Entry>) {
    forall a, b :: a in es && b in es && SameKey(a, b) ==> a == b
  }

  // -------------------------------------------------------------------------
  // Repetition
  // -------------------------------------------------------------------------

  /** Replaying an entry twice in a row is replaying it once, accepted or not, from any state. */
  lemma StepIdempotent(net: Network, s: CommunityState, e: Entry)
    ensures Step(net, Step(net, s, e), e) == Step(net, s, e)
  {
    var t := Step(net, s, e);
    if t != s && e.payload.Provision? {
      var v := t.provisioned[|t.provisioned| - 1];
      assert v in t.provisioned && v.intentHash == e.payload.intentHash;
    }
  }

  /** `s` with runs of equal neighbours collapsed. */
  ghost function Collapse(s: seq<Entry>): seq<Entry> {
    if |s| <= 1 then s
    else
      var init := s[..|s| - 1];
      if s[|s| - 1] == s[|s| - 2] then Collapse(init) else Collapse(init) + [s[|s| - 1]]
  }

  lemma {:induction false} CollapsePreservesFold(net: Network, start: CommunityState, s: seq<Entry>)
    ensures Fold(net, start, Collapse(s)) == Fold(net, start, s)
  {
    if |s| > 1 {
      var init, last := s[..|s| - 1], s[|s| - 1];
      CollapsePreservesFold(net, start, init);
      if last == s[|s| - 2] {
        StepIdempotent(net, Fold(net, start, init[..|init| - 1]), last);
      } else {
        var c := Collapse(init);
        assert (c + [last])[..|c|] == c;
      }
    }
  }

  ghost predicate StrictlyOrdered(s: seq<Entry>) {
    Ordered(s) && forall i, j :: 0 <= i < j < |s| ==> !SameKey(s[i], s[j])
  }

  lemma {:induction false} CollapseMembers(s: seq<Entry>)
    ensures forall x :: x in Collapse(s) <==> x in s
    ensures s != [] ==> Collapse(s) != [] && Collapse(s)[|Collapse(s)| - 1] == s[|s| - 1]
  {
    if |s| > 1 {
      CollapseMembers(s[..|s| - 1]);
      assert s == s[..|s| - 1] + [s[|s| - 1]];
    }
  }

  lemma {:induction false} CollapseIsStrict(s: seq<Entry>)
    requires Ordered(s) && KeysIdentify(s)
    ensures StrictlyOrdered(Collapse(s))
  {
    if |s| > 1 {
      var init, prev, last := s[..|s| - 1], s[|s| - 2], s[|s| - 1];
      CollapseIsStrict(init);
      CollapseMembers(init);
      var c := Collapse(init);
      forall x | x in c && last != prev ensures KeyLeq(x, last) && !SameKey(x, last) {
        assert x in init && x in s && last in s;
        if SameKey(x, last) {
          KeyAntisymmetric(x, prev);
        }
      }
    }
  }

  // -------------------------------------------------------------------------
  // Order
  // -------------------------------------------------------------------------

  /** A set of entries has at most one strictly ordered listing. */
  lemma {:induction false} StrictListingUnique(a: seq<Entry>, b: seq<Entry>)
    requires StrictlyOrdered(a) && StrictlyOrdered(b)
    requires Elements(a) == Elements(b)
    ensures a == b
  {
    assert a != [] ==> a[0] in Elements(a);
    assert b != [] ==> b[0] in Elements(b);
    if a != [] {
      LastIsGreatest(a, b);
      var lastA, lastB := a[|a| - 1], b[|b| - 1];
      assert Elements(a[..|a| - 1]) == Elements(a) - {lastA};
      assert Elements(b[..|b| - 1]) == Elements(b) - {lastB};
      StrictListingUnique(a[..|a| - 1], b[..|b| - 1]);
      assert a == a[..|a| - 1] + [lastA] && b == b[..|b| - 1] + [lastB];
    }
  }

  lemma LastIsGreatest(a: seq<Entry>, b: seq<Entry>)
    requires StrictlyOrdered(a) && StrictlyOrdered(b)
    requires Elements(a) == Elements(b) && a != [] && b != []
    ensures a[|a| - 1] == b[|b| - 1]
  {
    var x, y := a[|a| - 1], b[|b| - 1];
    assert x in Elements(b) && y in Elements(a);
    var i :| 0 <= i < |b| && b[i] == x;
    var j :| 0 <= j < |a| && a[j] == y;
    if x != y {
      assert KeyLeq(x, y) && KeyLeq(y, x);
      KeyAntisymmetric(x, y);
    }
  }

  /** Two listings of one set of entries collapse to the same replay order. */
  lemma SameSetSameReplayOrder(a: seq<Entry>, b: seq<Entry>)
    requires Elements(a) == Elements(b) && KeysIdentify(a)
    ensures Collapse(SortEntries(a)) == Collapse(SortEntries(b))
  {
    SortIsOrderedPermutation(a);
    SortIsOrderedPermutation(b);
    assert Elements(SortEntries(a)) == Elements(a) == Elements(SortEntries(b));
    assert forall x :: x in b ==> x in Elements(a);
    CollapseIsStrict(SortEntries(a));
    CollapseIsStrict(SortEntries(b));
    CollapseMembers(SortEntries(a));
    CollapseMembers(SortEntries(b));
    assert Elements(Collapse(SortEntries(a))) == Elements(a) == Elements(Collapse(SortEntries(b)));
    StrictListingUnique(Collapse(SortEntries(a)), Collapse(SortEntries(b)));
  }

  lemma RelevantElements(a: seq<Entry>, b: seq<Entry>)
    requires Elements(a) == Elements(b)
    ensures Elements(Relevant(a)) == Elements(Relevant(b))
  {
    assert forall x :: x in a <==> x in Elements(a);
    assert forall x :: x in b <==> x in Elements(b);
  }

  /** Any permutation and any repetition of a view replays to the same state. */
  lemma ReplayDependsOnlyOnTheSet(net: Network, a: seq<Entry>, b: seq<Entry>)
    requires Elements(a) == Elements(b) && KeysIdentify(Relevant(a))
    ensures Replay(net, a) == Replay(net, b)
  {
    RelevantElements(a, b);
    SameSetSameReplayOrder(Relevant(a), Relevant(b));
    CollapsePreservesFold(net, EMPTY_COMMUNITY, SortEntries(Relevant(a)));
    CollapsePreservesFold(net, EMPTY_COMMUNITY, SortEntries(Relevant(b)));
  }

  /** The entries of one network. */
  function Concerning(net: Network, es: seq<Entry>): seq<Entry> {
    if es == [] then []
    else Concerning(net, es[..|es| - 1]) + if es[|es| - 1].network == net.id then [es[|es| - 1]] else []
  }

  lemma {:induction false} ConcerningMembers(net: Network, es: seq<Entry>)
    ensures forall x :: x in Concerning(net, es) <==> x in es && x.network == net.id
  {
    if es != [] {
      ConcerningMembers(net, es[..|es| - 1]);
      assert es == es[..|es| - 1] + [es[|es| - 1]];
    }
  }

  lemma {:induction false} FoldConcerns(net: Network, start: CommunityState, es: seq<Entry>)
    ensures Fold(net, start, Concerning(net, es)) == Fold(net, start, es)
  {
    if es != [] {
      var init, last := es[..|es| - 1], es[|es| - 1];
      FoldConcerns(net, start, init);
      FoldConcat(net, start, Concerning(net, init), [last]);
      assert [last][..0] == [] && Concerning(net, init) + [] == Concerning(net, init);
      assert Fold(net, Fold(net, start, init), [last]) == Step(net, Fold(net, start, init), last);
    }
  }

  lemma ConcerningCons(net: Network, e: Entry, es: seq<Entry>)
    ensures Concerning(net, [e] + es) == (if e.network == net.id then [e] else []) + Concerning(net, es)
    decreases |es|
  {
    if es == [] {
      assert [e] + es == [e] && [e][..0] == [];
    } else {
      ConcerningCons(net, e, es[..|es| - 1]);
      assert ([e] + es)[..|es|] == [e] + es[..|es| - 1];
    }
  }

  /** Leaving out other networks' entries commutes with sorting. */
  lemma {:induction false} InsertConcerns(net: Network, e: Entry, s: seq<Entry>)
    requires Ordered(s)
    ensures Concerning(net, Insert(e, s)) ==
            if e.network == net.id then Insert(e, Concerning(net, s)) else Concerning(net, s)
  {
    if s == [] || KeyLeq(e, s[0]) {
      ConcerningCons(net, e, s);
      ConcerningMembers(net, s);
      if s != [] {
        BelowAll(e, s);
      }
      InsertFirst(e, Concerning(net, s));
    } else {
      InsertConcerns(net, e, s[1..]);
      ConcerningCons(net, s[0], Insert(e, s[1..]));
      ConcerningCons(net, s[0], s[1..]);
      assert s == [s[0]] + s[1..];
      if s[0].network == net.id {
        assert ([s[0]] + Concerning(net, s[1..]))[1..] == Concerning(net, s[1..]);
      } else if e.network == net.id {
        assert Concerning(net, s) == Concerning(net, s[1..]);
      }
    }
  }

  lemma BelowAll(e: Entry, s: seq<Entry>)
    requires Ordered(s) && s != [] && KeyLeq(e, s[0])
    ensures forall x :: x in s ==> KeyLeq(e, x)
  {
    forall x | x in s ensures KeyLeq(e, x) {
      var i :| 0 <= i < |s| && s[i] == x;
      if i > 0 {
        KeyTransitive(e, s[0], x);
      }
    }
  }

  lemma InsertFirst(e: Entry, s: seq<Entry>)
    requires forall x :: x in s ==> KeyLeq(e, x)
    ensures Insert(e, s) == [e] + s
  {
  }

  lemma SortCons(e: Entry, es: seq<Entry>)
    ensures SortEntries([e] + es) == Insert(e, SortEntries(es))
  {
    assert ([e] + es)[1..] == es;
  }

  lemma {:induction false} SortConcerns(net: Network, es: seq<Entry>)
    ensures SortEntries(Concerning(net, es)) == Concerning(net, SortEntries(es))
  {
    if es != [] {
      var first, rest := es[0], es[1..];
      assert es == [first] + rest;
      SortConcerns(net, rest);
      SortIsOrderedPermutation(rest);
      hide SortEntries, Concerning, Insert, Ordered;
      ConcerningCons(net, first, rest);
      SortCons(first, rest);
      InsertConcerns(net, first, SortEntries(rest));
      if first.network == net.id {
        SortCons(first, Concerning(net, rest));
      } else {
        assert [] + Concerning(net, rest) == Concerning(net, rest);
      }
    }
  }

  lemma RelevantSnoc(es: seq<Entry>, e: Entry)
    ensures Relevant(es + [e]) == if e.payload.Other? then Relevant(es) else Relevant(es) + [e]
  {
    assert (es + [e])[..|es|] == es;
  }

  lemma ConcerningSnoc(net: Network, es: seq<Entry>, e: Entry)
    ensures Concerning(net, es + [e]) == if e.network == net.id then Concerning(net, es) + [e] else Concerning(net, es)
  {
    assert (es + [e])[..|es|] == es;
  }

  lemma {:induction false} RelevantConcerns(net: Network, es: seq<Entry>)
    ensures Relevant(Concerning(net, es)) == Concerning(net, Relevant(es))
  {
    if es != [] {
      var init, last := es[..|es| - 1], es[|es| - 1];
      assert es == init + [last];
      RelevantConcerns(net, init);
      hide *;
      RelevantSnoc(init, last);
      RelevantSnoc(Concerning(net, init), last);
      ConcerningSnoc(net, init, last);
      ConcerningSnoc(net, Relevant(init), last);
    }
  }

  /** A network's state is a function of its own entries: other networks' may share keys, or be missing. */
  lemma ReplayConcerns(net: Network, es: seq<Entry>)
    ensures Replay(net, Concerning(net, es)) == Replay(net, es)
  {
    RelevantConcerns(net, es);
    SortConcerns(net, Relevant(es));
    FoldConcerns(net, EMPTY_COMMUNITY, SortEntries(Relevant(es)));
  }

  lemma OwnEntriesDetermineTheState(net: Network, a: seq<Entry>, b: seq<Entry>)
    requires Elements(Concerning(net, a)) == Elements(Concerning(net, b)) && KeysIdentify(Relevant(Concerning(net, a)))
    ensures Replay(net, a) == Replay(net, b)
  {
    ReplayConcerns(net, a);
    ReplayConcerns(net, b);
    ReplayDependsOnlyOnTheSet(net, Concerning(net, a), Concerning(net, b));
  }

  /**
   * The documented order independence holds of a list of entries exactly when its sort keys tell
   * its entries apart: the sort is stable, so two different entries with one key leak input order.
   */
  lemma OrderIndependentIff(es: seq<Entry>)
    ensures (forall p :: multiset(p) == multiset(es) ==> SortEntries(p) == SortEntries(es)) <==> KeysIdentify(es)
  {
    if KeysIdentify(es) {
      forall p | multiset(p) == multiset(es) ensures SortEntries(p) == SortEntries(es) {
        SortIsOrderedPermutation(p);
        SortIsOrderedPermutation(es);
        OrderedPermutationUnique(SortEntries(p), SortEntries(es));
      }
    } else {
      var a, b :| a in es && b in es && SameKey(a, b) && a != b;
      var p, q := TwoArrangements(es, a, b);
      SortIsStable(a, p);
      SortIsStable(a, q);
      assert WithKey(a, p)[0] == a && WithKey(a, q)[0] == b;
    }
  }

  lemma {:induction false} OrderedPermutationUnique(a: seq<Entry>, b: seq<Entry>)
    requires Ordered(a) && Ordered(b) && multiset(a) == multiset(b) && KeysIdentify(b)
    ensures a == b
  {
    assert |multiset(a)| == |a| && |multiset(b)| == |b|;
    if a != [] {
      SameFirst(a, b);
      WithoutFirst(a);
      WithoutFirst(b);
      assert KeysIdentify(b[1..]);
      hide KeysIdentify, Ordered;
      OrderedPermutationUnique(a[1..], b[1..]);
    }
  }

  lemma WithoutFirst(a: seq<Entry>)
    requires a != []
    ensures a == [a[0]] + a[1..] && multiset(a[1..]) == multiset(a) - multiset{a[0]}
    ensures Ordered(a) ==> Ordered(a[1..])
  {
    assert a == [a[0]] + a[1..];
  }

  lemma SameFirst(a: seq<Entry>, b: seq<Entry>)
    requires Ordered(a) && Ordered(b) && multiset(a) == multiset(b) && KeysIdentify(b) && a != [] && b != []
    ensures a[0] == b[0]
  {
    SamePermutationSameMembers(a, b);
    assert a[0] in a && b[0] in b;
    assert a[0] in b && b[0] in a;
    var i :| 0 <= i < |b| && b[i] == a[0];
    var j :| 0 <= j < |a| && a[j] == b[0];
    if i != 0 && j != 0 {
      KeyAntisymmetric(a[0], b[0]);
    }
  }

  /** Two rearrangements of `es` that start with the two given entries in either order. */
  lemma TwoArrangements(es: seq<Entry>, a: Entry, b: Entry) returns (p: seq<Entry>, q: seq<Entry>)
    requires a in es && b in es && a != b
    ensures multiset(p) == multiset(q) == multiset(es)
    ensures p != [] && q != [] && p[0] == a && q[0] == b
  {
    p := [a] + Without(es, a);
    q := [b] + Without(es, b);
  }

  ghost function Without(es: seq<Entry>, a: Entry): (r: seq<Entry>)
    requires a in es
    ensures multiset(es) == multiset([a] + r)
  {
    assert es == [es[0]] + es[1..];
    if es[0] == a then es[1..] else [es[0]] + Without(es[1..], a)
  }

  /** Without distinct keys even the state leaks input order: who is let in first, and for how much. */
  lemma SharedKeyLeaksOrder() returns (net: Network, a: Entry, b: Entry)
    ensures net.admission.Legal() && SameKey(a, b)
    ensures Replay(net, [a, b]) != Replay(net, [b, a])
  {
    net := Network("n", AdmissionPolicy("", 1, 0, 0, 0, 0));
    a := Entry("t", "r", "", "n", Donation(Some(1)));
    b := Entry("t", "r", "", "n", Donation(Some(2)));
    ReplayOfTwo(net, a, b);
    ReplayOfTwo(net, b, a);
    assert Replay(net, [a, b]).donations[0].amount == 1;
    assert Replay(net, [b, a]).donations[0].amount == 2;
  }

  lemma ReplayOfTwo(net: Network, a: Entry, b: Entry)
    requires !a.payload.Other? && !b.payload.Other? && KeyLeq(a, b)
    ensures Replay(net, [a, b]) == Step(net, Step(net, EMPTY_COMMUNITY, a), b)
  {
    assert [a, b][..1] == [a] && [a][..0] == [];
    assert Relevant([a]) == [a];
    assert Relevant([a, b]) == [a, b];
    assert [a, b][1..] == [b];
    assert SortEntries([b]) == [b];
    assert Fold(net, EMPTY_COMMUNITY, [a]) == Step(net, Fold(net, EMPTY_COMMUNITY, []), a);
  }

  // -------------------------------------------------------------------------
  // Later entries only extend
  // -------------------------------------------------------------------------

  ghost predicate AllBefore(a: seq<Entry>, b: seq<Entry>) {
    forall x, y :: x in a && y in b && !x.payload.Other? && !y.payload.Other? ==> KeyLeq(x, y)
  }

  /** Entries that sort after everything in view are folded onto the state the view had. */
  lemma LaterEntriesExtend(net: Network, view: seq<Entry>, later: seq<Entry>)
    requires AllBefore(view, later)
    ensures Replay(net, view + later) == Fold(net, Replay(net, view), SortEntries(Relevant(later)))
  {
    RelevantConcat(view, later);
    SortOfSeparated(Relevant(view), Relevant(later));
    FoldConcat(net, EMPTY_COMMUNITY, SortEntries(Relevant(view)), SortEntries(Relevant(later)));
  }

  lemma LaterEntryExtends(net: Network, view: seq<Entry>, e: Entry)
    requires AllBefore(view, [e])
    ensures Replay(net, view + [e]) == Step(net, Replay(net, view), e)
  {
    LaterEntriesExtend(net, view, [e]);
    assert [e][..0] == [];
    assert Relevant([e]) == if e.payload.Other? then [] else [e];
    assert Relevant([e]) != [] ==> SortEntries([e]) == [e];
    assert Fold(net, Replay(net, view), []) == Replay(net, view);
  }

  ghost function UpTo(cut: Entry, es: seq<Entry>): seq<Entry> {
    if es == [] then []
    else UpTo(cut, es[..|es| - 1]) + (if KeyLeq(es[|es| - 1], cut) then [es[|es| - 1]] else [])
  }

  ghost function Beyond(cut: Entry, es: seq<Entry>): seq<Entry> {
    if es == [] then []
    else Beyond(cut, es[..|es| - 1]) + (if KeyLeq(es[|es| - 1], cut) then [] else [es[|es| - 1]])
  }

  lemma {:induction false} CutElements(cut: Entry, es: seq<Entry>)
    ensures forall x :: x in UpTo(cut, es) <==> x in es && KeyLeq(x, cut)
    ensures forall x :: x in Beyond(cut, es) <==> x in es && !KeyLeq(x, cut)
  {
    if es != [] {
      CutElements(cut, es[..|es| - 1]);
      assert es == es[..|es| - 1] + [es[|es| - 1]];
    }
  }

  /**
   * History becomes final once views agree up to a cut: both replays continue the one state that
   * the common part replays to, so everything accepted in it stays accepted in the same order.
   */
  lemma AgreementUpToCutIsFinal(net: Network, a: seq<Entry>, b: seq<Entry>, cut: Entry)
    requires KeysIdentify(Relevant(a)) && KeysIdentify(Relevant(b))
    requires Elements(UpTo(cut, a)) == Elements(UpTo(cut, b))
    ensures var common := Replay(net, UpTo(cut, a));
            && Replay(net, a) == Fold(net, common, SortEntries(Relevant(Beyond(cut, a))))
            && Replay(net, b) == Fold(net, common, SortEntries(Relevant(Beyond(cut, b))))
  {
    ReplaySplitsAtCut(net, a, cut);
    ReplaySplitsAtCut(net, b, cut);
    CutElements(cut, a);
    ReplayDependsOnlyOnTheSet(net, UpTo(cut, a), UpTo(cut, b));
  }

  lemma ReplaySplitsAtCut(net: Network, es: seq<Entry>, cut: Entry)
    requires KeysIdentify(Relevant(es))
    ensures Replay(net, es) == Fold(net, Replay(net, UpTo(cut, es)), SortEntries(Relevant(Beyond(cut, es))))
  {
    var early, late := UpTo(cut, es), Beyond(cut, es);
    CutElements(cut, es);
    forall x, y | x in early && y in late ensures KeyLeq(x, y) {
      KeyTotal(y, cut);
      KeyTransitive(x, cut, y);
    }
    LaterEntriesExtend(net, early, late);
    assert forall x :: x in es <==> x in early + late;
    ReplayDependsOnlyOnTheSet(net, es, early + late);
  }

  /** An entry that arrives late but sorts early can expel members a view had already admitted. */
  lemma LateArrivalCanRetract() returns (net: Network, view: seq<Entry>, late: Entry)
    ensures net.admission.Legal() && KeysIdentify(view + [late])
    ensures !(Replay(net, view).members <= Replay(net, view + [late]).members)
  {
    net := Network("n", AdmissionPolicy("", 1, 0, 0, 0, 0));
    var x := Entry("2", "x", "hx", "n", Donation(Some(5)));
    late := Entry("1", "e", "he", "n", Donation(Some(1)));
    view := [x];
    LaterEntryExtends(net, [], x);
    assert [] + [x] == view;
    assert "x" in Replay(net, view).members;
    ReplayOfTwo(net, late, x);
    assert Elements([late, x]) == Elements(view + [late]);
    ReplayDependsOnlyOnTheSet(net, [late, x], view + [late]);
    var s := Step(net, EMPTY_COMMUNITY, late);
    assert s.donations == [DonationRecord("e", 1, "1", "he")] && Total(s.donations[..0]) == 0;
    assert DonationCap(net.admission, s.donations) == 1;
    assert Step(net, s, x) == s;
  }

  // -------------------------------------------------------------------------
  // Two networks over one view
  // -------------------------------------------------------------------------

  ghost predicate Records(net: Network, d: DonationRecord, e: Entry) {
    && e.network == net.id && e.payload.Donation?
    && d == DonationRecord(e.reporter, d.amount, e.timestamp, e.hash)
  }

  lemma {:induction false} DonationSource(net: Network, es: seq<Entry>, d: DonationRecord) returns (e: Entry)
    requires d in Fold(net, EMPTY_COMMUNITY, es).donations
    ensures e in es && Records(net, d, e)
  {
    var init, last := es[..|es| - 1], es[|es| - 1];
    if d in Fold(net, EMPTY_COMMUNITY, init).donations {
      e := DonationSource(net, init, d);
    } else {
      e := last;
    }
  }

  lemma {:induction false} NoDonationsNoState(net: Network, es: seq<Entry>)
    requires Fold(net, EMPTY_COMMUNITY, es).donations == []
    ensures Fold(net, EMPTY_COMMUNITY, es) == EMPTY_COMMUNITY
  {
    if es != [] {
      NoDonationsNoState(net, es[..|es| - 1]);
    }
  }

  /** The entry could be a network's first admission: it passes every guard of an empty community. */
  ghost predicate Opens(net: Network, e: Entry) {
    && e.network == net.id && e.reporter != ""
    && e.payload.Donation? && e.payload.amount.Some?
    && net.admission.minSats <= e.payload.amount.value <= net.admission.EffectiveBootstrapCap()
  }

  lemma {:induction false} FoldEmptyIff(net: Network, es: seq<Entry>)
    ensures Fold(net, EMPTY_COMMUNITY, es) == EMPTY_COMMUNITY <==> forall e :: e in es ==> !Opens(net, e)
  {
    if es != [] {
      var init, last := es[..|es| - 1], es[|es| - 1];
      FoldEmptyIff(net, init);
      assert es == init + [last];
      var s := Fold(net, EMPTY_COMMUNITY, init);
      if s == EMPTY_COMMUNITY {
        assert Step(net, EMPTY_COMMUNITY, last) == EMPTY_COMMUNITY <==> !Opens(net, last);
      } else {
        if s.donations == [] {
          NoDonationsNoState(net, init);
        }
        assert Fold(net, EMPTY_COMMUNITY, es).donations != [];
      }
    }
  }

  /** `a` is at or before `b` by timestamp, then reporter, then hash, each in code-point order. */
  ghost predicate NotAfter(a: Entry, b: Entry) {
    if a.timestamp != b.timestamp then Smaller(a.timestamp, b.timestamp)
    else if a.reporter != b.reporter then Smaller(a.reporter, b.reporter)
    else a.hash == b.hash || Smaller(a.hash, b.hash)
  }

  /** A community is founded by the earliest entry that could open it, whoever else could have. */
  lemma EarliestOpenerFounds(net: Network, es: seq<Entry>) returns (founder: Entry)
    requires Replay(net, es) != EMPTY_COMMUNITY
    ensures founder in es && Opens(net, founder)
    ensures forall o :: o in es && Opens(net, o) ==> NotAfter(founder, o)
    ensures Replay(net, es).donations != []
    ensures Replay(net, es).donations[0]
            == DonationRecord(founder.reporter, founder.payload.amount.value, founder.timestamp, founder.hash)
  {
    var ordered := SortEntries(Relevant(es));
    SortIsOrderedPermutation(Relevant(es));
    hide Fold, Step, SortEntries, Ordered, Smaller;
    var k := FirstOpener(net, ordered);
    founder := ordered[k];
    FirstOpenerFounds(net, ordered, k);
    forall o | o in es && Opens(net, o) ensures NotAfter(founder, o) {
      assert o in ordered;
      var j :| 0 <= j < |ordered| && ordered[j] == o;
      if k < j {
        SortedByTimeThenReporterThenHash(Relevant(es), k, j);
      }
    }
  }

  lemma FirstOpenerFounds(net: Network, s: seq<Entry>, k: nat)
    requires k < |s| && Opens(net, s[k]) && forall i :: 0 <= i < k ==> !Opens(net, s[i])
    ensures Fold(net, EMPTY_COMMUNITY, s).donations != []
    ensures Fold(net, EMPTY_COMMUNITY, s).donations[0]
            == DonationRecord(s[k].reporter, s[k].payload.amount.value, s[k].timestamp, s[k].hash)
  {
    hide Fold, Step;
    var founded := Step(net, EMPTY_COMMUNITY, s[k]);
    OpenerIsRecorded(net, s[k]);
    FoldToFirstOpener(net, s, k);
    FoldConcat(net, EMPTY_COMMUNITY, s[..k + 1], s[k + 1..]);
    assert s[..k + 1] + s[k + 1..] == s;
    RunOnlyExtends(net, founded, s[k + 1..]);
  }

  lemma OpenerIsRecorded(net: Network, e: Entry)
    requires Opens(net, e)
    ensures Step(net, EMPTY_COMMUNITY, e).donations
            == [DonationRecord(e.reporter, e.payload.amount.value, e.timestamp, e.hash)]
  {
  }

  lemma FoldToFirstOpener(net: Network, s: seq<Entry>, k: nat)
    requires k < |s| && forall i :: 0 <= i < k ==> !Opens(net, s[i])
    ensures Fold(net, EMPTY_COMMUNITY, s[..k + 1]) == Step(net, EMPTY_COMMUNITY, s[k])
  {
    hide Step, Opens;
    FoldEmptyIff(net, s[..k]);
    assert s[..k + 1][..k] == s[..k];
  }

  lemma FirstOpener(net: Network, s: seq<Entry>) returns (k: nat)
    requires Fold(net, EMPTY_COMMUNITY, s) != EMPTY_COMMUNITY
    ensures k < |s| && Opens(net, s[k]) && forall i :: 0 <= i < k ==> !Opens(net, s[i])
  {
    FoldEmptyIff(net, s);
    var e :| e in s && Opens(net, e);
    k := 0;
    while !Opens(net, s[k])
      invariant k < |s| && (forall i :: 0 <= i < k ==> !Opens(net, s[i]))
      invariant exists j :: k <= j < |s| && Opens(net, s[j])
      decreases |s| - k
    {
      k := k + 1;
    }
  }

  /** The earlier timestamp founds, the smaller reporter notwithstanding, and its donation caps the other. */
  lemma TimeComesBeforeReporter(net: Network, x: Entry, y: Entry)
    requires net.admission == AdmissionPolicy("", 1, 0, 0, 0, 0)
    requires x == Entry("2", "a", "hx", net.id, Donation(Some(5))) && y == Entry("1", "b", "hy", net.id, Donation(Some(1)))
    ensures Replay(net, [x, y]).members == Replay(net, [y, x]).members == {"b"}
  {
    ReplayOfTwo(net, y, x);
    assert Elements([x, y]) == Elements([y, x]);
    ReplayDependsOnlyOnTheSet(net, [y, x], [x, y]);
    var s := Step(net, EMPTY_COMMUNITY, y);
    assert s.donations == [DonationRecord("b", 1, "1", "hy")] && Total(s.donations[..0]) == 0;
    assert DonationCap(net.admission, s.donations) == 1;
    assert Step(net, s, x) == s;
  }

  /** A view gives a network an empty community exactly when it holds nothing that could open one. */
  lemma ReplayEmptyIff(net: Network, es: seq<Entry>)
    ensures Replay(net, es) == EMPTY_COMMUNITY <==> forall e :: e in es ==> !Opens(net, e)
  {
    SortIsOrderedPermutation(Relevant(es));
    FoldEmptyIff(net, SortEntries(Relevant(es)));
  }

  /** One view gives two different networks one state exactly when it holds nothing that could open either. */
  lemma NetworksAgreeIffEmpty(net: Network, other: Network, es: seq<Entry>)
    requires net.id != other.id && KeysIdentify(Relevant(es))
    ensures Replay(net, es) == Replay(other, es) <==> forall e :: e in es ==> !Opens(net, e) && !Opens(other, e)
  {
    hide Opens;
    ReplayEmptyIff(net, es);
    ReplayEmptyIff(other, es);
    var s := Replay(net, es);
    if s == Replay(other, es) && s != EMPTY_COMMUNITY {
      if s.donations == [] {
        NoDonationsNoState(net, SortEntries(Relevant(es)));
      }
      OneRecordOneNetwork(net, other, es, s.donations[0]);
    }
  }

  lemma OneRecordOneNetwork(net: Network, other: Network, es: seq<Entry>, d: DonationRecord)
    requires KeysIdentify(Relevant(es))
    requires d in Replay(net, es).donations && d in Replay(other, es).donations
    ensures net.id == other.id
  {
    var ordered := SortEntries(Relevant(es));
    SortIsOrderedPermutation(Relevant(es));
    var e1 := DonationSource(net, ordered, d);
    var e2 := DonationSource(other, ordered, d);
    assert SameKey(e1, e2) && e1 in Relevant(es) && e2 in Relevant(es);
  }
}
