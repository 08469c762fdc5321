/** Signed-log entries as replay sees them, and the order replay sorts them into. */
module Entries {
  import opened Collections
  import opened Ordering

  /**
   * The three community actions and everything else.  `None` stands for an amount that is missing
   * or is not an integer; the empty string stands for a text field that is missing or not a string.
   */
  datatype Payload =
    | Donation(amount: Option<int>)
    | Purchase(cost: Option<int>)
    | Provision(intentHash: string, url: string, pubkey: string)
    | Other

  datatype Entry = Entry(timestamp: string, reporter: string, hash: string, network: string, payload: Payload)

  predicate SameKey(a: Entry, b: Entry) {
    a.timestamp == b.timestamp && a.reporter == b.reporter && a.hash == b.hash
  }

  /** Python's tuple comparison on (timestamp, reporter_id, entry_hash). */
  predicate KeyLeq(a: Entry, b: Entry) {
    if a.timestamp != b.timestamp then StringLeq(a.timestamp, b.timestamp)
    else if a.reporter != b.reporter then StringLeq(a.reporter, b.reporter)
    else StringLeq(a.hash, b.hash)
  }

  lemma KeyTotal(a: Entry, b: Entry)
    ensures KeyLeq(a, b) || KeyLeq(b, a)
  {
    StringTotal(a.timestamp, b.timestamp);
    StringTotal(a.reporter, b.reporter);
    StringTotal(a.hash, b.hash);
  }

  lemma KeyAntisymmetric(a: Entry, b: Entry)
    requires KeyLeq(a, b) && KeyLeq(b, a)
    ensures SameKey(a, b)
  {
    if a.timestamp != b.timestamp {
      StringAntisymmetric(a.timestamp, b.timestamp);
    } else if a.reporter != b.reporter {
      StringAntisymmetric(a.reporter, b.reporter);
    } else {
      StringAntisymmetric(a.hash, b.hash);
    }
  }

  lemma KeyTransitive(a: Entry, b: Entry, c: Entry)
    requires KeyLeq(a, b) && KeyLeq(b, c)
    ensures KeyLeq(a, c)
  {
    if a.timestamp != b.timestamp || b.timestamp != c.timestamp {
      StringTransitiveOrEqual(a.timestamp, b.timestamp, c.timestamp);
    } else if a.reporter != b.reporter || b.reporter != c.reporter {
      StringTransitiveOrEqual(a.reporter, b.reporter, c.reporter);
    } else {
      StringTransitive(a.hash, b.hash, c.hash);
    }
  }

  // Two comparisons, at least one of them strict, compose to a strict one.
  lemma StringTransitiveOrEqual(a: string, b: string, c: string)
    requires a == b || StringLeq(a, b)
    requires b == c || StringLeq(b, c)
    requires a != b || b != c
    ensures a != c && StringLeq(a, c)
  {
    if a != b && b != c {
      StringTransitive(a, b, c);
      if a == c {
        StringAntisymmetric(a, b);
      }
    }
  }

  // -------------------------------------------------------------------------
  // Sorting
  // -------------------------------------------------------------------------

  ghost predicate Ordered(s: seq<Entry>) {
    forall i, j :: 0 <= i < j < |s| ==> KeyLeq(s[i], s[j])
  }

  function Insert(e: Entry, s: seq<Entry>): seq<Entry> {
    if s == [] then [e]
    else if KeyLeq(e, s[0]) then [e] + s
    else [s[0]] + Insert(e, s[1..])
  }

  /** The stable sort that Python's `sorted` performs. */
  function SortEntries(es: seq<Entry>): seq<Entry> {
    if es == [] then [] else Insert(es[0], SortEntries(es[1..]))
  }

  lemma {:induction false} InsertPermutes(e: Entry, s: seq<Entry>)
    ensures multiset(Insert(e, s)) == multiset(s) + multiset{e}
  {
    if s != [] && !KeyLeq(e, s[0]) {
      InsertPermutes(e, s[1..]);
      assert s == [s[0]] + s[1..];
    }
  }

  lemma {:induction false} InsertOrdered(e: Entry, s: seq<Entry>)
    requires Ordered(s)
    ensures Ordered(Insert(e, s))
  {
    if s == [] {
    } else if KeyLeq(e, s[0]) {
      forall i | 0 <= i < |s| ensures KeyLeq(e, s[i]) {
        if i > 0 { KeyTransitive(e, s[0], s[i]); }
      }
    } else {
      KeyTotal(e, s[0]);
      InsertOrdered(e, s[1..]);
      InsertPermutes(e, s[1..]);
      var t := Insert(e, s[1..]);
      forall j | 0 <= j < |t| ensures KeyLeq(s[0], t[j]) {
        assert t[j] in multiset(t);
        assert t[j] == e || t[j] in s[1..];
      }
    }
  }

  /** `sorted` returns a permutation of its input in key order. */
  lemma {:induction false} SortIsOrderedPermutation(es: seq<Entry>)
    ensures Ordered(SortEntries(es))
    ensures multiset(SortEntries(es)) == multiset(es)
    ensures forall x :: x in SortEntries(es) <==> x in es
  {
    if es != [] {
      SortIsOrderedPermutation(es[1..]);
      InsertOrdered(es[0], SortEntries(es[1..]));
      InsertPermutes(es[0], SortEntries(es[1..]));
      assert es == [es[0]] + es[1..];
    }
    SamePermutationSameMembers(SortEntries(es), es);
  }

  /** The first of timestamp, reporter and hash that tells two sorted entries apart is smaller in the earlier one. */
  lemma SortedByTimeThenReporterThenHash(es: seq<Entry>, i: nat, j: nat)
    requires i < j < |SortEntries(es)|
    ensures var a, b := SortEntries(es)[i], SortEntries(es)[j];
            if a.timestamp != b.timestamp then Smaller(a.timestamp, b.timestamp)
            else if a.reporter != b.reporter then Smaller(a.reporter, b.reporter)
            else a.hash == b.hash || Smaller(a.hash, b.hash)
  {
    SortIsOrderedPermutation(es);
    var a, b := SortEntries(es)[i], SortEntries(es)[j];
    StringLeqIff(a.timestamp, b.timestamp);
    StringLeqIff(a.reporter, b.reporter);
    StringLeqIff(a.hash, b.hash);
  }

  lemma SamePermutationSameMembers<T>(a: seq<T>, b: seq<T>)
    requires multiset(a) == multiset(b)
    ensures forall x :: x in a <==> x in b
  {
    assert forall x :: x in a <==> x in multiset(a);
    assert forall x :: x in b <==> x in multiset(b);
  }

  /** Entries of `s` with the key of `k`, in the order `s` has them. */
  ghost function WithKey(k: Entry, s: seq<Entry>): seq<Entry> {
    if s == [] then []
    else (if SameKey(k, s[0]) then [s[0]] else []) + WithKey(k, s[1..])
  }

  lemma {:induction false} InsertWithKey(k: Entry, e: Entry, s: seq<Entry>)
    requires Ordered(s)
    ensures WithKey(k, Insert(e, s)) == (if SameKey(k, e) then [e] else []) + WithKey(k, s)
  {
    if s != [] {
      if KeyLeq(e, s[0]) {
        assert ([e] + s)[1..] == s;
      } else {
        var t := Insert(e, s[1..]);
        InsertWithKey(k, e, s[1..]);
        assert ([s[0]] + t)[1..] == t;
        if SameKey(k, e) && SameKey(k, s[0]) {
          KeyTotal(e, s[0]);
        }
      }
    }
  }

  /** The sort is stable: entries with equal keys keep their input order. */
  lemma {:induction false} SortIsStable(k: Entry, es: seq<Entry>)
    ensures WithKey(k, SortEntries(es)) == WithKey(k, es)
  {
    if es != [] {
      SortIsStable(k, es[1..]);
      SortIsOrderedPermutation(es[1..]);
      InsertWithKey(k, es[0], SortEntries(es[1..]));
    }
  }

  /** Sorting distributes over a concatenation whose halves are already apart. */
  lemma {:induction false} SortOfSeparated(a: seq<Entry>, b: seq<Entry>)
    requires forall x, y :: x in a && y in b ==> KeyLeq(x, y)
    ensures SortEntries(a + b) == SortEntries(a) + SortEntries(b)
  {
    if a == [] {
      assert a + b == b;
    } else {
      assert (a + b)[1..] == a[1..] + b;
      SortOfSeparated(a[1..], b);
      SortIsOrderedPermutation(b);
      InsertBefore(a[0], SortEntries(a[1..]), SortEntries(b));
    }
  }

  lemma {:induction false} InsertBefore(e: Entry, s: seq<Entry>, t: seq<Entry>)
    requires forall y :: y in t ==> KeyLeq(e, y)
    ensures Insert(e, s + t) == Insert(e, s) + t
  {
    if s == [] {
      assert s + t == t;
    } else if KeyLeq(e, s[0]) {
      assert [e] + (s + t) == [e] + s + t;
    } else {
      assert (s + t)[1..] == s[1..] + t;
      InsertBefore(e, s[1..], t);
    }
  }
}
