/** Code-point order on strings, as Python compares `str` values. */
module Ordering {

  predicate StringLeq(a: string, b: string) {
    if a == "" then true
    else if b == "" then false
    else if a[0] != b[0] then a[0] < b[0]
    else StringLeq(a[1..], b[1..])
  }

  /** `a` is smaller: a proper prefix of `b`, or the smaller character where the two first differ. */
  ghost predicate Smaller(a: string, b: string) {
    exists n: nat :: n <= |a| && n < |b| && a[..n] == b[..n] && (n == |a| || a[n] < b[n])
  }

  lemma {:induction false} StringLeqIff(a: string, b: string)
    ensures StringLeq(a, b) <==> a == b || Smaller(a, b)
  {
    if a == "" {
      assert b != "" ==> a[..0] == b[..0];
    } else if b != "" {
      assert a == [a[0]] + a[1..] && b == [b[0]] + b[1..];
      if a[0] != b[0] {
        DifferAtOnce(a, b);
      } else {
        StringLeqIff(a[1..], b[1..]);
        SameFirstChar(a, b);
      }
      hide Smaller;
    }
  }

  lemma DifferAtOnce(a: string, b: string)
    requires a != "" && b != "" && a[0] != b[0]
    ensures Smaller(a, b) <==> a[0] < b[0]
  {
    assert a[..0] == b[..0];
    forall n: nat | 0 < n <= |a| && n < |b| ensures a[..n] != b[..n] {
      assert a[..n][0] == a[0] && b[..n][0] == b[0];
    }
  }

  lemma SameFirstChar(a: string, b: string)
    requires a != "" && b != "" && a[0] == b[0]
    ensures Smaller(a, b) <==> Smaller(a[1..], b[1..])
  {
    var s, t := a[1..], b[1..];
    forall n: nat | n <= |s| && n <= |t| ensures s[..n] == t[..n] <==> a[..n + 1] == b[..n + 1] {
      assert a[..n + 1] == [a[0]] + s[..n] && b[..n + 1] == [b[0]] + t[..n];
      assert a[..n + 1][1..] == s[..n] && b[..n + 1][1..] == t[..n];
    }
    if Smaller(s, t) {
      var n: nat :| n <= |s| && n < |t| && s[..n] == t[..n] && (n == |s| || s[n] < t[n]);
      assert a[..n + 1] == b[..n + 1];
    }
    if Smaller(a, b) {
      var n: nat :| n <= |a| && n < |b| && a[..n] == b[..n] && (n == |a| || a[n] < b[n]);
      assert n > 0 && s[..n - 1] == t[..n - 1];
    }
  }

  lemma NotSmaller(a: string, b: string)
    ensures StringLeq(a, b) ==> !Smaller(b, a)
  {
    hide StringLeq, Smaller;
    StringLeqIff(b, a);
    if StringLeq(a, b) && StringLeq(b, a) {
      StringAntisymmetric(a, b);
    }
    NotBelowItself(a);
  }

  lemma NotBelowItself(a: string)
    ensures !Smaller(a, a)
  {
  }

  lemma {:induction false} StringTotal(a: string, b: string)
    ensures StringLeq(a, b) || StringLeq(b, a)
  {
    if a != "" && b != "" && a[0] == b[0] {
      StringTotal(a[1..], b[1..]);
    }
  }

  lemma {:induction false} StringAntisymmetric(a: string, b: string)
    requires StringLeq(a, b) && StringLeq(b, a)
    ensures a == b
  {
    if a != "" && b != "" {
      StringAntisymmetric(a[1..], b[1..]);
      assert a == [a[0]] + a[1..] && b == [b[0]] + b[1..];
    }
  }

  lemma {:induction false} StringTransitive(a: string, b: string, c: string)
    requires StringLeq(a, b) && StringLeq(b, c)
    ensures StringLeq(a, c)
  {
    if a != "" && a[0] == b[0] == c[0] {
      StringTransitive(a[1..], b[1..], c[1..]);
    }
  }

  lemma StringReflexive(s: string)
    ensures StringLeq(s, s)
  {
    StringTotal(s, s);
  }
}
