/** The few Python string operations that canonicalisation and manifest parsing rest on. */
module Text {
  import opened Collections

  /** `str.isspace`, which is also what `\s` matches. */
  predicate IsSpace(c: char) {
    var n := c as int;
    || 0x09 <= n <= 0x0D || 0x1C <= n <= 0x20 || n == 0x85 || n == 0xA0 || n == 0x1680
    || 0x2000 <= n <= 0x200A || n == 0x2028 || n == 0x2029 || n == 0x202F || n == 0x205F || n == 0x3000
  }

  function Lstrip(s: string): string {
    if s != "" && IsSpace(s[0]) then Lstrip(s[1..]) else s
  }

  function Rstrip(s: string): string {
    if s == "" then ""
    else
      var rest := Rstrip(s[1..]);
      if rest == "" && IsSpace(s[0]) then "" else [s[0]] + rest
  }

  function Strip(s: string): string {
    Rstrip(Lstrip(s))
  }

  function Split(s: string, c: char): (parts: seq<string>)
    ensures parts != []
  {
    if s == "" then [""]
    else
      var rest := Split(s[1..], c);
      if s[0] == c then [""] + rest else [[s[0]] + rest[0]] + rest[1..]
  }

  function Join(parts: seq<string>, c: char): string {
    if parts == [] then ""
    else if |parts| == 1 then parts[0]
    else parts[0] + [c] + Join(parts[1..], c)
  }

  ghost predicate Lacks(s: string, c: char) {
    forall i :: 0 <= i < |s| ==> s[i] != c
  }

  // -------------------------------------------------------------------------
  // Stripping
  // -------------------------------------------------------------------------

  /** Rstrip leaves a text alone exactly when it does not end in white space. */
  lemma {:induction false} RstripFixedIff(s: string)
    ensures Rstrip(s) == s <==> s == "" || !IsSpace(s[|s| - 1])
  {
    if |s| > 1 {
      RstripFixedIff(s[1..]);
      assert s == [s[0]] + s[1..];
    }
  }

  lemma {:induction false} RstripEnds(s: string)
    ensures Rstrip(s) <= s
    ensures Rstrip(s) == "" || !IsSpace(Rstrip(s)[|Rstrip(s)| - 1])
  {
    if s != "" {
      RstripEnds(s[1..]);
      assert s == [s[0]] + s[1..];
    }
  }

  lemma RstripIdempotent(s: string)
    ensures Rstrip(Rstrip(s)) == Rstrip(s)
  {
    RstripEnds(s);
    RstripFixedIff(Rstrip(s));
  }

  ghost predicate AllSpace(s: string) {
    forall i :: 0 <= i < |s| ==> IsSpace(s[i])
  }

  /** White space at the end of a line is invisible. */
  lemma {:induction false} RstripIgnoresBlanks(s: string, blanks: string)
    requires AllSpace(blanks)
    ensures Rstrip(s + blanks) == Rstrip(s)
  {
    if s == "" {
      assert s + blanks == blanks;
      if blanks != "" {
        RstripIgnoresBlanks("", blanks[1..]);
        assert "" + blanks[1..] == blanks[1..];
      }
    } else {
      assert (s + blanks)[1..] == s[1..] + blanks;
      RstripIgnoresBlanks(s[1..], blanks);
    }
  }

  /** Neither end is white space, so stripping changes nothing. */
  predicate Trimmed(s: string) {
    s == "" || (!IsSpace(s[0]) && !IsSpace(s[|s| - 1]))
  }

  lemma StripPadded(s: string)
    requires Trimmed(s)
    ensures Strip(s) == s && Strip(" " + s) == s && Strip(" " + s + " ") == s
  {
    RstripFixedIff(s);
    assert (" " + s)[1..] == s;
    assert (" " + s + " ")[1..] == s + " ";
    RstripIgnoresBlanks(s, " ");
    if s != "" {
      assert (s + " ")[0] == s[0];
      assert Lstrip(s + " ") == s + " ";
    } else {
      assert s + " " == " " && " "[1..] == "";
      assert Lstrip(" ") == "" && Lstrip(s + " ") == "";
    }
  }

  // -------------------------------------------------------------------------
  // Splitting and joining
  // -------------------------------------------------------------------------

  lemma {:induction false} SplitLacking(s: string, c: char)
    requires Lacks(s, c)
    ensures Split(s, c) == [s]
  {
    if s != "" {
      SplitLacking(s[1..], c);
      assert s == [s[0]] + s[1..];
    }
  }

  lemma {:induction false} SplitFirst(first: string, c: char, rest: string)
    requires Lacks(first, c)
    ensures Split(first + [c] + rest, c) == [first] + Split(rest, c)
  {
    var s := first + [c] + rest;
    if first == "" {
      assert s[0] == c && s[1..] == rest;
    } else {
      assert s[1..] == first[1..] + [c] + rest;
      SplitFirst(first[1..], c, rest);
      assert first == [first[0]] + first[1..];
    }
  }

  lemma {:induction false} SplitOfJoin(parts: seq<string>, c: char)
    requires parts != [] && forall p :: p in parts ==> Lacks(p, c)
    ensures Split(Join(parts, c), c) == parts
  {
    if |parts| == 1 {
      SplitLacking(parts[0], c);
    } else {
      SplitOfJoin(parts[1..], c);
      SplitFirst(parts[0], c, Join(parts[1..], c));
    }
  }

  lemma {:induction false} SplitPartsLack(s: string, c: char)
    ensures forall p :: p in Split(s, c) ==> Lacks(p, c)
  {
    if s != "" {
      SplitPartsLack(s[1..], c);
      var rest := Split(s[1..], c);
      assert rest[0] in rest;
      assert forall p :: p in rest[1..] ==> p in rest;
      assert Lacks("", c);
    }
  }

  lemma {:induction false} JoinOfSplit(s: string, c: char)
    ensures Join(Split(s, c), c) == s
  {
    if s != "" {
      JoinOfSplit(s[1..], c);
      var rest := Split(s[1..], c);
      assert s == [s[0]] + s[1..];
      if s[0] == c {
        assert ([""] + rest)[1..] == rest;
      } else {
        assert ([[s[0]] + rest[0]] + rest[1..])[1..] == rest[1..];
        if |rest| > 1 {
          assert Join(rest, c) == rest[0] + [c] + Join(rest[1..], c);
        }
      }
    }
  }

  /** Each line followed by a newline. */
  function Unlines(lines: seq<string>): string {
    if lines == [] then "" else lines[0] + ['\n'] + Unlines(lines[1..])
  }

  lemma {:induction false} SplitOfUnlines(lines: seq<string>)
    requires forall p :: p in lines ==> Lacks(p, '\n')
    ensures Split(Unlines(lines), '\n') == lines + [""]
  {
    if lines != [] {
      SplitOfUnlines(lines[1..]);
      SplitFirst(lines[0], '\n', Unlines(lines[1..]));
    }
  }

  // -------------------------------------------------------------------------
  // Decimal integers
  // -------------------------------------------------------------------------

  predicate IsDigit(c: char) {
    '0' <= c <= '9'
  }

  function DigitOf(n: nat): char
    requires n < 10
  {
    ('0' as int + n) as char
  }

  function PrintNat(n: nat): (s: string)
    ensures s != "" && forall i :: 0 <= i < |s| ==> IsDigit(s[i])
  {
    if n < 10 then [DigitOf(n)] else PrintNat(n / 10) + [DigitOf(n % 10)]
  }

  function PrintInt(n: int): string {
    if n < 0 then "-" + PrintNat(-n) else PrintNat(n)
  }

  /** Digits as `int()` reads them: single underscores may stand between two digits. */
  function ParseNat(s: string): Option<nat> {
    if s == "" || !IsDigit(s[|s| - 1]) then None
    else
      var digit := s[|s| - 1] as int - '0' as int;
      var front := s[..|s| - 1];
      if front == "" then Some(digit)
      else
        match ParseNat(if front[|front| - 1] == '_' then front[..|front| - 1] else front)
        case None => None
        case Some(high) => Some(10 * high + digit)
  }

  /** `int(s)`: surrounding white space and one sign are allowed. */
  function ParseInt(s: string): Option<int> {
    var t := Strip(s);
    if t != "" && t[0] == '-' then
      match ParseNat(t[1..])
      case None => None
      case Some(n) => Some(0 - n as int)
    else ParseNat(if t != "" && t[0] == '+' then t[1..] else t)
  }

  lemma {:induction false} ParseOfPrintNat(n: nat)
    ensures ParseNat(PrintNat(n)) == Some(n)
  {
    if n >= 10 {
      ParseOfPrintNat(n / 10);
      var s := PrintNat(n);
      assert s[..|s| - 1] == PrintNat(n / 10);
    }
  }

  lemma PrintIntTrimmed(n: int)
    ensures Trimmed(PrintInt(n)) && PrintInt(n) != ""
  {
    hide PrintNat;
  }

  lemma ParseOfPrintInt(n: int)
    ensures Trimmed(PrintInt(n)) && PrintInt(n) != ""
    ensures ParseInt(PrintInt(n)) == Some(n)
  {
    var s := PrintInt(n);
    PrintIntTrimmed(n);
    StripPadded(s);
    ParseOfPrintNat(if n < 0 then -n else n);
    hide Strip, Trimmed, IsSpace, ParseNat, PrintNat;
    if n < 0 {
      assert s[0] == '-' && s[1..] == PrintNat(-n);
    } else {
      assert IsDigit(s[0]);
    }
  }
}
