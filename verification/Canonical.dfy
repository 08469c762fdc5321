/** Canonical markdown: the text whose hash names overlays, manifests and communities. */
module Canonical {
  import opened Text

  // -------------------------------------------------------------------------
  // Specification
  // -------------------------------------------------------------------------

  /** `text.replace("\r\n", "\n")`. */
  function ReplaceCrlf(s: string): string {
    if s == "" then ""
    else if |s| >= 2 && s[0] == '\r' && s[1] == '\n' then "\n" + ReplaceCrlf(s[2..])
    else [s[0]] + ReplaceCrlf(s[1..])
  }

  function RstripAll(lines: seq<string>): (r: seq<string>)
    ensures |r| == |lines| && forall i :: 0 <= i < |r| ==> r[i] == Rstrip(lines[i])
  {
    if lines == [] then [] else [Rstrip(lines[0])] + RstripAll(lines[1..])
  }

  function DropTrailingEmpty(lines: seq<string>): seq<string> {
    if lines != [] && lines[|lines| - 1] == "" then DropTrailingEmpty(lines[..|lines| - 1]) else lines
  }

  function Canon(text: string): string {
    Join(DropTrailingEmpty(RstripAll(Split(ReplaceCrlf(text), '\n'))), '\n')
  }

  method CanonicalizeMd(text: string) returns (canonical: string)
    ensures canonical == Canon(text)
  {
    var raw := Split(ReplaceCrlf(text), '\n');
    var lines := [];
    for i := 0 to |raw|
      invariant lines == RstripAll(raw[..i])
    {
      lines := lines + [Rstrip(raw[i])];
    }
    assert raw[..|raw|] == raw;
    while lines != [] && lines[|lines| - 1] == ""
      invariant DropTrailingEmpty(lines) == DropTrailingEmpty(RstripAll(raw))
    {
      lines := lines[..|lines| - 1];
    }
    canonical := Join(lines, '\n');
  }

  // -------------------------------------------------------------------------
  // What canonicalisation sees
  // -------------------------------------------------------------------------

  lemma SplitCons(c: char, rest: string)
    ensures var parts := Split(rest, '\n');
            Split([c] + rest, '\n') == if c == '\n' then [""] + parts else [[c] + parts[0]] + parts[1..]
  {
    assert ([c] + rest)[1..] == rest;
  }

  /** Lines that look alike once stripped still do so after a character is put before the first. */
  lemma StrippedAlike(c: char, a: seq<string>, b: seq<string>)
    requires a != [] && b != [] && RstripAll(a) == RstripAll(b)
    ensures RstripAll([[c] + a[0]] + a[1..]) == RstripAll([[c] + b[0]] + b[1..])
    ensures RstripAll([""] + a) == RstripAll([""] + b)
  {
    assert ([c] + a[0])[1..] == a[0] && ([c] + b[0])[1..] == b[0];
    assert Rstrip(a[0]) == RstripAll(a)[0] == RstripAll(b)[0] == Rstrip(b[0]);
    assert Rstrip([c] + a[0]) == Rstrip([c] + b[0]);
    var p, q := RstripAll([[c] + a[0]] + a[1..]), RstripAll([[c] + b[0]] + b[1..]);
    hide Rstrip;
    assert forall i :: 1 <= i < |a| ==> p[i] == RstripAll(a)[i] && q[i] == RstripAll(b)[i];
  }

  /** The carriage-return step is absorbed by stripping: only the stripped lines count. */
  lemma {:induction false} CrlfAbsorbed(s: string)
    ensures RstripAll(Split(ReplaceCrlf(s), '\n')) == RstripAll(Split(s, '\n'))
  {
    if s == "" {
    } else if |s| >= 2 && s[0] == '\r' && s[1] == '\n' {
      CrlfAbsorbed(s[2..]);
      assert s == "\r\n" + s[2..] && ReplaceCrlf(s) == ['\n'] + ReplaceCrlf(s[2..]);
      hide Split, RstripAll, ReplaceCrlf;
      CrlfLine(s[2..]);
      SplitCons('\n', ReplaceCrlf(s[2..]));
      StrippedAlike('\n', Split(ReplaceCrlf(s[2..]), '\n'), Split(s[2..], '\n'));
    } else {
      CrlfAbsorbed(s[1..]);
      assert s == [s[0]] + s[1..] && ReplaceCrlf(s) == [s[0]] + ReplaceCrlf(s[1..]);
      hide Split, RstripAll, ReplaceCrlf;
      SplitCons(s[0], s[1..]);
      SplitCons(s[0], ReplaceCrlf(s[1..]));
      StrippedAlike(s[0], Split(ReplaceCrlf(s[1..]), '\n'), Split(s[1..], '\n'));
    }
  }

  lemma CrlfLine(rest: string)
    ensures RstripAll(Split("\r\n" + rest, '\n')) == RstripAll([""] + Split(rest, '\n'))
  {
    SplitFirst("\r", '\n', rest);
    assert "\r" + ['\n'] + rest == "\r\n" + rest;
    assert "\r"[1..] == "";
    assert Rstrip("\r") == "" == Rstrip("");
  }

  /** The stripped lines of a text, up to trailing empty ones: all that canonicalisation keeps. */
  function VisibleLines(text: string): seq<string> {
    DropTrailingEmpty(RstripAll(Split(text, '\n')))
  }

  lemma CanonIsVisibleLines(text: string)
    ensures Canon(text) == Join(VisibleLines(text), '\n')
  {
    CrlfAbsorbed(text);
  }

  lemma {:induction false} DropTrailingEmptyKeeps(lines: seq<string>)
    ensures DropTrailingEmpty(lines) <= lines
    ensures DropTrailingEmpty(lines) == [] || DropTrailingEmpty(lines)[|DropTrailingEmpty(lines)| - 1] != ""
    ensures DropTrailingEmpty(lines) == lines <==> lines == [] || lines[|lines| - 1] != ""
  {
    if lines != [] && lines[|lines| - 1] == "" {
      DropTrailingEmptyKeeps(lines[..|lines| - 1]);
    }
  }

  lemma {:induction false} RstripLacks(s: string, c: char)
    requires Lacks(s, c)
    ensures Lacks(Rstrip(s), c)
  {
    RstripEnds(s);
  }

  /** The visible lines are stripped, free of line breaks, and do not end with an empty one. */
  lemma VisibleLinesShape(text: string)
    ensures forall p :: p in VisibleLines(text) ==> Lacks(p, '\n') && Rstrip(p) == p
    ensures DropTrailingEmpty(VisibleLines(text)) == VisibleLines(text)
  {
    var raw := Split(text, '\n');
    SplitPartsLack(text, '\n');
    DropTrailingEmptyKeeps(RstripAll(raw));
    DropTrailingEmptyKeeps(VisibleLines(text));
    forall p | p in VisibleLines(text) ensures Lacks(p, '\n') && Rstrip(p) == p {
      var i :| 0 <= i < |VisibleLines(text)| && VisibleLines(text)[i] == p;
      assert p == RstripAll(raw)[i] == Rstrip(raw[i]) && raw[i] in raw;
      RstripLacks(raw[i], '\n');
      RstripIdempotent(raw[i]);
    }
  }

  lemma {:induction false} RstripAllFixed(lines: seq<string>)
    requires forall p :: p in lines ==> Rstrip(p) == p
    ensures RstripAll(lines) == lines
  {
  }

  lemma JoinedVisibleLines(lines: seq<string>)
    requires forall p :: p in lines ==> Lacks(p, '\n') && Rstrip(p) == p
    requires DropTrailingEmpty(lines) == lines
    ensures VisibleLines(Join(lines, '\n')) == lines
  {
    if lines == [] {
      assert Split("", '\n') == [""] && RstripAll([""]) == [""];
      assert [""][..0] == [];
    } else {
      SplitOfJoin(lines, '\n');
      RstripAllFixed(lines);
    }
  }

  // -------------------------------------------------------------------------
  // Results
  // -------------------------------------------------------------------------

  lemma CanonVisibleLines(text: string)
    ensures VisibleLines(Canon(text)) == VisibleLines(text)
  {
    CanonIsVisibleLines(text);
    VisibleLinesShape(text);
    JoinedVisibleLines(VisibleLines(text));
  }

  lemma CanonIdempotent(text: string)
    ensures Canon(Canon(text)) == Canon(text)
  {
    CanonVisibleLines(text);
    CanonIsVisibleLines(text);
    CanonIsVisibleLines(Canon(text));
  }

  /** Two texts share a canonical form exactly when they show the same lines. */
  lemma SameCanonIff(a: string, b: string)
    ensures Canon(a) == Canon(b) <==> VisibleLines(a) == VisibleLines(b)
  {
    CanonIsVisibleLines(a);
    CanonIsVisibleLines(b);
    CanonVisibleLines(a);
    CanonVisibleLines(b);
  }

  /** A text is its own canonical form exactly when no line ends in white space and no empty line ends it. */
  lemma CanonicalIff(text: string)
    ensures Canon(text) == text <==>
              text == "" || (var lines := Split(text, '\n');
                             lines[|lines| - 1] != "" && forall p :: p in lines ==> p == "" || !IsSpace(p[|p| - 1]))
  {
    var lines := Split(text, '\n');
    JoinOfSplit(text, '\n');
    CanonIsVisibleLines(text);
    if Canon(text) == text && text != "" {
      VisibleLinesShape(text);
      if VisibleLines(text) != [] {
        SplitOfJoin(VisibleLines(text), '\n');
      }
      DropTrailingEmptyKeeps(lines);
      forall p | p in lines ensures p == "" || !IsSpace(p[|p| - 1]) {
        RstripFixedIff(p);
      }
    }
    if text == "" {
      assert RstripAll([""]) == [""] && [""][..0] == [];
    } else if lines[|lines| - 1] != "" && forall p :: p in lines ==> p == "" || !IsSpace(p[|p| - 1]) {
      forall p | p in lines ensures Rstrip(p) == p {
        RstripFixedIff(p);
      }
      RstripAllFixed(lines);
      DropTrailingEmptyKeeps(lines);
    }
  }

  /** Blanks before a line break, a carriage return among them, are invisible. */
  lemma BlankBeforeBreakInvisible(before: string, blanks: string, after: string)
    requires AllSpace(blanks) && Lacks(blanks, '\n')
    ensures Canon(before + blanks + "\n" + after) == Canon(before + "\n" + after)
  {
    SplitAround(before + blanks, after);
    SplitAround(before, after);
    SplitTail(before, blanks);
    SameStrippedLines(before, blanks);
    SameCanonIff(before + blanks + "\n" + after, before + "\n" + after);
    RstripAllConcat(Split(before + blanks, '\n'), Split(after, '\n'));
    RstripAllConcat(Split(before, '\n'), Split(after, '\n'));
  }

  lemma {:induction false} SplitAround(a: string, b: string)
    ensures Split(a + "\n" + b, '\n') == Split(a, '\n') + Split(b, '\n')
  {
    if a == "" {
      assert a + "\n" + b == ['\n'] + b;
      SplitCons('\n', b);
    } else {
      hide Split;
      SplitAround(a[1..], b);
      var rest := a[1..] + "\n" + b;
      SplitCons(a[0], a[1..]);
      SplitCons(a[0], rest);
      assert a == [a[0]] + a[1..] && a + "\n" + b == [a[0]] + rest;
      HeadedConcat(a[0], Split(a[1..], '\n'), Split(b, '\n'));
      hide *;
    }
  }

  lemma HeadedConcat(c: char, p: seq<string>, q: seq<string>)
    requires p != []
    ensures [""] + (p + q) == ([""] + p) + q
    ensures [[c] + (p + q)[0]] + (p + q)[1..] == ([[c] + p[0]] + p[1..]) + q
  {
    assert (p + q)[1..] == p[1..] + q;
  }

  /** The same parts, with the last one longer. */
  ghost predicate LastGrown(p: seq<string>, q: seq<string>, suffix: string) {
    && p != [] && |q| == |p|
    && q[|q| - 1] == p[|p| - 1] + suffix
    && forall i :: 0 <= i < |p| - 1 ==> q[i] == p[i]
  }

  lemma LastGrownHeaded(c: char, p: seq<string>, q: seq<string>, suffix: string)
    requires LastGrown(p, q, suffix)
    ensures LastGrown([""] + p, [""] + q, suffix)
    ensures LastGrown([[c] + p[0]] + p[1..], [[c] + q[0]] + q[1..], suffix)
  {
    assert [c] + (p[0] + suffix) == ([c] + p[0]) + suffix;
  }

  /** A suffix without line breaks only lengthens the last line. */
  lemma {:induction false} SplitTail(a: string, suffix: string)
    requires Lacks(suffix, '\n')
    ensures LastGrown(Split(a, '\n'), Split(a + suffix, '\n'), suffix)
  {
    if a == "" {
      assert a + suffix == suffix;
      SplitLacking(suffix, '\n');
      assert Split("", '\n') == [""] && "" + suffix == suffix;
    } else {
      SplitTail(a[1..], suffix);
      SplitCons(a[0], a[1..]);
      SplitCons(a[0], a[1..] + suffix);
      assert a == [a[0]] + a[1..] && a + suffix == [a[0]] + (a[1..] + suffix);
      LastGrownHeaded(a[0], Split(a[1..], '\n'), Split(a[1..] + suffix, '\n'), suffix);
      hide *;
    }
  }

  lemma SameStrippedLines(a: string, blanks: string)
    requires AllSpace(blanks) && Lacks(blanks, '\n')
    ensures RstripAll(Split(a + blanks, '\n')) == RstripAll(Split(a, '\n'))
  {
    SplitTail(a, blanks);
    var p := Split(a, '\n');
    RstripIgnoresBlanks(p[|p| - 1], blanks);
    hide Split, Rstrip, Lacks, AllSpace;
    StrippedLastGrown(p, Split(a + blanks, '\n'), blanks);
  }

  lemma StrippedLastGrown(p: seq<string>, q: seq<string>, suffix: string)
    requires LastGrown(p, q, suffix) && Rstrip(p[|p| - 1] + suffix) == Rstrip(p[|p| - 1])
    ensures RstripAll(q) == RstripAll(p)
  {
    hide Rstrip, RstripAll;
    var r, s := RstripAll(p), RstripAll(q);
    forall i | 0 <= i < |p| ensures r[i] == s[i] {
    }
  }

  lemma RstripAllConcat(a: seq<string>, b: seq<string>)
    ensures RstripAll(a + b) == RstripAll(a) + RstripAll(b)
  {
  }

  /** Line endings are invisible: the CRLF form of a text names the same document. */
  function ToCrlf(s: string): string {
    if s == "" then "" else (if s[0] == '\n' then "\r\n" else [s[0]]) + ToCrlf(s[1..])
  }

  lemma CrlfInvisible(text: string)
    ensures Canon(ToCrlf(text)) == Canon(text)
  {
    ToCrlfLines(text);
    SameCanonIff(ToCrlf(text), text);
  }

  /** The CRLF form puts a carriage return before each line break and nothing anywhere else. */
  lemma {:induction false} ToCrlfBreaks(line: string, rest: string)
    requires Lacks(line, '\n')
    ensures ToCrlf(line) == line
    ensures ToCrlf(line + "\n" + rest) == line + "\r\n" + ToCrlf(rest)
  {
    var s := line + "\n" + rest;
    if line == "" {
      assert s[0] == '\n' && s[1..] == rest;
    } else {
      assert s[1..] == line[1..] + "\n" + rest && line == [line[0]] + line[1..];
      ToCrlfBreaks(line[1..], rest);
    }
  }

  lemma {:induction false} ToCrlfLines(s: string)
    ensures RstripAll(Split(ToCrlf(s), '\n')) == RstripAll(Split(s, '\n'))
  {
    if s != "" {
      ToCrlfLines(s[1..]);
      var rest := ToCrlf(s[1..]);
      SplitCons(s[0], s[1..]);
      assert s == [s[0]] + s[1..];
      hide Split, RstripAll;
      StrippedAlike(s[0], Split(rest, '\n'), Split(s[1..], '\n'));
      if s[0] == '\n' {
        CrlfLine(rest);
      } else {
        SplitCons(s[0], rest);
      }
    }
  }

  /** White space of any kind after the last visible character is invisible. */
  lemma {:induction false} TrailingSpaceInvisible(text: string, tail: string)
    requires AllSpace(tail)
    ensures Canon(text + tail) == Canon(text)
    decreases |tail|
  {
    if tail == "" {
      assert text + tail == text;
    } else {
      var c, init := tail[|tail| - 1], tail[..|tail| - 1];
      TrailingSpaceInvisible(text, init);
      assert text + tail == (text + init) + [c];
      OneTrailingSpaceInvisible(text + init, c);
    }
  }

  lemma OneTrailingSpaceInvisible(t: string, c: char)
    requires IsSpace(c)
    ensures Canon(t + [c]) == Canon(t)
  {
    SameCanonIff(t + [c], t);
    if c == '\n' {
      SplitAround(t, "");
      assert t + "\n" + "" == t + [c];
      RstripAllConcat(Split(t, '\n'), [""]);
      assert RstripAll([""]) == [""];
      var lines := RstripAll(Split(t, '\n'));
      assert (lines + [""])[..|lines|] == lines;
    } else {
      SameStrippedLines(t, [c]);
    }
  }
}
