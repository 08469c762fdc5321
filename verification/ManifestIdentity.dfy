/** A network is named by the hash of its canonical manifest: when equal names mean equal manifests. */
module ManifestIdentity {
  import opened Collections
  import opened Text
  import opened Canonical
  import opened ManifestSyntax
  import opened ManifestRoundTrip

  /** Blanks at the end of this line decide nothing: it is no untitled heading and no bullet with a blank value. */
  predicate Plain(line: string) {
    && !(IsHeading(line) && Strip(line[2..]) == "")
    && !(ParseKv(line).Some? && Strip(ParseKv(line).value.1) == "")
  }

  ghost predicate AllPlain(lines: seq<string>) {
    forall line :: line in lines ==> Plain(line)
  }

  // -------------------------------------------------------------------------
  // Blanks at the end of one line
  // -------------------------------------------------------------------------

  /** Nothing, or a text that ends visibly. */
  predicate Ends(s: string) {
    s == "" || !IsSpace(s[|s| - 1])
  }

  lemma {:induction false} SplitOffBlanks(line: string) returns (blanks: string)
    ensures line == Rstrip(line) + blanks && AllSpace(blanks) && Ends(Rstrip(line))
  {
    RstripEnds(line);
    if line == "" {
      blanks := "";
    } else {
      var tail := SplitOffBlanks(line[1..]);
      if Rstrip(line) == "" {
        blanks := [line[0]] + tail;
      } else {
        blanks := tail;
        assert line == [line[0]] + line[1..];
      }
    }
  }

  lemma {:induction false} LstripBlanks(blanks: string)
    requires AllSpace(blanks)
    ensures Lstrip(blanks) == ""
  {
    if blanks != "" {
      LstripBlanks(blanks[1..]);
    }
  }

  lemma {:induction false} LstripBefore(s: string, blanks: string)
    requires Ends(s) && AllSpace(blanks)
    ensures Ends(Lstrip(s)) && (s == "" <==> Lstrip(s) == "")
    ensures Lstrip(s + blanks) == if s == "" then "" else Lstrip(s) + blanks
  {
    if s == "" {
      assert s + blanks == blanks;
      LstripBlanks(blanks);
    } else if IsSpace(s[0]) {
      assert (s + blanks)[1..] == s[1..] + blanks;
      LstripBefore(s[1..], blanks);
    }
  }

  lemma EndsDrop(s: string, n: nat, blanks: string)
    requires Ends(s) && n <= |s|
    ensures Ends(s[n..]) && (s + blanks)[n..] == s[n..] + blanks
  {
  }

  lemma StripBefore(s: string, blanks: string)
    requires Ends(s) && AllSpace(blanks)
    ensures Strip(s + blanks) == Strip(s) && (s != "" ==> Strip(s) != "")
  {
    LstripBefore(s, blanks);
    RstripFixedIff(Lstrip(s));
    if s != "" {
      RstripIgnoresBlanks(Lstrip(s), blanks);
    }
  }

  lemma {:induction false} WordPrefixBefore(s: string, blanks: string)
    requires AllSpace(blanks)
    ensures WordPrefix(s + blanks) == WordPrefix(s)
  {
    if s == "" {
      assert s + blanks == blanks;
      assert blanks != "" ==> !IsWord(blanks[0]);
    } else {
      assert (s + blanks)[1..] == s[1..] + blanks;
      WordPrefixBefore(s[1..], blanks);
    }
  }

  /** What follows the dash of a bullet, and what follows the colon. */
  lemma ParseKvBefore(s: string, blanks: string)
    requires Ends(s) && AllSpace(blanks)
    ensures ParseKv(s + blanks) == ParseKv(s)
         || (ParseKv(s + blanks).Some? && Strip(ParseKv(s + blanks).value.1) == "")
    ensures ParseKv(s).Some? ==> Strip(ParseKv(s).value.1) != ""
  {
    LstripBefore(s, blanks);
    var dashed := Lstrip(s);
    if dashed != "" && dashed[0] == '-' {
      EndsDrop(dashed, 1, blanks);
      LstripBefore(dashed[1..], blanks);
      var keyed := Lstrip(dashed[1..]);
      if dashed[1..] == "" {
      } else {
        WordPrefixBefore(keyed, blanks);
        var key := WordPrefix(keyed);
        EndsDrop(keyed, |key|, blanks);
        LstripBefore(keyed[|key|..], blanks);
        var colon := Lstrip(keyed[|key|..]);
        if colon != "" {
          EndsDrop(colon, 1, blanks);
          hide Lstrip, WordPrefix;
          ValueBefore(colon, blanks);
        }
      }
    }
  }

  /** The value part alone: visible text is unchanged, a missing value becomes a blank one. */
  lemma ValueBefore(colon: string, blanks: string)
    requires colon != "" && Ends(colon) && AllSpace(blanks)
    ensures (colon + blanks)[0] == colon[0] && (colon + blanks)[1..] == colon[1..] + blanks
    ensures |colon| >= 2 ==> Strip(colon[1..] + blanks) == Strip(colon[1..]) != "" && Strip(Strip(colon[1..])) != ""
    ensures |colon| == 1 && blanks != "" ==>
              Strip(colon[1..] + blanks) == "" && Strip([(colon + blanks)[|colon + blanks| - 1]]) == ""
  {
    EndsDrop(colon, 1, blanks);
    StripBefore(colon[1..], blanks);
    StripShape(colon[1..]);
    StripPadded(Strip(colon[1..]));
    if |colon| == 1 && blanks != "" {
      assert colon[1..] + blanks == blanks;
      LstripBlanks(blanks);
      var last := [(colon + blanks)[|colon + blanks| - 1]];
      assert last == [blanks[|blanks| - 1]];
      LstripBlanks(last);
    }
  }

  lemma Sha1Before(s: string, blanks: string)
    requires Ends(s) && AllSpace(blanks)
    ensures Sha1Of(s + blanks) == Sha1Of(s)
  {
    hide Lstrip, IsSha1, IsWord;
    LstripBefore(s, blanks);
    var dashed := Lstrip(s);
    if dashed != "" && dashed[0] == '-' {
      EndsDrop(dashed, 1, blanks);
      LstripBefore(dashed[1..], blanks);
      var keyed := Lstrip(dashed[1..]);
      PrefixBefore("sha1", keyed, blanks);
      if "sha1" <= keyed {
        EndsDrop(keyed, 4, blanks);
        LstripBefore(keyed[4..], blanks);
        var colon := Lstrip(keyed[4..]);
        if colon != "" && colon[0] == ':' {
          EndsDrop(colon, 1, blanks);
          LstripBefore(colon[1..], blanks);
          DigitsBefore(Lstrip(colon[1..]), blanks);
        }
      }
    }
  }

  lemma PrefixBefore(word: string, s: string, blanks: string)
    requires AllSpace(blanks) && forall i :: 0 <= i < |word| ==> !IsSpace(word[i])
    ensures word <= s + blanks <==> word <= s
  {
    if |word| <= |s| {
      assert (s + blanks)[..|word|] == s[..|word|];
    } else if |word| <= |s + blanks| {
      assert (s + blanks)[|s|] == blanks[0] != word[|s|];
    }
  }

  lemma DigitsBefore(digits: string, blanks: string)
    requires AllSpace(blanks)
    ensures |digits| < 40 && |digits + blanks| >= 40 ==> !IsSha1((digits + blanks)[..40])
    ensures |digits| >= 40 ==> (digits + blanks)[..40] == digits[..40]
    ensures |digits| == 40 && blanks != "" ==> !IsWord((digits + blanks)[40])
    ensures |digits| > 40 ==> (digits + blanks)[40] == digits[40]
  {
    if |digits| < 40 && |digits + blanks| >= 40 {
      assert (digits + blanks)[..40][|digits|] == blanks[0];
    }
  }

  /** Stripping the end of a plain line changes nothing that any section parser reads. */
  lemma StripPlainLine(line: string)
    ensures Plain(Rstrip(line))
    ensures Cells(Rstrip(line)) == Cells(line) && Sha1Of(Rstrip(line)) == Sha1Of(line)
    ensures Plain(line) ==> ParseKv(Rstrip(line)) == ParseKv(line) && IsHeading(Rstrip(line)) == IsHeading(line)
    ensures Plain(line) && IsHeading(line) ==> Strip(Rstrip(line)[2..]) == Strip(line[2..])
  {
    var blanks := SplitOffBlanks(line);
    var s := Rstrip(line);
    ParseKvBefore(s, blanks);
    Sha1Before(s, blanks);
    StripBefore(s, blanks);
    StripHeading(s, blanks);
    hide ParseKv, Sha1Of, Strip, Rstrip, Lstrip;
  }

  lemma StripHeading(s: string, blanks: string)
    requires Ends(s) && AllSpace(blanks)
    ensures IsHeading(s) ==> IsHeading(s + blanks) && Strip(s[2..]) == Strip((s + blanks)[2..]) != ""
    ensures IsHeading(s + blanks) && !IsHeading(s) ==> Strip((s + blanks)[2..]) == ""
  {
    if IsHeading(s) {
      EndsDrop(s, 2, blanks);
      StripBefore(s[2..], blanks);
    } else if IsHeading(s + blanks) {
      assert |s| <= 1;
      var rest := (s + blanks)[2..];
      assert forall i :: 0 <= i < |rest| ==> rest[i] == blanks[i + 2 - |s|];
      LstripBlanks(rest);
    }
  }

  /** Plain lines are exactly those that read the same once their end is stripped. */
  lemma PlainIff(line: string)
    ensures Plain(line) <==> ParseKv(Rstrip(line)) == ParseKv(line) && IsHeading(Rstrip(line)) == IsHeading(line)
  {
    StripPlainLine(line);
    var blanks := SplitOffBlanks(line);
    StripHeading(Rstrip(line), blanks);
    hide ParseKv, Strip, Rstrip, IsHeading;
  }

  // -------------------------------------------------------------------------
  // What a manifest is read from
  // -------------------------------------------------------------------------

  /** Everything the section parsers can see of one section. */
  datatype Reading = Reading(
    name: string, kv: map<string, string>, rows: seq<seq<string>>, overlays: Result<seq<string>>)

  function ReadingOf(name: string, body: seq<string>): Reading {
    Reading(name, KvOf(body), Rows(body), OverlaysOf(body))
  }

  function Readings(sections: seq<Section>): seq<Reading> {
    seq(|sections|, i requires 0 <= i < |sections| => ReadingOf(sections[i].name, sections[i].body))
  }

  lemma {:induction false} StripPlainBody(name: string, body: seq<string>)
    requires AllPlain(body)
    ensures ReadingOf(name, RstripAll(body)) == ReadingOf(name, body)
  {
    if body != [] {
      var init, last := body[..|body| - 1], body[|body| - 1];
      assert body == init + [last];
      StripPlainBody(name, init);
      StripPlainLine(last);
      RstripAllConcat(init, [last]);
      assert RstripAll([last]) == [Rstrip(last)];
      hide ParseKv, Cells, Sha1Of, Plain, RstripAll, Rstrip;
      SnocReading(name, init, last);
      SnocReading(name, RstripAll(init), Rstrip(last));
    }
  }

  /** A further line adds to each reading what it says by itself. */
  lemma SnocReading(name: string, body: seq<string>, line: string)
    ensures var (r, s) := (ReadingOf(name, body), ReadingOf(name, body + [line]));
            && s.name == name
            && s.kv == (match ParseKv(line) case None => r.kv case Some((key, value)) => r.kv[key := value])
            && s.rows == r.rows + (match Cells(line) case None => [] case Some(cells) => [cells])
            && s.overlays == AddOverlay(r.overlays, Sha1Of(line))
  {
    assert (body + [line])[..|body|] == body;
  }

  function AddOverlay(earlier: Result<seq<string>>, sha1: Option<string>): Result<seq<string>> {
    match (earlier, sha1)
    case (Err(e), _) => Err(e)
    case (Ok(hashes), None) => Ok(hashes)
    case (Ok(hashes), Some(h)) => if h in hashes then Err(DuplicateOverlay(h)) else Ok(hashes + [h])
  }

  lemma BlankSaysNothing(name: string, body: seq<string>)
    ensures ReadingOf(name, body + [""]) == ReadingOf(name, body)
  {
    SnocReading(name, body, "");
    assert ParseKv("") == None && Cells("") == None && Sha1Of("") == None;
  }

  // -------------------------------------------------------------------------
  // The outline under stripping
  // -------------------------------------------------------------------------

  function StripSections(sections: seq<Section>): seq<Section> {
    seq(|sections|, i requires 0 <= i < |sections| => Section(sections[i].name, RstripAll(sections[i].body)))
  }

  lemma RstripAllFirst(first: string, rest: seq<string>)
    ensures RstripAll([first] + rest) == [Rstrip(first)] + RstripAll(rest)
  {
    assert ([first] + rest)[1..] == rest;
  }

  lemma StripSectionsFirst(name: string, body: seq<string>, sections: seq<Section>)
    ensures StripSections([Section(name, body)] + sections) == [Section(name, RstripAll(body))] + StripSections(sections)
  {
  }

  lemma {:induction false} StripOutline(lines: seq<string>)
    requires AllPlain(lines)
    ensures Outline(RstripAll(lines)) == (RstripAll(Outline(lines).0), StripSections(Outline(lines).1))
    ensures AllPlain(Outline(lines).0) && forall s :: s in Outline(lines).1 ==> AllPlain(s.body)
  {
    hide Plain, Strip, Rstrip;
    if lines == [] {
      assert StripSections([]) == [] && RstripAll([]) == [];
    } else {
      var first, rest := lines[0], lines[1..];
      assert lines == [first] + rest && first in lines && forall l :: l in rest ==> l in lines;
      StripOutline(rest);
      StripPlainLine(first);
      var (body, sections) := Outline(rest);
      hide RstripAll, StripSections, Outline, IsHeading;
      OutlineFirst(first, rest);
      OutlineFirst(Rstrip(first), RstripAll(rest));
      RstripAllFirst(first, rest);
      RstripAllFirst(first, body);
      StripSectionsFirst(Strip(if |first| >= 2 then first[2..] else ""), body, sections);
      assert RstripAll([]) == [] by {
        RstripAllFixed([]);
      }
      HeadingIsLong(first);
      HeadingIsLong(Rstrip(first));
    }
  }

  lemma StripReadings(lines: seq<string>)
    requires AllPlain(lines)
    ensures Readings(Outline(RstripAll(lines)).1) == Readings(Outline(lines).1)
  {
    StripOutline(lines);
    var sections := Outline(lines).1;
    hide Outline, RstripAll, AllPlain, ReadingOf;
    forall i | 0 <= i < |sections|
      ensures ReadingOf(sections[i].name, RstripAll(sections[i].body)) == ReadingOf(sections[i].name, sections[i].body)
    {
      assert sections[i] in sections;
      StripPlainBody(sections[i].name, sections[i].body);
    }
  }

  lemma {:induction false} OutlineOfBlankEnd(lines: seq<string>)
    ensures var (a, b) := (Outline(lines), Outline(lines + [""]));
            if a.1 == [] then b == (a.0 + [""], []) else b == (a.0, Lengthened(a.1, [""]))
  {
    if lines == [] {
      assert lines + [""] == [""] && [""][1..] == [] && [""] + [] == [""];
      assert Outline([]) == ([], []) && Outline([""]) == ([""], []);
    } else {
      assert (lines + [""])[1..] == lines[1..] + [""] && (lines + [""])[0] == lines[0];
      OutlineOfBlankEnd(lines[1..]);
      var (body, sections) := Outline(lines[1..]);
      hide Strip;
      if IsHeading(lines[0]) {
        var heading := Section(Strip(lines[0][2..]), body);
        if sections == [] {
          assert Lengthened([heading], [""]) == [Section(heading.name, body + [""])];
          assert [heading] + [] == [heading];
          assert [Section(heading.name, body + [""])] + [] == [Section(heading.name, body + [""])];
        } else {
          assert Lengthened([heading] + sections, [""]) == [heading] + Lengthened(sections, [""]);
        }
      } else {
        assert ([lines[0]] + body) + [""] == [lines[0]] + (body + [""]);
      }
    }
  }

  lemma BlankEndSaysNothing(lines: seq<string>)
    ensures Readings(Outline(lines + [""]).1) == Readings(Outline(lines).1)
  {
    OutlineOfBlankEnd(lines);
    var sections := Outline(lines).1;
    hide Outline, ReadingOf;
    if sections != [] {
      BlankSaysNothing(sections[|sections| - 1].name, sections[|sections| - 1].body);
      assert Readings(Lengthened(sections, [""])) == Readings(sections);
    }
  }

  lemma {:induction false} DroppedEndSaysNothing(lines: seq<string>)
    ensures Readings(Outline(DropTrailingEmpty(lines)).1) == Readings(Outline(lines).1)
  {
    hide Outline, Readings;
    if lines != [] && lines[|lines| - 1] == "" {
      var init := lines[..|lines| - 1];
      assert lines == init + [""];
      DroppedEndSaysNothing(init);
      BlankEndSaysNothing(init);
    }
  }

  lemma VisibleReadings(text: string)
    requires AllPlain(Split(text, '\n'))
    ensures Readings(Outline(VisibleLines(text)).1) == Readings(Outline(Split(text, '\n')).1)
  {
    StripReadings(Split(text, '\n'));
    DroppedEndSaysNothing(RstripAll(Split(text, '\n')));
  }

  // -------------------------------------------------------------------------
  // From readings to manifests
  // -------------------------------------------------------------------------

  ghost predicate SameReadings(a: map<string, string>, b: map<string, string>) {
    && a.Keys == b.Keys
    && forall name :: name in a ==> ReadingOf(name, SectionLines(a, name)) == ReadingOf(name, SectionLines(b, name))
  }

  /** Joining and splitting a body again keeps what it says; an empty one comes back as one blank line. */
  lemma RejoinedReading(name: string, body: seq<string>)
    requires forall line :: line in body ==> Lacks(line, '\n')
    ensures ReadingOf(name, Split(Join(body, '\n'), '\n')) == ReadingOf(name, body)
  {
    if body == [] {
      BlankSaysNothing(name, []);
      assert [] + [""] == [""];
    } else {
      SplitOfJoin(body, '\n');
    }
  }

  ghost predicate Unbroken(sections: seq<Section>) {
    forall s, line :: s in sections && line in s.body ==> Lacks(line, '\n')
  }

  lemma {:induction false} BodiesSayTheSame(a: seq<Section>, b: seq<Section>)
    requires Readings(a) == Readings(b) && Unbroken(a) && Unbroken(b)
    ensures SameReadings(BodyByName(a), BodyByName(b)) && Names(a) == Names(b)
    decreases |a|
  {
    assert |a| == |Readings(a)| == |Readings(b)| == |b|;
    if a != [] {
      var n := |a| - 1;
      assert Readings(a[..n]) == Readings(a)[..n] && Readings(b[..n]) == Readings(b)[..n];
      assert Readings(a)[n] == Readings(b)[n];
      BodiesSayTheSame(a[..n], b[..n]);
      RejoinedReading(a[n].name, a[n].body);
      RejoinedReading(b[n].name, b[n].body);
      assert Names(a) == Names(a[..n]) + [a[n].name] && Names(b) == Names(b[..n]) + [b[n].name];
      hide Split, Join, Readings, Names;
      assert ReadingOf(a[n].name, a[n].body) == ReadingOf(b[n].name, b[n].body);
      hide ReadingOf;
      AddBody(BodyByName(a[..n]), BodyByName(b[..n]), a[n].name, Join(a[n].body, '\n'), Join(b[n].body, '\n'));
    }
  }

  lemma AddBody(a: map<string, string>, b: map<string, string>, name: string, x: string, y: string)
    requires SameReadings(a, b) && ReadingOf(name, Split(x, '\n')) == ReadingOf(name, Split(y, '\n'))
    ensures SameReadings(a[name := x], b[name := y])
  {
    hide ReadingOf, Split;
  }

  lemma {:induction false} OutlineUnbroken(lines: seq<string>)
    requires forall line :: line in lines ==> Lacks(line, '\n')
    ensures Unbroken(Outline(lines).1) && forall line :: line in Outline(lines).0 ==> Lacks(line, '\n')
  {
    if lines != [] {
      assert lines[0] in lines && forall l :: l in lines[1..] ==> l in lines;
      OutlineUnbroken(lines[1..]);
      hide Lacks, Strip;
    }
  }

  lemma {:induction false} MissingTheSame(names: seq<string>, a: map<string, string>, b: map<string, string>)
    requires a.Keys == b.Keys
    ensures Missing(names, a) == Missing(names, b)
  {
    if names != [] {
      assert names[0] in a.Keys <==> names[0] in b.Keys;
      MissingTheSame(names[1..], a, b);
    }
  }

  lemma BodiesFromReadings(a: string, b: string)
    requires Readings(Outline(Split(a, '\n')).1) == Readings(Outline(Split(b, '\n')).1)
    ensures SameReadings(Bodies(a).0, Bodies(b).0) && Bodies(a).1 == Bodies(b).1
  {
    hide Outline, Readings, Split, SameReadings, Unbroken, BodyByName;
    SplitPartsLack(a, '\n');
    SplitPartsLack(b, '\n');
    OutlineUnbroken(Split(a, '\n'));
    OutlineUnbroken(Split(b, '\n'));
    BodiesSayTheSame(Outline(Split(a, '\n')).1, Outline(Split(b, '\n')).1);
  }

  lemma SameChecks(p: map<string, string>, q: map<string, string>, order: seq<string>)
    requires SameReadings(p, q)
    ensures CheckSections(p, order) == CheckSections(q, order)
  {
    MissingTheSame(REQUIRED_SECTIONS, p, q);
    hide Missing, ReadingOf;
  }

  /** What a text is read as depends on the readings of its sections alone, up to the canonical text it carries. */
  lemma ManifestFromReadings(a: string, b: string)
    requires Readings(Outline(Split(a, '\n')).1) == Readings(Outline(Split(b, '\n')).1)
    ensures Manifest(a) == match Manifest(b)
                           case Ok(m) => Ok(m.(canonicalText := Canon(a)))
                           case Err(error) => Err(error)
  {
    hide Outline, Readings, Split, Canon, Bodies, CheckSections, SameReadings, SectionLines;
    hide KvOf, Rows, OverlaysOf, ParseIdentity, ParseAdmission, GenesisPeersOf;
    BodiesFromReadings(a, b);
    var p, q := Bodies(a).0, Bodies(b).0;
    SameChecks(p, q, Bodies(a).1);
    if CheckSections(p, Bodies(a).1).Ok? {
      AllRequiredPresent(a);
      AllRequiredPresent(b);
      assert "Identity" == REQUIRED_SECTIONS[0] && "Admission" == REQUIRED_SECTIONS[1];
      assert "Genesis Peers" == REQUIRED_SECTIONS[2] && "Default Overlays" == REQUIRED_SECTIONS[3];
      SameParts(p, q);
    }
  }

  lemma SameParts(p: map<string, string>, q: map<string, string>)
    requires SameReadings(p, q)
    requires "Identity" in p && "Admission" in p && "Genesis Peers" in p && "Default Overlays" in p
    ensures "Identity" in q && "Admission" in q && "Genesis Peers" in q && "Default Overlays" in q
    ensures KvOf(SectionLines(p, "Identity")) == KvOf(SectionLines(q, "Identity"))
    ensures KvOf(SectionLines(p, "Admission")) == KvOf(SectionLines(q, "Admission"))
    ensures Rows(SectionLines(p, "Genesis Peers")) == Rows(SectionLines(q, "Genesis Peers"))
    ensures OverlaysOf(SectionLines(p, "Default Overlays")) == OverlaysOf(SectionLines(q, "Default Overlays"))
  {
    hide KvOf, Rows, OverlaysOf, SectionLines;
    assert "Identity" in q.Keys && "Admission" in q.Keys && "Genesis Peers" in q.Keys && "Default Overlays" in q.Keys;
  }

  // -------------------------------------------------------------------------
  // Results
  // -------------------------------------------------------------------------

  /** Plain texts with one network id are one manifest, or fail in one way. */
  lemma SameIdSameManifest(a: string, b: string)
    requires Canon(a) == Canon(b) && AllPlain(Split(a, '\n')) && AllPlain(Split(b, '\n'))
    ensures Manifest(a) == Manifest(b)
  {
    SameCanonIff(a, b);
    VisibleReadings(a);
    VisibleReadings(b);
    if Manifest(b).Ok? {
      AcceptedIsWellFormed(b);
    }
    hide Outline, Split, VisibleLines, Readings, Canon, Manifest, AllPlain;
    ManifestFromReadings(a, b);
  }

  lemma {:induction false} CanonicalIsPlain(text: string)
    ensures AllPlain(Split(Canon(text), '\n'))
  {
    CanonIsVisibleLines(text);
    VisibleLinesShape(text);
    var lines := VisibleLines(text);
    assert forall p :: p in lines ==> Lacks(p, '\n') && Rstrip(p) == p;
    hide VisibleLines, Canon, Plain, Rstrip;
    if lines == [] {
      StripPlainLine("");
      EmptyIsPlain();
    } else {
      SplitOfJoin(lines, '\n');
      forall p | p in lines ensures Plain(p) {
        StripPlainLine(p);
      }
    }
  }

  lemma EmptyIsPlain()
    ensures Split("", '\n') == [""] && Rstrip("") == "" && Join([], '\n') == ""
  {
  }

  /** Rewriting a plain manifest in canonical form does not change what it means. */
  lemma CanonicalKeepsManifest(text: string)
    requires AllPlain(Split(text, '\n'))
    ensures Manifest(Canon(text)) == Manifest(text)
  {
    CanonIdempotent(text);
    CanonicalIsPlain(text);
    hide Canon, Manifest, AllPlain;
    SameIdSameManifest(Canon(text), text);
  }

  // -------------------------------------------------------------------------
  // One network id, two meanings
  // -------------------------------------------------------------------------

  /** A boot's manifest with one more line at the end of its identity section. */
  function AmendedSections(b: Boot, line: string): seq<Section> {
    [Section("Identity", IdentityLines(b) + [line])] + SectionsOfBoot(b)[1..]
  }

  function Amended(b: Boot, line: string): string {
    Unlines(LinesOf(AmendedSections(b, line)))
  }

  function AmendedParsed(b: Boot, line: string): seq<Section> {
    [Section("Identity", IdentityLines(b) + [line])] + ParsedSections(b)[1..]
  }

  lemma SplitOfBoot(b: Boot)
    requires Printable(b)
    ensures Outline(Split(BuildManifest(b), '\n')) == ([], ParsedSections(b))
  {
    hide LinesOf, Outline, AllInOneLine, Split, Unlines, SectionsOfBoot, ParsedSections, Printable;
    BootInOneLine(b);
    OutlineOfBoot(b);
    AllLack(LinesOf(SectionsOfBoot(b)));
    SplitOfUnlines(LinesOf(SectionsOfBoot(b)));
  }

  lemma AmendedInOneLine(b: Boot, line: string)
    requires Printable(b) && InOneLine(line)
    ensures Split(Amended(b, line), '\n') == LinesOf(AmendedSections(b, line)) + [""]
  {
    hide IdentityLines, AdmissionLines, PeerLines, InOneLine, Printable, LinesOf, Split, Unlines;
    BulletsInOneLine(b);
    RowsInOneLine(b);
    OverlaysInOneLine(b);
    HeadingsInOneLine();
    assert AllInOneLine(OverlayLines(b.overlays)) by {
      var o := OverlayLines(b.overlays);
      assert forall l :: l in o ==> l in o + [""];
    }
    hide OverlayLines;
    LinesInOneLine(AmendedSections(b, line));
    AllLack(LinesOf(AmendedSections(b, line)));
    hide AllInOneLine;
    SplitOfUnlines(LinesOf(AmendedSections(b, line)));
  }

  lemma AmendedLengthened(b: Boot, line: string)
    ensures LinesOf(AmendedSections(b, line)) + [""] == LinesOf(AmendedParsed(b, line))
  {
    hide IdentityLines, AdmissionLines, PeerLines, OverlayLines, LinesOf;
    assert Lengthened(AmendedSections(b, line), [""]) == AmendedParsed(b, line);
    LinesOfLengthened(AmendedSections(b, line), [""]);
  }

  lemma AmendedBodies(b: Boot, line: string)
    requires !IsHeading(line)
    ensures forall s :: s in AmendedParsed(b, line) ==> Trimmed(s.name) && NoHeading(s.body)
  {
    BootLinesAreBodies(b);
    hide IdentityLines, AdmissionLines, PeerLines, OverlayLines, IsHeading;
    assert NoHeading(IdentityLines(b) + [line]);
    assert Trimmed("Identity") && Trimmed("Admission") && Trimmed("Genesis Peers") && Trimmed("Default Overlays");
    hide NoHeading, Trimmed;
  }

  lemma AmendedOutline(b: Boot, line: string)
    requires Printable(b) && InOneLine(line) && !IsHeading(line)
    ensures Outline(Split(Amended(b, line), '\n')) == ([], AmendedParsed(b, line))
  {
    hide IsHeading, Split, NoHeading, Trimmed, Outline, LinesOf, AmendedParsed, Amended, AmendedSections;
    AmendedInOneLine(b, line);
    AmendedLengthened(b, line);
    AmendedBodies(b, line);
    OutlineOfLines(AmendedParsed(b, line));
  }

  /** No section parser reads anything from this line. */
  predicate Mute(line: string) {
    ParseKv(line) == None && Cells(line) == None && Sha1Of(line) == None
  }

  lemma MuteLine(name: string, body: seq<string>, line: string)
    requires Mute(line)
    ensures ReadingOf(name, body + [line]) == ReadingOf(name, body)
  {
    hide KvOf, Rows, OverlaysOf;
    SnocReading(name, body, line);
  }

  lemma MuteLineKeepsReadings(b: Boot, line: string)
    requires Mute(line)
    ensures Readings(AmendedParsed(b, line)) == Readings(ParsedSections(b))
  {
    hide ReadingOf, IdentityLines, AdmissionLines, PeerLines, OverlayLines;
    MuteLine("Identity", IdentityLines(b), line);
  }

  const UNNAMED := "- name:"
  const BLANK_NAMED := "- name: "

  lemma UnnamedSaysNothing()
    ensures Mute(UNNAMED)
  {
    var keyed := "name:";
    assert UNNAMED[1..] == " " + keyed;
    LstripPadded(UNNAMED);
    LstripPadded(keyed);
    WordPrefixOfKey("name", ":");
    assert keyed == "name" + ":" && keyed[4..] == ":" && keyed[0] == 'n';
    LstripPadded(":");
    assert Trimmed(UNNAMED);
    StripPadded(UNNAMED);
    hide Lstrip, Strip, WordPrefix;
  }

  lemma BlankNamedSaysBlank()
    ensures ParseKv(BLANK_NAMED) == Some(("name", " "))
  {
    var keyed := "name: ";
    assert BLANK_NAMED[1..] == " " + keyed;
    LstripPadded(BLANK_NAMED);
    LstripPadded(keyed);
    WordPrefixOfKey("name", ": ");
    assert keyed == "name" + ": " && keyed[4..] == ": " && ": "[1..] == " ";
    LstripPadded(": ");
    LstripBlanks(" ");
    hide Lstrip, WordPrefix;
  }

  lemma SameOnceStripped()
    ensures Rstrip(BLANK_NAMED) == UNNAMED == Rstrip(UNNAMED)
  {
    RstripFixedIff(UNNAMED);
    assert UNNAMED + " " == BLANK_NAMED;
    RstripIgnoresBlanks(UNNAMED, " ");
  }

  lemma BulletsAreLines()
    ensures !IsHeading(UNNAMED) && !IsHeading(BLANK_NAMED) && InOneLine(UNNAMED) && InOneLine(BLANK_NAMED)
  {
  }

  lemma AmendedAround(b: Boot, line: string)
    ensures LinesOf(AmendedSections(b, line)) ==
            ["# Identity"] + IdentityLines(b) + [line] + LinesOf(SectionsOfBoot(b)[1..])
  {
    hide IdentityLines, AdmissionLines, PeerLines, OverlayLines;
    var rest := SectionsOfBoot(b)[1..];
    assert AmendedSections(b, line)[1..] == rest && "# " + "Identity" == "# Identity";
    hide SectionsOfBoot;
    assert ["# Identity"] + (IdentityLines(b) + [line]) + LinesOf(rest) ==
           ["# Identity"] + IdentityLines(b) + [line] + LinesOf(rest);
  }

  lemma StripMiddle(before: seq<string>, x: string, y: string, after: seq<string>)
    requires Rstrip(x) == Rstrip(y)
    ensures RstripAll(before + [x] + after) == RstripAll(before + [y] + after)
  {
    hide Rstrip;
    var p, q := RstripAll(before + [x] + after), RstripAll(before + [y] + after);
    assert forall i :: 0 <= i < |p| ==> p[i] == q[i];
  }

  lemma SameButForBlanks(b: Boot)
    requires Printable(b)
    ensures Canon(Amended(b, BLANK_NAMED)) == Canon(Amended(b, UNNAMED))
  {
    hide IdentityLines, LinesOf, Amended, AmendedSections, Split, Canon, Rstrip, IsHeading, InOneLine;
    hide Printable, RstripAll;
    BulletsAreLines();
    SameOnceStripped();
    AmendedInOneLine(b, BLANK_NAMED);
    AmendedInOneLine(b, UNNAMED);
    AmendedAround(b, BLANK_NAMED);
    AmendedAround(b, UNNAMED);
    var before, rest := ["# Identity"] + IdentityLines(b), LinesOf(SectionsOfBoot(b)[1..]);
    StripMiddle(before, BLANK_NAMED, UNNAMED, rest + [""]);
    assert before + [BLANK_NAMED] + rest + [""] == before + [BLANK_NAMED] + (rest + [""]);
    assert before + [UNNAMED] + rest + [""] == before + [UNNAMED] + (rest + [""]);
    SameCanonIff(Amended(b, BLANK_NAMED), Amended(b, UNNAMED));
  }

  lemma AmendedIsMuted(b: Boot, line: string)
    requires LegalBoot(b) && Printable(b) && Mute(line) && InOneLine(line) && !IsHeading(line)
    ensures Manifest(Amended(b, line)).Ok?
  {
    hide LegalBoot, Printable, Manifest, Readings, AmendedParsed, ParsedSections, Outline, Split, Amended;
    hide Mute, IsHeading, InOneLine;
    AmendedOutline(b, line);
    MuteLineKeepsReadings(b, line);
    SplitOfBoot(b);
    PrintedParsesIff(b);
    ManifestFromReadings(Amended(b, line), BuildManifest(b));
  }

  lemma RenamedIdentity(b: Boot)
    requires IsValue(b.scenario)
    ensures ParseIdentity(KvOf(IdentityLines(b) + [BLANK_NAMED])) == Err(NotSnakeCase(" "))
  {
    hide IdentityLines, KvOf, ParseKv, Cells, Sha1Of;
    BlankNamedSaysBlank();
    KvOfIdentity(b);
    SnocReading("Identity", IdentityLines(b), BLANK_NAMED);
  }

  lemma IdentityError(text: string, error: ManifestError)
    requires CheckSections(Bodies(text).0, Bodies(text).1).Ok?
    requires "Identity" in Bodies(text).0
    requires ParseIdentity(KvOf(SectionLines(Bodies(text).0, "Identity"))) == Err(error)
    ensures Manifest(text) == Err(error)
  {
    hide Bodies, CheckSections, ParseIdentity, KvOf, SectionLines;
  }

  lemma AmendedLinesBack(b: Boot, line: string)
    requires Printable(b) && InOneLine(line)
    ensures var bodies := BodyByName(AmendedParsed(b, line));
            "Identity" in bodies && SectionLines(bodies, "Identity") == IdentityLines(b) + [line]
  {
    var sections := AmendedParsed(b, line);
    hide IdentityLines, AdmissionLines, PeerLines, OverlayLines, Split, Join, BodyByName, Printable;
    BodyOfSection(sections, 0);
    BulletsInOneLine(b);
    AllLack(IdentityLines(b) + [line]) by {
      hide InOneLine;
    }
    SplitOfJoin(IdentityLines(b) + [line], '\n');
  }

  lemma AmendedIsRenamed(b: Boot)
    requires Printable(b)
    ensures Manifest(Amended(b, BLANK_NAMED)) == Err(NotSnakeCase(" "))
  {
    hide Outline, Split, BodyByName, IdentityLines, ParseIdentity, KvOf, Amended, IsHeading, InOneLine, SectionLines;
    hide RequiredAmong, Missing;
    BulletsAreLines();
    AmendedOutline(b, BLANK_NAMED);
    RenamedIdentity(b);
    OrderOfBoot(b);
    assert Names(AmendedParsed(b, BLANK_NAMED)) == Names(ParsedSections(b));
    assert CheckSections(Bodies(Amended(b, BLANK_NAMED)).0, Bodies(Amended(b, BLANK_NAMED)).1).Ok?;
    AmendedLinesBack(b, BLANK_NAMED);
    hide AmendedParsed, Names;
    IdentityError(Amended(b, BLANK_NAMED), NotSnakeCase(" "));
  }

  /**
   * Without plainness the id does not settle the meaning: a further bullet `name` without a value is
   * ignored, and with one blank after the colon it is the name, for every manifest a boot can print.
   */
  lemma OneIdTwoMeanings(b: Boot)
    requires LegalBoot(b)
    ensures Canon(Amended(b, BLANK_NAMED)) == Canon(Amended(b, UNNAMED))
    ensures Manifest(Amended(b, UNNAMED)).Ok?
    ensures Manifest(Amended(b, BLANK_NAMED)) == Err(NotSnakeCase(" "))
  {
    LegalIsPrintable(b);
    hide LegalBoot, Printable, Canon, Manifest, Amended, Mute, IsHeading, InOneLine;
    SameButForBlanks(b);
    UnnamedSaysNothing();
    BulletsAreLines();
    AmendedIsMuted(b, UNNAMED);
    AmendedIsRenamed(b);
  }
}
