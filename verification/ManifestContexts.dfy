/** Which lines can make one network id mean two things, told by the line alone. */
module ManifestContexts {
  import opened Collections
  import opened Text
  import opened CommunityLedger
  import opened Canonical
  import opened ManifestSyntax
  import opened ManifestRoundTrip
  import opened ManifestIdentity

  // -------------------------------------------------------------------------
  // A bullet with a blank value
  // -------------------------------------------------------------------------

  lemma {:induction false} WordPrefixMaximal(s: string)
    ensures forall i :: 0 <= i < |WordPrefix(s)| ==> IsWord(s[i])
    ensures |WordPrefix(s)| < |s| ==> !IsWord(s[|WordPrefix(s)|])
  {
    if s != "" && IsWord(s[0]) {
      WordPrefixMaximal(s[1..]);
    }
  }

  /** A bullet that has only blanks for a value says nothing at all once they are stripped. */
  lemma BlankValueIsMuteStripped(s: string, blanks: string)
    requires Ends(s) && AllSpace(blanks)
    requires ParseKv(s + blanks).Some? && Strip(ParseKv(s + blanks).value.1) == ""
    ensures Mute(s) && s != "" && s[0] != '#'
  {
    LstripBefore(s, blanks);
    var dashed := Lstrip(s);
    assert s != "" && dashed[0] == '-';
    HashStays(s);
    EndsDrop(dashed, 1, blanks);
    LstripBefore(dashed[1..], blanks);
    var keyed := Lstrip(dashed[1..]);
    WordPrefixBefore(keyed, blanks);
    var key := WordPrefix(keyed);
    EndsDrop(keyed, |key|, blanks);
    LstripBefore(keyed[|key|..], blanks);
    var colon := Lstrip(keyed[|key|..]);
    hide Lstrip, WordPrefix;
    ValueBefore(colon, blanks);
    assert |colon| == 1 && colon[0] == ':';
    RstripFixedIff(dashed);
    hide Rstrip, IsSha1;
    assert Cells(s) == None;
    NoHashAfter(keyed, key, colon);
  }

  lemma HashStays(s: string)
    requires s != ""
    ensures s[0] == '#' ==> Lstrip(s) == s
  {
  }

  lemma NoHashAfter(keyed: string, key: string, colon: string)
    requires key == WordPrefix(keyed) && colon == Lstrip(keyed[|key|..]) && |colon| == 1 && colon[0] == ':'
    ensures "sha1" <= keyed && Lstrip(keyed[4..]) != "" && Lstrip(keyed[4..])[0] == ':' ==>
              Lstrip(Lstrip(keyed[4..])[1..]) == ""
  {
    WordPrefixMaximal(keyed);
    if "sha1" <= keyed {
      assert forall i :: 0 <= i < 4 ==> IsWord("sha1"[i]) && keyed[i] == "sha1"[i];
      assert |key| >= 4;
      if |key| > 4 {
        assert IsWord(keyed[4]) && Lstrip(keyed[4..])[0] == keyed[4];
      }
    }
  }

  /** An accepted amended manifest carries the identity its amended section spells out. */
  lemma AmendedIdentity(b: Boot, line: string)
    requires Printable(b) && InOneLine(line) && !IsHeading(line) && Manifest(Amended(b, line)).Ok?
    ensures Manifest(Amended(b, line)).value.identity == KvOf(IdentityLines(b) + [line])
  {
    hide Outline, Split, BodyByName, IdentityLines, KvOf, Amended, IsHeading, InOneLine, SectionLines, Manifest;
    hide ParseAdmission, GenesisPeersOf, OverlaysOf, Rows, Canon, Printable;
    PartsOfManifest(Amended(b, line));
    AmendedOutline(b, line);
    AmendedLinesBack(b, line);
    IdentityWellFormed(KvOf(IdentityLines(b) + [line]));
  }

  lemma BlankValueDiffers(b: Boot, line: string)
    requires LegalBoot(b) && InOneLine(line)
    requires ParseKv(line).Some? && Strip(ParseKv(line).value.1) == ""
    ensures Manifest(Amended(b, line)) != Manifest(Amended(b, Rstrip(line)))
  {
    LegalIsPrintable(b);
    var s := Rstrip(line);
    var blanks := SplitOffBlanks(line);
    BlankValueIsMuteStripped(s, blanks);
    RstripLacks(line, '\n');
    assert line[0] == s[0] && !IsHeading(line) && !IsHeading(s);
    AmendedIsMuted(b, s);
    if Manifest(Amended(b, line)).Ok? {
      AmendedIdentity(b, line);
      AmendedIdentity(b, s);
      IdentitiesDiffer(b, line, s);
    }
  }

  lemma IdentitiesDiffer(b: Boot, line: string, s: string)
    requires IsValue(b.scenario) && Mute(s)
    requires ParseKv(line).Some? && Strip(ParseKv(line).value.1) == ""
    ensures KvOf(IdentityLines(b) + [line]) != KvOf(IdentityLines(b) + [s])
  {
    hide IdentityLines, KvOf, ParseKv, Cells, Sha1Of, Rows, OverlaysOf, Strip, IsValue;
    KvOfIdentity(b);
    SnocReading("Identity", IdentityLines(b), line);
    SnocReading("Identity", IdentityLines(b), s);
    IdentityIsVisible(b, ParseKv(line).value.0);
  }

  lemma IdentityIsVisible(b: Boot, key: string)
    requires IsValue(b.scenario)
    ensures key in b.Identity() ==> Strip(b.Identity()[key]) != ""
  {
    DescriptionIsTrimmed(b);
    assert Trimmed("1.0.0");
    StripPadded(b.scenario);
    StripPadded(b.Description());
    StripPadded("1.0.0");
    hide Strip, Trimmed;
  }

  // -------------------------------------------------------------------------
  // A heading without a title
  // -------------------------------------------------------------------------

  lemma HashIsMute(s: string)
    requires s != "" && s[0] == '#'
    ensures Mute(s)
  {
    assert Lstrip(s) == s;
    RstripEnds(s);
    assert Rstrip(s) != "";
  }

  lemma {:induction false} MuteFirstLine(name: string, line: string, body: seq<string>)
    requires Mute(line)
    ensures ReadingOf(name, [line] + body) == ReadingOf(name, body)
  {
    if body == [] {
      MuteLine(name, [], line);
      assert [line] + body == [] + [line];
    } else {
      var init, last := body[..|body| - 1], body[|body| - 1];
      assert body == init + [last] && [line] + body == ([line] + init) + [last];
      MuteFirstLine(name, line, init);
      hide Mute, ParseKv, Cells, Sha1Of, KvOf, Rows, OverlaysOf;
      SnocReading(name, init, last);
      SnocReading(name, [line] + init, last);
    }
  }

  /** The lines after a boot's identity section. */
  function RestLines(b: Boot): seq<string> {
    LinesOf(SectionsOfBoot(b)[1..])
  }

  lemma RestSections(b: Boot)
    ensures Lengthened(SectionsOfBoot(b)[1..], [""]) == ParsedSections(b)[1..]
    ensures forall s :: s in ParsedSections(b)[1..] ==> Trimmed(s.name) && NoHeading(s.body)
  {
    BootLinesAreBodies(b);
    HeadingNames();
    hide IdentityLines, AdmissionLines, PeerLines, OverlayLines, NoHeading, Trimmed;
  }

  lemma RestOutline(b: Boot)
    ensures Outline(RestLines(b) + [""]) == ([], ParsedSections(b)[1..])
  {
    RestSections(b);
    assert |SectionsOfBoot(b)| == 4;
    hide SectionsOfBoot, ParsedSections, NoHeading, Trimmed, LinesOf, Outline, Lengthened;
    LinesOfLengthened(SectionsOfBoot(b)[1..], [""]);
    OutlineOfLines(ParsedSections(b)[1..]);
  }

  /** The manifest of a boot with one more line at the start of its identity section. */
  function Led(b: Boot, line: string): string {
    Unlines(["# Identity"] + [line] + (IdentityLines(b) + RestLines(b)))
  }

  lemma IdentityHeading()
    ensures IsHeading("# Identity") && Strip("# Identity"[2..]) == "Identity"
  {
    assert "# Identity" == "# " + "Identity";
    HeadingOf("Identity");
  }

  lemma OutlineOfLed(line: string, body: seq<string>, below: seq<string>)
    requires NoHeading(body) && Outline(below).0 == []
    ensures var rest := Outline(below).1;
            Outline(["# Identity"] + ([line] + (body + below))) ==
            if IsHeading(line) then ([], [Section("Identity", [])] + ([Section(Strip(line[2..]), body)] + rest))
            else ([], [Section("Identity", [line] + body)] + rest)
  {
    hide Outline, NoHeading, Strip, IsHeading;
    IdentityHeading();
    OutlineBody(body, below);
    OutlineFirst(line, body + below);
    OutlineFirst("# Identity", [line] + (body + below));
  }

  lemma LedOutline(b: Boot, line: string)
    requires Printable(b) && InOneLine(line)
    ensures var rest := ParsedSections(b)[1..];
            Outline(Split(Led(b, line), '\n')) ==
            if IsHeading(line) then ([], [Section("Identity", [])] + ([Section(Strip(line[2..]), IdentityLines(b))] + rest))
            else ([], [Section("Identity", [line] + IdentityLines(b))] + rest)
  {
    HeadingIsLong(line);
    BootLinesAreBodies(b);
    hide IdentityLines, AdmissionLines, PeerLines, OverlayLines, RestLines, ParsedSections, Split, Led, NoHeading, Strip;
    hide IsHeading, Outline, InOneLine, Printable;
    LedLines(b, line);
    RestOutline(b);
    var i, r := IdentityLines(b), RestLines(b);
    OutlineOfLed(line, i, r + [""]);
    assert ["# Identity"] + [line] + (i + r) + [""] == ["# Identity"] + ([line] + (i + (r + [""])));
  }

  lemma LedLines(b: Boot, line: string)
    requires Printable(b) && InOneLine(line)
    ensures Split(Led(b, line), '\n') == ["# Identity"] + [line] + (IdentityLines(b) + RestLines(b)) + [""]
  {
    hide IdentityLines, RestLines, LinesOf, SectionsOfBoot, Printable, AllInOneLine, Split, Unlines;
    BootInOneLine(b);
    LinesAroundIdentity(b);
    OneMoreLine(LinesOf(SectionsOfBoot(b)), IdentityLines(b), RestLines(b), line);
    AllLack(["# Identity"] + [line] + (IdentityLines(b) + RestLines(b)));
    SplitOfUnlines(["# Identity"] + [line] + (IdentityLines(b) + RestLines(b)));
  }

  lemma OneMoreLine(lines: seq<string>, i: seq<string>, r: seq<string>, line: string)
    requires lines == ["# Identity"] + i + r && AllInOneLine(lines) && InOneLine(line)
    ensures AllInOneLine(["# Identity"] + [line] + (i + r))
  {
    hide InOneLine;
    assert lines[0] == "# Identity";
    assert forall l :: l in i || l in r ==> l in lines;
  }

  lemma UntitledDiffers(b: Boot, line: string)
    requires LegalBoot(b) && InOneLine(line) && IsHeading(line) && Strip(line[2..]) == ""
    ensures Manifest(Led(b, line)) != Manifest(Led(b, Rstrip(line)))
  {
    LegalIsPrintable(b);
    var s := Rstrip(line);
    var blanks := SplitOffBlanks(line);
    RstripLacks(line, '\n');
    StripHeading(s, blanks);
    assert s != "" && s[0] == '#' by {
      assert line[0] == '#' && !IsSpace('#') && s == Rstrip(line);
    }
    HashIsMute(s);
    hide LegalBoot, Printable, Manifest, Led, Mute, Rstrip, Strip, IsHeading, InOneLine;
    LedWithMute(b, s);
    LedWithUntitled(b, line);
  }

  lemma LedWithMute(b: Boot, s: string)
    requires LegalBoot(b) && Printable(b) && Mute(s) && InOneLine(s) && !IsHeading(s)
    ensures Manifest(Led(b, s)).Ok?
  {
    hide LegalBoot, Printable, Manifest, Outline, Split, Led, Mute, IsHeading, InOneLine, ReadingOf, IdentityLines;
    hide AdmissionLines, PeerLines, OverlayLines;
    LedOutline(b, s);
    MuteFirstLine("Identity", s, IdentityLines(b));
    SplitOfBoot(b);
    PrintedParsesIff(b);
    assert Readings([Section("Identity", [s] + IdentityLines(b))] + ParsedSections(b)[1..]) == Readings(ParsedSections(b));
    ManifestFromReadings(Led(b, s), BuildManifest(b));
  }

  lemma AcceptedHasIdentity(text: string)
    requires "Identity" in Bodies(text).0
    ensures Manifest(text).Ok? ==> ParseIdentity(KvOf(SectionLines(Bodies(text).0, "Identity"))).Ok?
  {
    hide Manifest, Bodies, KvOf, ParseIdentity, SectionLines, ParseAdmission, GenesisPeersOf, OverlaysOf, Rows, Canon;
    if Manifest(text).Ok? {
      PartsOfManifest(text);
    }
  }

  /** The first of sections with different names gives its name its body. */
  lemma FirstBody(text: string, rest: seq<Section>)
    requires Outline(Split(text, '\n')).1 == [Section("Identity", [])] + rest
    requires forall i, j :: 0 <= i < j < |rest| ==> rest[i].name != rest[j].name
    requires forall s :: s in rest ==> s.name != "Identity"
    ensures "Identity" in Bodies(text).0 && SectionLines(Bodies(text).0, "Identity") == Split(Join([], '\n'), '\n')
  {
    var sections := [Section("Identity", [])] + rest;
    hide Outline, Split, Join, BodyByName;
    assert forall i :: 1 <= i < |sections| ==> sections[i] == rest[i - 1] && rest[i - 1] in rest;
    BodyOfSection(sections, 0);
  }

  lemma RestNames(b: Boot)
    ensures var rest := [Section("", IdentityLines(b))] + ParsedSections(b)[1..];
            && (forall i, j :: 0 <= i < j < |rest| ==> rest[i].name != rest[j].name)
            && forall s :: s in rest ==> s.name != "Identity"
    ensures |ParsedSections(b)| == 4
  {
    hide IdentityLines, AdmissionLines, PeerLines, OverlayLines;
  }

  lemma LedWithUntitled(b: Boot, line: string)
    requires Printable(b) && InOneLine(line) && IsHeading(line) && Strip(line[2..]) == ""
    ensures !Manifest(Led(b, line)).Ok?
  {
    hide IdentityLines, AdmissionLines, PeerLines, OverlayLines, Printable, Outline, Split, Led, IsHeading, InOneLine, Strip;
    hide Manifest, KvOf, ParseIdentity, Join, Bodies, SectionLines;
    LedOutline(b, line);
    RestNames(b);
    hide ParsedSections;
    FirstBody(Led(b, line), [Section("", IdentityLines(b))] + ParsedSections(b)[1..]);
    EmptyBodySaysNothing();
    AcceptedHasIdentity(Led(b, line));
  }

  lemma EmptyBodySaysNothing()
    ensures KvOf(Split(Join([], '\n'), '\n')) == map[] && !ParseIdentity(map[]).Ok?
  {
    assert Split("", '\n') == [""];
    KvOfBlank();
  }

  // -------------------------------------------------------------------------
  // The lines of a boot are plain
  // -------------------------------------------------------------------------

  lemma EndsIsPlain(line: string)
    requires Ends(line)
    ensures Plain(line)
  {
    RstripFixedIff(line);
    StripPlainLine(line);
  }

  ghost predicate AllEnd(lines: seq<string>) {
    forall line :: line in lines ==> Ends(line)
  }

  lemma BulletEnds(key: string, value: string)
    requires IsValue(value)
    ensures Ends(Bullet(key, value))
  {
    var line := Bullet(key, value);
    assert line[|line| - 1] == value[|value| - 1];
  }

  lemma TableRowEnds(a: string, b: string, c: string)
    ensures Ends(TableRow(a, b, c))
  {
    hide Join;
  }

  lemma OverlayLineEnds(hash: string)
    ensures Ends(OverlayLine(hash))
  {
    var line := OverlayLine(hash);
    assert line[|line| - 1] == ')';
  }

  lemma NoticeEnds()
    ensures Ends(NO_OVERLAYS) && Ends("") && Ends(SEPARATOR)
  {
    NoticeIsPlainText();
    assert |NO_OVERLAYS| == 52 && NO_OVERLAYS[51] == ')' by {
      var second := "(none \U{2014} joiners discover overlays";
      assert |second| == 33;
    }
  }

  lemma BootValues(b: Boot)
    requires Printable(b)
    ensures IsValue(b.Description()) && IsValue("1.0.0") && IsValue(b.scenario) && IsValue(b.policy.gatekeeperAddress)
  {
    DescriptionIsTrimmed(b);
  }

  lemma BulletsEnd(b: Boot)
    requires Printable(b)
    ensures AllEnd(IdentityLines(b)) && AllEnd(AdmissionLines(b.policy))
  {
    hide Ends, Bullet, PrintInt, IsValue, Trimmed, Printable;
    forall key: string, n: int ensures Ends(Bullet(key, PrintInt(n))) {
      PrintedIntIsValue(n);
      BulletEnds(key, PrintInt(n));
    }
    BootValues(b);
    BulletEnds("name", b.scenario);
    BulletEnds("version", "1.0.0");
    BulletEnds("description", b.Description());
    BulletEnds("gatekeeper_address", b.policy.gatekeeperAddress);
    NoticeEnds();
  }

  lemma RowsEnd(b: Boot)
    ensures AllEnd(PeerLines(b)) && AllEnd(OverlayLines(b.overlays))
  {
    TableRowEnds("host", "port", "pubkey_hex");
    TableRowEnds(b.host, PrintInt(b.port), b.pubkeyHex);
    NoticeEnds();
    forall hash ensures Ends(OverlayLine(hash)) {
      OverlayLineEnds(hash);
    }
    hide Ends, TableRow, OverlayLine;
    var lines := OverlayLines(b.overlays);
    forall i | 0 <= i < |lines| ensures Ends(lines[i]) {
    }
  }

  lemma {:induction false} LinesEnd(sections: seq<Section>)
    requires forall s :: s in sections ==> s.name != "" && Trimmed(s.name) && AllEnd(s.body)
    ensures AllEnd(LinesOf(sections))
  {
    if sections != [] {
      LinesEnd(sections[1..]);
      assert sections[0] in sections;
      HeadingEnds(sections[0].name);
      hide Ends, Trimmed;
    }
  }

  lemma HeadingEnds(name: string)
    requires name != "" && Trimmed(name)
    ensures Ends("# " + name)
  {
    var line := "# " + name;
    assert line[|line| - 1] == name[|name| - 1];
  }

  lemma BootEnds(b: Boot)
    requires Printable(b)
    ensures AllEnd(LinesOf(SectionsOfBoot(b)))
  {
    HeadingNames();
    hide IdentityLines, AdmissionLines, PeerLines, OverlayLines, Printable, Trimmed, AllEnd, LinesOf;
    BulletsEnd(b);
    RowsEnd(b);
    var sections := SectionsOfBoot(b);
    forall s | s in sections ensures s.name != "" && Trimmed(s.name) && AllEnd(s.body) {
    }
    hide SectionsOfBoot;
    LinesEnd(sections);
  }

  lemma HeadingNames()
    ensures Trimmed("Identity") && Trimmed("Admission") && Trimmed("Genesis Peers") && Trimmed("Default Overlays")
  {
  }

  // -------------------------------------------------------------------------
  // Exactly which lines are harmless
  // -------------------------------------------------------------------------

  /** Lines that may surround a line in question: single lines whose own ends decide nothing. */
  ghost predicate PlainContext(lines: seq<string>) {
    AllInOneLine(lines) && AllPlain(lines)
  }

  function Within(before: seq<string>, line: string, after: seq<string>): string {
    Unlines(before + [line] + after)
  }

  lemma WithinSplits(before: seq<string>, line: string, after: seq<string>)
    requires AllInOneLine(before) && AllInOneLine(after) && InOneLine(line)
    ensures Split(Within(before, line, after), '\n') == before + [line] + (after + [""])
  {
    var lines := before + [line] + after;
    SplitOfUnlines(lines);
    hide Split;
    assert lines + [""] == before + [line] + (after + [""]);
  }

  lemma StripLineKeepsId(before: seq<string>, line: string, after: seq<string>)
    requires AllInOneLine(before) && AllInOneLine(after) && InOneLine(line)
    ensures InOneLine(Rstrip(line))
    ensures Canon(Within(before, line, after)) == Canon(Within(before, Rstrip(line), after))
  {
    RstripLacks(line, '\n');
    RstripIdempotent(line);
    hide Rstrip, Split, Within, Canon, RstripAll;
    WithinSplits(before, line, after);
    WithinSplits(before, Rstrip(line), after);
    StripMiddle(before, line, Rstrip(line), after + [""]);
    SameCanonIff(Within(before, line, after), Within(before, Rstrip(line), after));
  }

  lemma PlainAround(before: seq<string>, line: string, after: seq<string>)
    requires AllPlain(before) && AllPlain(after) && Plain(line)
    ensures AllPlain(before + [line] + (after + [""]))
  {
    EndsIsPlain("");
    hide Plain;
  }

  lemma PlainLineIsHarmless(before: seq<string>, line: string, after: seq<string>)
    requires PlainContext(before) && PlainContext(after) && InOneLine(line) && Plain(line)
    ensures Manifest(Within(before, line, after)) == Manifest(Within(before, Rstrip(line), after))
  {
    hide Plain, Rstrip, Split, Within, Canon, Manifest, InOneLine, AllInOneLine, AllPlain;
    StripPlainLine(line);
    StripLineKeepsId(before, line, after);
    WithinSplits(before, line, after);
    WithinSplits(before, Rstrip(line), after);
    PlainAround(before, line, after);
    PlainAround(before, Rstrip(line), after);
    SameIdSameManifest(Within(before, line, after), Within(before, Rstrip(line), after));
  }

  /** The smallest manifest a scenario could boot with. */
  const SMALL_BOOT := Boot("n", AdmissionPolicy("bc1q", 1, 0, 0, 0, 0), "h", 1024, "aa", [])

  lemma SmallBootIsLegal()
    ensures LegalBoot(SMALL_BOOT)
  {
    assert "bc1" <= "bc1q" && IsGatekeeperAddress("bc1q");
    assert Lower("aa") == "aa" && IsPubkey("aa");
    assert IsCell("h");
  }

  lemma LinesAroundIdentity(b: Boot)
    ensures LinesOf(SectionsOfBoot(b)) == ["# Identity"] + IdentityLines(b) + RestLines(b)
  {
    hide IdentityLines, AdmissionLines, PeerLines, OverlayLines;
    assert "# " + "Identity" == "# Identity";
  }

  lemma PartsArePlainContexts(lines: seq<string>, i: seq<string>, r: seq<string>)
    requires lines == ["# Identity"] + i + r && AllInOneLine(lines) && AllEnd(lines)
    ensures PlainContext(["# Identity"]) && PlainContext(["# Identity"] + i)
    ensures PlainContext(r) && PlainContext(i + r)
  {
    forall line | line in lines ensures Plain(line) {
      EndsIsPlain(line);
    }
    hide Plain, InOneLine, AllEnd;
    assert lines[0] == "# Identity" && forall l :: l in i || l in r ==> l in lines;
  }

  lemma ContextsOfBoot(b: Boot)
    requires Printable(b)
    ensures PlainContext(["# Identity"]) && PlainContext(["# Identity"] + IdentityLines(b))
    ensures PlainContext(RestLines(b)) && PlainContext(IdentityLines(b) + RestLines(b))
  {
    hide IdentityLines, RestLines, LinesOf, SectionsOfBoot, Printable, AllInOneLine, AllEnd, PlainContext;
    BootInOneLine(b);
    BootEnds(b);
    LinesAroundIdentity(b);
    PartsArePlainContexts(LinesOf(SectionsOfBoot(b)), IdentityLines(b), RestLines(b));
  }

  /** Of every other line the surroundings can be such that one network id means two things. */
  lemma OtherLinesAreNot(line: string) returns (before: seq<string>, after: seq<string>)
    requires InOneLine(line) && !Plain(line)
    ensures PlainContext(before) && PlainContext(after)
    ensures Canon(Within(before, line, after)) == Canon(Within(before, Rstrip(line), after))
    ensures Manifest(Within(before, line, after)) != Manifest(Within(before, Rstrip(line), after))
  {
    var b := SMALL_BOOT;
    SmallBootIsLegal();
    LegalIsPrintable(b);
    ContextsOfBoot(b);
    var untitled := IsHeading(line) && Strip(line[2..]) == "";
    assert untitled || (ParseKv(line).Some? && Strip(ParseKv(line).value.1) == "");
    hide LegalBoot, Printable, Plain, ParseKv, Strip, IsHeading, Rstrip, InOneLine, Canon, Manifest, PlainContext, RestLines;
    hide IdentityLines;
    if untitled {
      before, after := ["# Identity"], IdentityLines(b) + RestLines(b);
      UntitledDiffers(b, line);
    } else {
      before, after := ["# Identity"] + IdentityLines(b), RestLines(b);
      BlankValueDiffers(b, line);
      AmendedIsWithin(b, line);
      AmendedIsWithin(b, Rstrip(line));
    }
    assert AllInOneLine(before) && AllInOneLine(after) by {
      ContextsOfBoot(b);
      PlainContextInOneLine(before);
      PlainContextInOneLine(after);
    }
    StripLineKeepsId(before, line, after);
  }

  lemma PlainContextInOneLine(lines: seq<string>)
    requires PlainContext(lines)
    ensures AllInOneLine(lines)
  {
  }

  lemma AmendedIsWithin(b: Boot, line: string)
    ensures Amended(b, line) == Within(["# Identity"] + IdentityLines(b), line, RestLines(b))
  {
    AmendedAround(b, line);
    hide IdentityLines, LinesOf, SectionsOfBoot, Unlines, AmendedSections;
  }

  /**
   * A line is plain exactly when, among any plain lines, stripping its end leaves the manifest what it
   * was.  Either way the network id stays the same.
   */
  lemma PlainIffHarmless(line: string)
    requires InOneLine(line)
    ensures Plain(line) <==>
              forall before, after :: PlainContext(before) && PlainContext(after) ==>
                Manifest(Within(before, line, after)) == Manifest(Within(before, Rstrip(line), after))
  {
    hide Plain, Rstrip, Manifest, Within, PlainContext, InOneLine, Canon;
    if Plain(line) {
      forall before, after | PlainContext(before) && PlainContext(after)
        ensures Manifest(Within(before, line, after)) == Manifest(Within(before, Rstrip(line), after))
      {
        PlainLineIsHarmless(before, line, after);
      }
    } else {
      var before, after := OtherLinesAreNot(line);
    }
  }
}
