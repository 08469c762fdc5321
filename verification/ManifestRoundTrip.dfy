/** What a printed manifest parses back to, and what every parsed manifest guarantees. */
module ManifestRoundTrip {
  import opened Collections
  import opened Text
  import opened CommunityLedger
  import opened Canonical
  import opened ManifestSyntax

  // -------------------------------------------------------------------------
  // Guarantees of the parser, for every text
  // -------------------------------------------------------------------------

  ghost predicate InOneLine(s: string) {
    Lacks(s, '\n')
  }

  /** What a cell of a table can hold. */
  ghost predicate IsCell(s: string) {
    Trimmed(s) && Lacks(s, '|') && InOneLine(s)
  }

  ghost predicate WellFormedPolicy(p: AdmissionPolicy) {
    && IsGatekeeperAddress(p.gatekeeperAddress)
    && 1 <= p.minSats
    && 0 <= p.minConfirmations <= MAX_UINT16
    && 0 <= p.bootstrapCapSats <= MAX_UINT64 && (p.bootstrapCapSats == 0 || p.minSats <= p.bootstrapCapSats)
    && 0 <= p.maxAgentsPerSeedbox <= MAX_UINT16
    && 0 <= p.seedboxCostSats <= MAX_UINT64
  }

  ghost predicate WellFormedPeer(p: GenesisPeer) {
    p.host != "" && IsCell(p.host) && 1024 <= p.port <= 65535 && IsPubkey(p.pubkeyHex)
  }

  ghost predicate DistinctPeers(peers: seq<GenesisPeer>) {
    forall i, j :: 0 <= i < j < |peers| ==> peers[i].host != peers[j].host || peers[i].port != peers[j].port
  }

  ghost predicate DistinctOverlays(hashes: seq<string>) {
    forall i, j :: 0 <= i < j < |hashes| ==> hashes[i] != hashes[j]
  }

  ghost predicate WellFormedIdentity(kv: map<string, string>) {
    && "name" in kv && IsSnakeCase(kv["name"])
    && "version" in kv && IsSemver(kv["version"])
    && "description" in kv && Strip(kv["description"]) != ""
  }

  ghost predicate WellFormed(m: NetworkManifest) {
    && WellFormedIdentity(m.identity)
    && WellFormedPolicy(m.admission)
    && m.genesisPeers != [] && DistinctPeers(m.genesisPeers)
    && (forall p :: p in m.genesisPeers ==> WellFormedPeer(p))
    && DistinctOverlays(m.defaultOverlays)
    && (forall h :: h in m.defaultOverlays ==> IsSha1(h))
  }

  lemma StripShape(s: string)
    ensures Trimmed(Strip(s))
    ensures forall ch :: ch in Strip(s) ==> ch in s
  {
    LstripShape(s);
    RstripEnds(Lstrip(s));
  }

  lemma {:induction false} LstripShape(s: string)
    ensures |Lstrip(s)| <= |s| && Lstrip(s) == s[|s| - |Lstrip(s)|..]
    ensures Lstrip(s) == "" || !IsSpace(Lstrip(s)[0])
  {
    if s != "" && IsSpace(s[0]) {
      LstripShape(s[1..]);
    }
  }

  lemma {:induction false} SplitChars(s: string, c: char)
    ensures forall p, ch :: p in Split(s, c) && ch in p ==> ch in s
  {
    if s != "" {
      SplitChars(s[1..], c);
      var rest := Split(s[1..], c);
      assert rest[0] in rest && forall p :: p in rest[1..] ==> p in rest;
      assert forall ch :: ch in s[1..] ==> ch in s;
    }
  }

  lemma StripBarsChars(s: string)
    ensures forall ch :: ch in StripBars(s) ==> ch in s
  {
    LeadingBarsChars(s);
    TrailingBarsChars(StripLeadingBars(s));
  }

  lemma {:induction false} LeadingBarsChars(s: string)
    ensures forall ch :: ch in StripLeadingBars(s) ==> ch in s
  {
    if s != "" && s[0] == '|' {
      LeadingBarsChars(s[1..]);
    }
  }

  lemma {:induction false} TrailingBarsChars(s: string)
    ensures forall ch :: ch in StripTrailingBars(s) ==> ch in s
  {
    if s != "" && s[|s| - 1] == '|' {
      TrailingBarsChars(s[..|s| - 1]);
    }
  }

  lemma CellsAreCells(line: string)
    requires InOneLine(line)
    ensures Cells(line).Some? ==> forall cell :: cell in Cells(line).value ==> IsCell(cell)
  {
    if Cells(line).Some? {
      var row := Strip(line);
      var bare := StripBars(row);
      var parts := Split(bare, '|');
      StripShape(line);
      StripBarsChars(row);
      SplitChars(bare, '|');
      SplitPartsLack(bare, '|');
      forall cell | cell in Cells(line).value ensures IsCell(cell) {
        var i :| 0 <= i < |parts| && cell == Strip(parts[i]);
        StripShape(parts[i]);
        assert parts[i] in parts;
        assert forall ch :: ch in cell ==> ch in parts[i];
        assert '|' !in parts[i] && '\n' !in line;
        assert '|' !in cell && '\n' !in cell;
      }
    }
  }

  lemma {:induction false} RowsHoldCells(lines: seq<string>)
    requires forall line :: line in lines ==> InOneLine(line)
    ensures forall row, cell :: row in Rows(lines) && cell in row ==> IsCell(cell)
  {
    if lines != [] {
      RowsHoldCells(lines[..|lines| - 1]);
      CellsAreCells(lines[|lines| - 1]);
      hide IsCell, Cells, InOneLine;
    }
  }

  lemma {:induction false} PeersWellFormed(rows: seq<seq<string>>)
    requires forall row, cell :: row in rows && cell in row ==> IsCell(cell)
    requires PeersOf(rows).Ok?
    ensures DistinctPeers(PeersOf(rows).value)
    ensures forall p :: p in PeersOf(rows).value ==> WellFormedPeer(p)
  {
    if rows != [] {
      var earlier, row := rows[..|rows| - 1], rows[|rows| - 1];
      PeersWellFormed(earlier);
      var peer := PeerOfRow(row).value;
      assert row in rows && row[0] in row;
      hide IsCell, IsPubkey;
      assert WellFormedPeer(peer);
      var before := PeersOf(earlier).value;
      assert forall p :: p in before ==> p.host != peer.host || p.port != peer.port;
    }
  }

  lemma {:induction false} OverlaysWellFormed(lines: seq<string>)
    requires OverlaysOf(lines).Ok?
    ensures DistinctOverlays(OverlaysOf(lines).value)
    ensures forall h :: h in OverlaysOf(lines).value ==> IsSha1(h)
  {
    if lines != [] {
      OverlaysWellFormed(lines[..|lines| - 1]);
      assert Sha1Of(lines[|lines| - 1]).Some? ==> IsSha1(Sha1Of(lines[|lines| - 1]).value);
      hide IsSha1, Sha1Of;
    }
  }

  lemma PartsOfManifest(text: string)
    requires Manifest(text).Ok?
    ensures var (m, bodies) := (Manifest(text).value, Bodies(text).0);
            && (forall name :: name in REQUIRED_SECTIONS ==> name in bodies)
            && "Identity" in bodies && "Admission" in bodies
            && "Genesis Peers" in bodies && "Default Overlays" in bodies
            && ParseIdentity(KvOf(SectionLines(bodies, "Identity"))) == Ok(m.identity)
            && ParseAdmission(KvOf(SectionLines(bodies, "Admission"))) == Ok(m.admission)
            && GenesisPeersOf(Rows(SectionLines(bodies, "Genesis Peers"))) == Ok(m.genesisPeers)
            && OverlaysOf(SectionLines(bodies, "Default Overlays")) == Ok(m.defaultOverlays)
            && m.canonicalText == Canon(text)
  {
    hide Bodies, KvOf, Rows, OverlaysOf, GenesisPeersOf, SectionLines, Canon, ParseIdentity, ParseAdmission, CheckSections;
    AllRequiredPresent(text);
    assert "Identity" == REQUIRED_SECTIONS[0] && "Admission" == REQUIRED_SECTIONS[1];
    assert "Genesis Peers" == REQUIRED_SECTIONS[2] && "Default Overlays" == REQUIRED_SECTIONS[3];
  }

  /** Whatever the parser accepts is well formed; the ledger's assumptions on its policy follow. */
  lemma AcceptedIsWellFormed(text: string)
    requires Manifest(text).Ok?
    ensures WellFormed(Manifest(text).value)
    ensures Manifest(text).value.admission.Legal()
    ensures Manifest(text).value.canonicalText == Canon(text)
  {
    hide Bodies, KvOf, Rows, OverlaysOf, GenesisPeersOf, Split, Canon, ParseIdentity, ParseAdmission, Manifest;
    hide WellFormedIdentity, WellFormedPolicy, DistinctPeers, WellFormedPeer, DistinctOverlays, IsSha1;
    PartsOfManifest(text);
    var bodies := Bodies(text).0;
    IdentityWellFormed(KvOf(SectionLines(bodies, "Identity")));
    PolicyWellFormed(KvOf(SectionLines(bodies, "Admission")));
    GenesisPeersWellFormed(bodies["Genesis Peers"]);
    OverlaysWellFormed(SectionLines(bodies, "Default Overlays"));
  }

  lemma IdentityWellFormed(kv: map<string, string>)
    requires ParseIdentity(kv).Ok?
    ensures ParseIdentity(kv).value == kv && WellFormedIdentity(kv)
  {
    hide IsSnakeCase, IsSemver, Strip;
  }

  lemma GenesisPeersWellFormed(body: string)
    requires GenesisPeersOf(Rows(Split(body, '\n'))).Ok?
    ensures var peers := GenesisPeersOf(Rows(Split(body, '\n'))).value;
            peers != [] && DistinctPeers(peers) && forall p :: p in peers ==> WellFormedPeer(p)
  {
    SplitPartsLack(body, '\n');
    RowsHoldCells(Split(body, '\n'));
    var rows := Rows(Split(body, '\n'));
    hide IsCell, Rows, Split, WellFormedPeer, DistinctPeers;
    assert forall row :: row in rows[1..] ==> row in rows;
    PeersWellFormed(rows[1..]);
  }

  lemma PolicyWellFormed(kv: map<string, string>)
    requires ParseAdmission(kv).Ok?
    ensures WellFormedPolicy(ParseAdmission(kv).value) && ParseAdmission(kv).value.Legal()
  {
    hide IsGatekeeperAddress, ParseInt;
  }

  // -------------------------------------------------------------------------
  // The printer
  // -------------------------------------------------------------------------

  /** What a scenario boot puts into a manifest. */
  datatype Boot = Boot(
    scenario: string, policy: AdmissionPolicy, host: string, port: int, pubkeyHex: string, overlays: seq<string>)
  {
    function Description(): string {
      "Auto-generated manifest for scenario " + scenario + "."
    }

    function Identity(): map<string, string> {
      map["name" := scenario, "version" := "1.0.0", "description" := Description()]
    }
  }

  function Bullet(key: string, value: string): string {
    "- " + key + ": " + value
  }

  function Padded(cell: string): string {
    " " + cell + " "
  }

  function TableRow(a: string, b: string, c: string): string {
    "|" + Join([Padded(a), Padded(b), Padded(c)], '|') + "|"
  }

  function IdentityLines(b: Boot): seq<string> {
    [Bullet("name", b.scenario), Bullet("version", "1.0.0"), Bullet("description", b.Description()), ""]
  }

  function AdmissionLines(p: AdmissionPolicy): seq<string> {
    [Bullet("gatekeeper_address", p.gatekeeperAddress),
     Bullet("min_sats", PrintInt(p.minSats)),
     Bullet("min_confirmations", PrintInt(p.minConfirmations)),
     Bullet("bootstrap_cap_sats", PrintInt(p.bootstrapCapSats)),
     Bullet("max_agents_per_seedbox", PrintInt(p.maxAgentsPerSeedbox)),
     Bullet("seedbox_cost_sats", PrintInt(p.seedboxCostSats)),
     ""]
  }

  const SEPARATOR := "|------|------|------------|"

  function PeerLines(b: Boot): seq<string> {
    [TableRow("host", "port", "pubkey_hex"), SEPARATOR, TableRow(b.host, PrintInt(b.port), b.pubkeyHex), ""]
  }

  function OverlayLine(hash: string): string {
    "- sha1: " + hash + "  (default overlay)"
  }

  const NO_OVERLAYS := "(none \U{2014} joiners discover overlays via OVERLAY_OFFER)"

  /** The notice is one line of text, no bullet and no heading. */
  lemma NoticeIsPlainText()
    ensures NO_OVERLAYS[0] == '(' && InOneLine(NO_OVERLAYS)
  {
    var first, second := "(none \U{2014} joiners ", "(none \U{2014} joiners discover overlays";
    assert |first| == 16 && first[0] == '(' && InOneLine(first);
    assert |second| == 33 && second[0] == '(' && InOneLine(second);
  }

  function OverlayLines(hashes: seq<string>): seq<string> {
    if hashes == [] then [NO_OVERLAYS] else seq(|hashes|, i requires 0 <= i < |hashes| => OverlayLine(hashes[i]))
  }

  function SectionsOfBoot(b: Boot): seq<Section> {
    [Section("Identity", IdentityLines(b)),
     Section("Admission", AdmissionLines(b.policy)),
     Section("Genesis Peers", PeerLines(b)),
     Section("Default Overlays", OverlayLines(b.overlays))]
  }

  /** The lines of a text made of sections: each heading, then its body. */
  function LinesOf(sections: seq<Section>): seq<string> {
    if sections == [] then [] else ["# " + sections[0].name] + sections[0].body + LinesOf(sections[1..])
  }

  function BuildManifest(b: Boot): string {
    Unlines(LinesOf(SectionsOfBoot(b)))
  }

  // -------------------------------------------------------------------------
  // Bullets
  // -------------------------------------------------------------------------

  ghost predicate IsKey(s: string) {
    s != "" && !IsDigit(s[0]) && forall i :: 0 <= i < |s| ==> IsWord(s[i])
  }

  lemma {:induction false} WordPrefixOfKey(key: string, rest: string)
    requires forall i :: 0 <= i < |key| ==> IsWord(key[i])
    requires rest == "" || !IsWord(rest[0])
    ensures WordPrefix(key + rest) == key
  {
    if key == "" {
      assert key + rest == rest;
    } else {
      assert (key + rest)[1..] == key[1..] + rest;
      WordPrefixOfKey(key[1..], rest);
    }
  }

  lemma LstripPadded(s: string)
    requires s == "" || !IsSpace(s[0])
    ensures Lstrip(s) == s && Lstrip(" " + s) == s
  {
    assert (" " + s)[1..] == s;
  }

  /** A printed bullet is read back as its key and value. */
  lemma ParseBullet(key: string, value: string)
    requires IsKey(key) && value != "" && Trimmed(value)
    ensures ParseKv(Bullet(key, value)) == Some((key, value))
  {
    hide Lstrip, Strip, WordPrefix;
    var line, tail := Bullet(key, value), ": " + value;
    var keyed := key + tail;
    BulletParts(key, value);
    hide Bullet;
    LstripPadded(line);
    LstripPadded(keyed);
    WordPrefixOfKey(key, tail);
    LstripPadded(tail);
    StripPadded(value);
    hide IsWord, IsSpace, Trimmed;
  }

  lemma BulletParts(key: string, value: string)
    requires IsKey(key)
    ensures var line, tail := Bullet(key, value), ": " + value;
            var keyed := key + tail;
            && line[0] == '-' && line[1..] == " " + keyed && !IsSpace('-')
            && keyed[0] == key[0] && !IsSpace(key[0]) && !IsDigit(key[0]) && keyed[|key|..] == tail
            && tail[0] == ':' && !IsSpace(':') && !IsWord(':') && tail[1..] == " " + value
  {
    assert Bullet(key, value) == "- " + (key + (": " + value));
    assert IsWord(key[0]);
  }

  lemma {:induction false} KvConcat(a: seq<string>, b: seq<string>)
    ensures KvOf(a + b) == KvOf(a) + KvOf(b)
    decreases |b|
  {
    if b == [] {
      assert a + b == a;
    } else {
      KvConcat(a, b[..|b| - 1]);
      assert (a + b)[..|a + b| - 1] == a + b[..|b| - 1];
      hide ParseKv;
    }
  }

  ghost predicate IsValue(s: string) {
    s != "" && Trimmed(s)
  }

  lemma KvOfThree(k1: string, v1: string, k2: string, v2: string, k3: string, v3: string)
    requires IsKey(k1) && IsKey(k2) && IsKey(k3) && IsValue(v1) && IsValue(v2) && IsValue(v3)
    ensures KvOf([Bullet(k1, v1), Bullet(k2, v2), Bullet(k3, v3)]) == map[k1 := v1, k2 := v2, k3 := v3]
  {
    ParseBullet(k1, v1);
    ParseBullet(k2, v2);
    ParseBullet(k3, v3);
    hide ParseKv, Bullet, IsKey, Trimmed;
    var lines := [Bullet(k1, v1), Bullet(k2, v2), Bullet(k3, v3)];
    assert lines[..2] == [lines[0], lines[1]] && lines[..2][..1] == [lines[0]] && [lines[0]][..0] == [];
    assert KvOf([]) == map[] && KvOf([lines[0]]) == map[k1 := v1];
    assert KvOf(lines[..2]) == map[k1 := v1, k2 := v2];
  }

  lemma KvOfBlank()
    ensures KvOf([""]) == map[]
  {
    assert [""][..0] == [];
  }

  lemma KvOfIdentity(b: Boot)
    requires IsValue(b.scenario)
    ensures KvOf(IdentityLines(b)) == b.Identity()
  {
    DescriptionIsTrimmed(b);
    assert IsValue(b.Description()) && IsValue("1.0.0");
    assert IsKey("name") && IsKey("version") && IsKey("description");
    hide KvOf, Bullet, IsKey, IsValue;
    KvOfThree("name", b.scenario, "version", "1.0.0", "description", b.Description());
    KvConcat(IdentityLines(b)[..3], [""]);
    KvOfBlank();
    var lines := IdentityLines(b);
    assert lines[..3] == [lines[0], lines[1], lines[2]] && lines == lines[..3] + [""];
  }

  function AdmissionKv(p: AdmissionPolicy): map<string, string> {
    map["gatekeeper_address" := p.gatekeeperAddress,
        "min_sats" := PrintInt(p.minSats),
        "min_confirmations" := PrintInt(p.minConfirmations),
        "bootstrap_cap_sats" := PrintInt(p.bootstrapCapSats),
        "max_agents_per_seedbox" := PrintInt(p.maxAgentsPerSeedbox),
        "seedbox_cost_sats" := PrintInt(p.seedboxCostSats)]
  }

  lemma AdmissionKeys()
    ensures IsKey("gatekeeper_address") && IsKey("min_sats") && IsKey("min_confirmations")
    ensures IsKey("bootstrap_cap_sats") && IsKey("max_agents_per_seedbox") && IsKey("seedbox_cost_sats")
  {
  }

  lemma KvOfSix(l: seq<string>, first: map<string, string>, second: map<string, string>)
    requires |l| == 7 && l[6] == ""
    requires KvOf([l[0], l[1], l[2]]) == first && KvOf([l[3], l[4], l[5]]) == second
    ensures KvOf(l) == first + second
  {
    hide KvOf;
    KvConcat(l[..3], l[3..6]);
    KvConcat(l[..6], [""]);
    KvOfBlank();
    assert l[..3] == [l[0], l[1], l[2]] && l[3..6] == [l[3], l[4], l[5]];
    assert l[..6] == l[..3] + l[3..6] && l == l[..6] + [""];
  }

  lemma PrintedIntIsValue(n: int)
    ensures IsValue(PrintInt(n))
  {
    ParseOfPrintInt(n);
  }

  lemma KvOfAdmission(p: AdmissionPolicy)
    requires IsValue(p.gatekeeperAddress)
    ensures KvOf(AdmissionLines(p)) == AdmissionKv(p)
  {
    hide KvOf, Bullet, IsKey, IsValue, PrintInt;
    AdmissionKeys();
    PrintedIntIsValue(p.minSats);
    PrintedIntIsValue(p.minConfirmations);
    PrintedIntIsValue(p.bootstrapCapSats);
    PrintedIntIsValue(p.maxAgentsPerSeedbox);
    PrintedIntIsValue(p.seedboxCostSats);
    KvOfThree("gatekeeper_address", p.gatekeeperAddress, "min_sats", PrintInt(p.minSats),
              "min_confirmations", PrintInt(p.minConfirmations));
    KvOfThree("bootstrap_cap_sats", PrintInt(p.bootstrapCapSats),
              "max_agents_per_seedbox", PrintInt(p.maxAgentsPerSeedbox),
              "seedbox_cost_sats", PrintInt(p.seedboxCostSats));
    KvOfSix(
      AdmissionLines(p),
      map["gatekeeper_address" := p.gatekeeperAddress, "min_sats" := PrintInt(p.minSats),
          "min_confirmations" := PrintInt(p.minConfirmations)],
      map["bootstrap_cap_sats" := PrintInt(p.bootstrapCapSats),
          "max_agents_per_seedbox" := PrintInt(p.maxAgentsPerSeedbox),
          "seedbox_cost_sats" := PrintInt(p.seedboxCostSats)]);
  }

  /** The printed policy is accepted exactly when it is well formed, and is read back unchanged. */
  lemma PrintedAdmission(p: AdmissionPolicy)
    ensures ParseAdmission(AdmissionKv(p)).Ok? <==> WellFormedPolicy(p)
    ensures WellFormedPolicy(p) ==> ParseAdmission(AdmissionKv(p)) == Ok(p)
  {
    ParseOfPrintInt(p.minSats);
    ParseOfPrintInt(p.minConfirmations);
    ParseOfPrintInt(p.bootstrapCapSats);
    ParseOfPrintInt(p.maxAgentsPerSeedbox);
    ParseOfPrintInt(p.seedboxCostSats);
    hide ParseInt, PrintInt, IsGatekeeperAddress, Trimmed;
  }

  lemma VersionIsSemver()
    ensures IsSemver("1.0.0")
  {
    SplitFirst("1", '.', "0.0");
    SplitFirst("0", '.', "0");
    SplitLacking("0", '.');
    assert "1" + ['.'] + "0.0" == "1.0.0" && "0" + ['.'] + "0" == "0.0";
    hide Split;
  }

  lemma DescriptionIsTrimmed(b: Boot)
    ensures Trimmed(b.Description()) && b.Description() != ""
  {
    var text := b.Description();
    assert text[0] == 'A' && text[|text| - 1] == '.';
  }

  lemma PrintedIdentity(b: Boot)
    ensures ParseIdentity(b.Identity()).Ok? <==> IsSnakeCase(b.scenario)
    ensures IsSnakeCase(b.scenario) ==> ParseIdentity(b.Identity()) == Ok(b.Identity())
  {
    VersionIsSemver();
    DescriptionIsTrimmed(b);
    StripPadded(b.Description());
    hide IsSemver, Strip, IsSnakeCase;
  }

  // -------------------------------------------------------------------------
  // The peer table
  // -------------------------------------------------------------------------

  lemma BarsAround(inner: string)
    requires inner != "" && inner[0] != '|' && inner[|inner| - 1] != '|'
    ensures StripBars("|" + inner + "|") == inner
  {
    var s, tail := "|" + inner + "|", inner + "|";
    assert s[0] == '|' && s[1..] == tail;
    assert StripLeadingBars(tail) == tail;
    assert tail[|tail| - 1] == '|' && tail[..|tail| - 1] == inner;
    assert StripTrailingBars(inner) == inner;
    assert StripTrailingBars(tail) == inner;
  }

  lemma {:induction false} JoinLast(parts: seq<string>, c: char)
    requires parts != [] && parts[|parts| - 1] != ""
    ensures var (s, last) := (Join(parts, c), parts[|parts| - 1]);
            s != "" && s[|s| - 1] == last[|last| - 1]
  {
    if |parts| > 1 {
      JoinLast(parts[1..], c);
    }
  }

  function Stripped(cells: seq<string>): seq<string> {
    seq(|cells|, i requires 0 <= i < |cells| => Strip(cells[i]))
  }

  lemma CellsOfRow(parts: seq<string>)
    requires parts != [] && parts[0] != "" && parts[|parts| - 1] != ""
    requires forall p :: p in parts ==> Lacks(p, '|')
    ensures Cells("|" + Join(parts, '|') + "|") ==
            if forall cell :: cell in Stripped(parts) ==> IsRule(cell) then None else Some(Stripped(parts))
  {
    var inner := Join(parts, '|');
    var line := "|" + inner + "|";
    JoinLast(parts, '|');
    assert inner[0] == parts[0][0];
    assert parts[0] in parts && parts[|parts| - 1] in parts;
    hide Join, Split;
    BarsAround(inner);
    SplitOfJoin(parts, '|');
    StripPadded(line);
    hide StripBars, Strip, IsRule;
  }

  lemma CellsOfTableRow(a: string, b: string, c: string)
    requires IsCell(a) && IsCell(b) && IsCell(c) && !IsRule(b)
    ensures Cells(TableRow(a, b, c)) == Some([a, b, c])
  {
    var parts := [Padded(a), Padded(b), Padded(c)];
    StripPadded(a);
    StripPadded(b);
    StripPadded(c);
    hide Strip, Join, Cells, IsRule;
    CellsOfRow(parts);
    assert Stripped(parts) == [a, b, c];
    assert Stripped(parts)[1] in Stripped(parts);
  }

  ghost predicate IsDashes(s: string) {
    s != "" && forall i :: 0 <= i < |s| ==> s[i] == '-'
  }

  lemma RuleRowHasNoCells(a: string, b: string, c: string)
    requires IsDashes(a) && IsDashes(b) && IsDashes(c)
    ensures Cells("|" + Join([a, b, c], '|') + "|") == None
  {
    StripPadded(a);
    StripPadded(b);
    StripPadded(c);
    assert IsRule(a) && IsRule(b) && IsRule(c);
    hide Strip, Join, Cells, IsRule;
    CellsOfRow([a, b, c]);
    assert Stripped([a, b, c]) == [a, b, c];
  }

  lemma SeparatorIsRow()
    ensures SEPARATOR == "|" + Join(["------", "------", "------------"], '|') + "|"
  {
    var short, long := "------", "------------";
    assert [short, short, long][1..] == [short, long] && [short, long][1..] == [long];
    assert Join([short, long], '|') == short + "|" + long;
  }

  lemma SeparatorHasNoCells()
    ensures Cells(SEPARATOR) == None
  {
    assert IsDashes("------") && IsDashes("------------");
    hide Cells, Join, IsDashes;
    SeparatorIsRow();
    RuleRowHasNoCells("------", "------", "------------");
  }

  lemma RowsOfFour(header: string, separator: string, row: string, blank: string)
    requires Cells(header).Some? && Cells(separator) == None && Cells(row).Some? && Cells(blank) == None
    ensures Rows([header, separator, row, blank]) == [Cells(header).value, Cells(row).value]
  {
    hide Cells;
    var lines := [header, separator, row, blank];
    assert lines[..3] == [header, separator, row] && lines[..3][..2] == [header, separator];
    assert [header, separator][..1] == [header] && [header][..0] == [];
    assert Rows([]) == [] && Rows([header]) == [Cells(header).value] == Rows([header, separator]);
    assert Rows(lines[..3]) == [Cells(header).value, Cells(row).value];
  }

  lemma PortIsCell(port: int)
    ensures IsCell(PrintInt(port)) && !IsRule(PrintInt(port))
  {
    ParseOfPrintInt(port);
    var s := PrintInt(port);
    assert forall i :: 0 <= i < |s| ==> s[i] == '-' || IsDigit(s[i]);
    assert IsDigit(s[|s| - 1]);
  }

  lemma RowsOfPeers(b: Boot)
    requires IsCell(b.host) && IsCell(b.pubkeyHex)
    ensures Rows(PeerLines(b)) == [["host", "port", "pubkey_hex"], [b.host, PrintInt(b.port), b.pubkeyHex]]
  {
    PortIsCell(b.port);
    assert "port"[0] == 'p' && !IsRule("port");
    assert Cells("") == None;
    assert IsCell("host") && IsCell("port") && IsCell("pubkey_hex");
    hide Cells, TableRow, PrintInt, IsCell, Rows, IsRule;
    CellsOfTableRow("host", "port", "pubkey_hex");
    CellsOfTableRow(b.host, PrintInt(b.port), b.pubkeyHex);
    SeparatorHasNoCells();
    RowsOfFour(
      TableRow("host", "port", "pubkey_hex"), SEPARATOR, TableRow(b.host, PrintInt(b.port), b.pubkeyHex), "");
  }

  ghost predicate LegalPeer(b: Boot) {
    b.host != "" && 1024 <= b.port <= 65535 && IsPubkey(Lower(b.pubkeyHex))
  }

  lemma PeersOfOneRow(row: seq<string>)
    ensures PeersOf([row]).Ok? <==> PeerOfRow(row).Ok?
    ensures PeerOfRow(row).Ok? ==> PeersOf([row]) == Ok([PeerOfRow(row).value])
  {
    hide PeerOfRow;
    assert [row][..0] == [] && PeersOf([]) == Ok([]);
    if PeerOfRow(row).Ok? {
      assert !Listed([], PeerOfRow(row).value.host, PeerOfRow(row).value.port);
      assert [] + [PeerOfRow(row).value] == [PeerOfRow(row).value];
    }
  }

  lemma PrintedPeer(b: Boot)
    ensures var r := GenesisPeersOf([["host", "port", "pubkey_hex"], [b.host, PrintInt(b.port), b.pubkeyHex]]);
            && (r.Ok? <==> LegalPeer(b))
            && (LegalPeer(b) ==> r == Ok([GenesisPeer(b.host, b.port, Lower(b.pubkeyHex))]))
  {
    ParseOfPrintInt(b.port);
    assert Lower("host") == "host" && Lower("port") == "port" && Lower("pubkey_hex") == "pubkey_hex";
    hide Lower, ParseInt, PrintInt, IsPubkey, PeersOf;
    var row := [b.host, PrintInt(b.port), b.pubkeyHex];
    var header := ["host", "port", "pubkey_hex"];
    assert seq(3, i requires 0 <= i < 3 => Lower(header[i])) == header;
    assert [header, row][1..] == [row];
    PeersOfOneRow(row);
  }

  // -------------------------------------------------------------------------
  // Overlay lines
  // -------------------------------------------------------------------------

  /** A printed hash is read back, whatever follows it but a further word character. */
  lemma Sha1OfPrinted(hash: string, suffix: string)
    requires IsSha1(hash) && (suffix == "" || !IsWord(suffix[0]))
    ensures Sha1Of("- sha1: " + hash + suffix) == Some(hash)
  {
    var tail := hash + suffix;
    var keyed, colon := "sha1: " + tail, ": " + tail;
    var line := "- sha1: " + hash + suffix;
    assert line == "- " + keyed && keyed == "sha1" + colon;
    assert line[0] == '-' && line[1..] == " " + keyed;
    assert "sha1" <= keyed && keyed[4..] == colon && colon[1..] == " " + tail;
    assert tail[0] == hash[0] && IsLowerHex(hash[0]) && !IsSpace(tail[0]);
    LstripPadded(line);
    LstripPadded(keyed);
    LstripPadded(colon);
    LstripPadded(tail);
    assert tail[..40] == hash && (suffix != "" ==> tail[40] == suffix[0]);
    hide Lstrip, IsSha1, IsWord;
  }

  lemma Sha1OfOverlayLine(hash: string)
    requires IsSha1(hash)
    ensures Sha1Of(OverlayLine(hash)) == Some(hash)
  {
    Sha1OfPrinted(hash, "  (default overlay)");
  }

  ghost predicate Prints(hashes: seq<string>, lines: seq<string>) {
    |lines| == |hashes| && forall i :: 0 <= i < |lines| ==> IsSha1(hashes[i]) && lines[i] == OverlayLine(hashes[i])
  }

  lemma DistinctSnoc(hashes: seq<string>, last: string)
    ensures DistinctOverlays(hashes + [last]) <==> DistinctOverlays(hashes) && last !in hashes
  {
    var more := hashes + [last];
    if DistinctOverlays(more) {
      assert forall i :: 0 <= i < |hashes| ==> more[i] == hashes[i] && more[i] != more[|hashes|];
    }
  }

  lemma {:induction false} OverlaysOfLines(hashes: seq<string>, lines: seq<string>)
    requires Prints(hashes, lines)
    ensures OverlaysOf(lines).Ok? <==> DistinctOverlays(hashes)
    ensures DistinctOverlays(hashes) ==> OverlaysOf(lines) == Ok(hashes)
  {
    if hashes != [] {
      var n := |hashes| - 1;
      var init, last := hashes[..n], hashes[n];
      assert Prints(init, lines[..n]) && hashes == init + [last];
      OverlaysOfLines(init, lines[..n]);
      Sha1OfOverlayLine(last);
      DistinctSnoc(init, last);
      assert lines[n] == OverlayLine(last);
      hide IsSha1, Sha1Of, OverlayLine, Prints, DistinctOverlays;
    }
  }

  lemma PrintedOverlays(hashes: seq<string>)
    requires forall h :: h in hashes ==> IsSha1(h)
    ensures OverlaysOf(OverlayLines(hashes) + [""]).Ok? <==> DistinctOverlays(hashes)
    ensures DistinctOverlays(hashes) ==> OverlaysOf(OverlayLines(hashes) + [""]) == Ok(hashes)
    ensures hashes == [] ==> OverlayLines(hashes) == [NO_OVERLAYS]
  {
    var lines := OverlayLines(hashes);
    assert (lines + [""])[..|lines|] == lines;
    assert Sha1Of("") == None;
    if hashes == [] {
      NoticeIsPlainText();
      assert Sha1Of(NO_OVERLAYS) == None;
      assert lines[..0] == [] && OverlaysOf([]) == Ok([]);
      assert OverlaysOf(lines) == Ok([]);
    } else {
      OverlaysOfLines(hashes, lines);
    }
  }

  // -------------------------------------------------------------------------
  // Sections
  // -------------------------------------------------------------------------

  ghost predicate NoHeading(lines: seq<string>) {
    forall line :: line in lines ==> !IsHeading(line)
  }

  lemma {:induction false} OutlineBody(body: seq<string>, rest: seq<string>)
    requires NoHeading(body) && Outline(rest).0 == []
    ensures Outline(body + rest) == (body, Outline(rest).1)
  {
    if body == [] {
      assert body + rest == rest;
    } else {
      assert (body + rest)[1..] == body[1..] + rest && (body + rest)[0] == body[0] && body[0] in body;
      OutlineBody(body[1..], rest);
      assert body == [body[0]] + body[1..];
    }
  }

  lemma HeadingOf(name: string)
    requires Trimmed(name)
    ensures IsHeading("# " + name) && Strip(("# " + name)[2..]) == name
  {
    assert ("# " + name)[2..] == name;
    StripPadded(name);
  }

  /** A text laid out in sections is read back as those sections. */
  lemma {:induction false} OutlineOfLines(sections: seq<Section>)
    requires forall s :: s in sections ==> Trimmed(s.name) && NoHeading(s.body)
    ensures Outline(LinesOf(sections)) == ([], sections)
  {
    if sections == [] {
      assert Outline([]) == ([], []);
    } else {
      hide Strip, NoHeading, Trimmed, IsHeading, Outline;
      var (first, rest) := (sections[0], LinesOf(sections[1..]));
      OutlineOfLines(sections[1..]);
      OutlineBody(first.body, rest);
      HeadingOf(first.name);
      OutlineFirst("# " + first.name, first.body + rest);
      assert LinesOf(sections) == ["# " + first.name] + (first.body + rest);
      assert sections == [Section(first.name, first.body)] + sections[1..];
    }
  }

  /** Lines added at the end belong to the last section. */
  function Lengthened(sections: seq<Section>, more: seq<string>): seq<Section>
    requires sections != []
  {
    var last := sections[|sections| - 1];
    sections[..|sections| - 1] + [Section(last.name, last.body + more)]
  }

  lemma {:induction false} LinesOfLengthened(sections: seq<Section>, more: seq<string>)
    requires sections != []
    ensures LinesOf(Lengthened(sections, more)) == LinesOf(sections) + more
  {
    var longer := Lengthened(sections, more);
    if |sections| == 1 {
      assert longer[1..] == [] == sections[1..];
    } else {
      LinesOfLengthened(sections[1..], more);
      assert longer[1..] == Lengthened(sections[1..], more);
    }
  }

  /** What the parser sees of a printed boot: the text ends in a newline, hence an empty last line. */
  function ParsedSections(b: Boot): seq<Section> {
    [Section("Identity", IdentityLines(b)),
     Section("Admission", AdmissionLines(b.policy)),
     Section("Genesis Peers", PeerLines(b)),
     Section("Default Overlays", OverlayLines(b.overlays) + [""])]
  }

  lemma BootLinesAreBodies(b: Boot)
    ensures NoHeading(IdentityLines(b)) && NoHeading(AdmissionLines(b.policy)) && NoHeading(PeerLines(b))
    ensures NoHeading(OverlayLines(b.overlays) + [""])
  {
    forall hash: string ensures OverlayLine(hash)[0] == '-' {
    }
    forall key: string, value: string ensures Bullet(key, value)[0] == '-' {
    }
    NoticeIsPlainText();
    hide OverlayLine, Bullet;
    var lines := OverlayLines(b.overlays);
    forall i | 0 <= i < |lines| ensures !IsHeading(lines[i]) {
    }
  }

  lemma OutlineOfBoot(b: Boot)
    ensures Outline(LinesOf(SectionsOfBoot(b)) + [""]) == ([], ParsedSections(b))
  {
    BootLinesAreBodies(b);
    hide IdentityLines, AdmissionLines, PeerLines, OverlayLines, NoHeading;
    assert Lengthened(SectionsOfBoot(b), [""]) == ParsedSections(b);
    LinesOfLengthened(SectionsOfBoot(b), [""]);
    hide LinesOf, Outline;
    OutlineOfLines(ParsedSections(b));
  }

  ghost predicate AllInOneLine(lines: seq<string>) {
    forall line :: line in lines ==> InOneLine(line)
  }

  lemma BodyOfSection(sections: seq<Section>, k: nat)
    requires k < |sections|
    requires forall i, j :: 0 <= i < j < |sections| ==> sections[i].name != sections[j].name
    ensures sections[k].name in BodyByName(sections)
    ensures BodyByName(sections)[sections[k].name] == Join(sections[k].body, '\n')
    decreases |sections|
  {
    if k < |sections| - 1 {
      BodyOfSection(sections[..|sections| - 1], k);
    }
  }

  /** Joining the lines of a section and splitting them again gives them back. */
  lemma SectionLinesOfBoot(b: Boot, k: nat)
    requires k < 4 && AllInOneLine(ParsedSections(b)[k].body)
    ensures var section := ParsedSections(b)[k];
            && section.name in BodyByName(ParsedSections(b))
            && SectionLines(BodyByName(ParsedSections(b)), section.name) == section.body
  {
    BodyOfSection(ParsedSections(b), k);
    SplitOfJoin(ParsedSections(b)[k].body, '\n');
  }

  lemma OrderOfBoot(b: Boot)
    ensures RequiredAmong(Names(ParsedSections(b))) == REQUIRED_SECTIONS
  {
    var names := Names(ParsedSections(b));
    assert names == REQUIRED_SECTIONS;
    assert names[1..] == ["Admission", "Genesis Peers", "Default Overlays"];
    assert names[1..][1..] == ["Genesis Peers", "Default Overlays"];
    assert names[1..][1..][1..] == ["Default Overlays"];
    assert names[1..][1..][1..][1..] == [];
    assert names[0] in REQUIRED_SECTIONS && names[1] in REQUIRED_SECTIONS;
    assert names[2] in REQUIRED_SECTIONS && names[3] in REQUIRED_SECTIONS;
  }

  // -------------------------------------------------------------------------
  // Round trip
  // -------------------------------------------------------------------------

  /** The manifest a boot means; public keys are read in lower case. */
  function Meant(b: Boot): NetworkManifest {
    NetworkManifest(
      b.Identity(), b.policy, [GenesisPeer(b.host, b.port, Lower(b.pubkeyHex))], b.overlays, Canon(BuildManifest(b)))
  }

  /** Fields that occupy their place in the text: one line, no outer blanks, no cell separator. */
  ghost predicate Printable(b: Boot) {
    && b.scenario != "" && Trimmed(b.scenario) && InOneLine(b.scenario)
    && b.policy.gatekeeperAddress != "" && Trimmed(b.policy.gatekeeperAddress) && InOneLine(b.policy.gatekeeperAddress)
    && IsCell(b.host) && IsCell(b.pubkeyHex)
    && forall h :: h in b.overlays ==> IsSha1(h)
  }

  ghost predicate LegalBoot(b: Boot) {
    && IsSnakeCase(b.scenario)
    && WellFormedPolicy(b.policy)
    && LegalPeer(b) && IsCell(b.host)
    && DistinctOverlays(b.overlays) && forall h :: h in b.overlays ==> IsSha1(h)
  }

  lemma BulletInOneLine(key: string, value: string)
    requires InOneLine(key) && InOneLine(value)
    ensures InOneLine(Bullet(key, value))
  {
  }

  lemma CellInOneLine(s: string)
    requires IsCell(s)
    ensures InOneLine(s)
  {
  }

  lemma KeysInOneLine()
    ensures InOneLine("name") && InOneLine("version") && InOneLine("description") && InOneLine("1.0.0")
    ensures InOneLine("gatekeeper_address") && InOneLine("min_sats") && InOneLine("min_confirmations")
    ensures InOneLine("bootstrap_cap_sats") && InOneLine("max_agents_per_seedbox") && InOneLine("seedbox_cost_sats")
    ensures InOneLine("")
  {
  }

  lemma DescriptionInOneLine(b: Boot)
    requires InOneLine(b.scenario)
    ensures InOneLine(b.Description())
  {
    var head := "Auto-generated manifest for scenario ";
    assert InOneLine(head);
    assert InOneLine(head + b.scenario);
  }

  lemma BulletsInOneLine(b: Boot)
    requires Printable(b)
    ensures AllInOneLine(IdentityLines(b)) && AllInOneLine(AdmissionLines(b.policy))
  {
    hide InOneLine, Bullet, PrintInt, IsCell, IsSha1, Trimmed;
    KeysInOneLine();
    DescriptionInOneLine(b);
    forall key: string, n: int | InOneLine(key) ensures InOneLine(Bullet(key, PrintInt(n))) {
      PortIsCell(n);
      CellInOneLine(PrintInt(n));
      BulletInOneLine(key, PrintInt(n));
    }
    BulletInOneLine("name", b.scenario);
    BulletInOneLine("version", "1.0.0");
    BulletInOneLine("description", b.Description());
    BulletInOneLine("gatekeeper_address", b.policy.gatekeeperAddress);
  }

  lemma TableRowInOneLine(a: string, b: string, c: string)
    requires InOneLine(a) && InOneLine(b) && InOneLine(c)
    ensures InOneLine(TableRow(a, b, c))
  {
    var p, q, r := Padded(a), Padded(b), Padded(c);
    assert [p, q, r][1..] == [q, r] && [q, r][1..] == [r];
    assert Join([q, r], '|') == q + ['|'] + r && Join([p, q, r], '|') == p + ['|'] + (q + ['|'] + r);
    hide Join;
  }

  lemma FixedLinesInOneLine()
    ensures InOneLine("host") && InOneLine("port") && InOneLine("pubkey_hex") && InOneLine("") && InOneLine(SEPARATOR)
  {
  }

  lemma HeadingsInOneLine()
    ensures InOneLine("Identity") && InOneLine("Admission")
    ensures InOneLine("Genesis Peers") && InOneLine("Default Overlays")
  {
  }

  lemma RowsInOneLine(b: Boot)
    requires Printable(b)
    ensures AllInOneLine(PeerLines(b))
  {
    PortIsCell(b.port);
    FixedLinesInOneLine();
    TableRowInOneLine("host", "port", "pubkey_hex");
    TableRowInOneLine(b.host, PrintInt(b.port), b.pubkeyHex);
    hide InOneLine, TableRow, PrintInt, IsSha1;
  }

  lemma OverlayLineInOneLine(hash: string)
    requires IsSha1(hash)
    ensures InOneLine(OverlayLine(hash))
  {
    assert InOneLine("  (default overlay)") && InOneLine("- sha1: ") && InOneLine(hash);
  }

  lemma OverlaysInOneLine(b: Boot)
    requires Printable(b)
    ensures AllInOneLine(OverlayLines(b.overlays) + [""])
  {
    hide InOneLine, IsSha1, OverlayLine, IsCell, Trimmed;
    NoticeIsPlainText();
    FixedLinesInOneLine();
    var lines := OverlayLines(b.overlays);
    forall i | 0 <= i < |lines| ensures InOneLine(lines[i]) {
      if b.overlays != [] {
        assert b.overlays[i] in b.overlays;
        OverlayLineInOneLine(b.overlays[i]);
      }
    }
  }

  lemma {:induction false} LinesInOneLine(sections: seq<Section>)
    requires forall s :: s in sections ==> InOneLine(s.name) && AllInOneLine(s.body)
    ensures AllInOneLine(LinesOf(sections))
  {
    if sections != [] {
      LinesInOneLine(sections[1..]);
      assert sections[0] in sections;
      assert InOneLine("# " + sections[0].name);
      hide InOneLine;
    }
  }

  lemma BootInOneLine(b: Boot)
    requires Printable(b)
    ensures AllInOneLine(LinesOf(SectionsOfBoot(b)))
  {
    hide IdentityLines, AdmissionLines, PeerLines, LinesOf, InOneLine, Printable;
    BulletsInOneLine(b);
    RowsInOneLine(b);
    OverlaysInOneLine(b);
    HeadingsInOneLine();
    assert AllInOneLine(OverlayLines(b.overlays)) by {
      var o := OverlayLines(b.overlays);
      assert forall line :: line in o ==> line in o + [""];
    }
    hide OverlayLines, AllInOneLine;
    LinesInOneLine(SectionsOfBoot(b));
  }

  lemma BodiesOfBoot(b: Boot)
    requires Printable(b)
    ensures Bodies(BuildManifest(b)) == (BodyByName(ParsedSections(b)), Names(ParsedSections(b)))
  {
    hide LinesOf, Outline, BodyByName, Names, AllInOneLine, Split, Unlines, SectionsOfBoot, ParsedSections, Printable;
    BootInOneLine(b);
    OutlineOfBoot(b);
    AllLack(LinesOf(SectionsOfBoot(b)));
    SplitOfUnlines(LinesOf(SectionsOfBoot(b)));
  }

  lemma AllLack(lines: seq<string>)
    requires AllInOneLine(lines)
    ensures forall line :: line in lines ==> Lacks(line, '\n')
  {
  }

  /** A printable boot parses exactly when it is legal, and then to exactly what it means. */
  lemma PrintedParsesIff(b: Boot)
    requires Printable(b)
    ensures Manifest(BuildManifest(b)).Ok? <==> LegalBoot(b)
    ensures LegalBoot(b) ==> Manifest(BuildManifest(b)) == Ok(Meant(b))
  {
    hide Bodies, KvOf, Rows, OverlaysOf, PeersOf, Split, Canon, BuildManifest, BodyByName, Names;
    hide ParseIdentity, ParseAdmission, GenesisPeersOf, RequiredAmong, WellFormedPolicy, LegalPeer, IsCell;
    hide IdentityLines, AdmissionLines, PeerLines, OverlayLines, IsSnakeCase, DistinctOverlays, IsSha1, AllInOneLine;
    hide AdmissionKv, PrintInt, Lower, SectionLines, Trimmed, InOneLine;
    BodiesOfBoot(b);
    OrderOfBoot(b);
    BulletsInOneLine(b);
    RowsInOneLine(b);
    OverlaysInOneLine(b);
    SectionLinesOfBoot(b, 0);
    SectionLinesOfBoot(b, 1);
    SectionLinesOfBoot(b, 2);
    SectionLinesOfBoot(b, 3);
    KvOfIdentity(b);
    PrintedIdentity(b);
    KvOfAdmission(b.policy);
    PrintedAdmission(b.policy);
    RowsOfPeers(b);
    PrintedPeer(b);
    PrintedOverlays(b.overlays);
  }

  lemma LegalIsPrintable(b: Boot)
    requires LegalBoot(b)
    ensures Printable(b)
  {
    assert Lacks(b.scenario, '\n') && Trimmed(b.scenario);
    var address := b.policy.gatekeeperAddress;
    assert address != "" && Trimmed(address) && Lacks(address, '\n');
    var pubkey := b.pubkeyHex;
    forall i | 0 <= i < |pubkey| ensures pubkey[i] != '|' && pubkey[i] != '\n' && !IsSpace(pubkey[i]) {
      assert Lower(pubkey)[i] == LowerChar(pubkey[i]) && IsLowerHex(Lower(pubkey)[i]);
    }
  }

  /** The round trip succeeds for legal boots and for no others, whatever the fields hold. */
  lemma RoundTripIff(b: Boot)
    ensures Manifest(BuildManifest(b)) == Ok(Meant(b)) <==> LegalBoot(b)
  {
    hide Manifest, BuildManifest, Canon;
    if LegalBoot(b) {
      LegalIsPrintable(b);
      PrintedParsesIff(b);
    }
    if Manifest(BuildManifest(b)) == Ok(Meant(b)) {
      AcceptedIsWellFormed(BuildManifest(b));
      assert WellFormedPeer(Meant(b).genesisPeers[0]);
    }
  }

  /** What a legal boot's manifest says, field by field. */
  lemma PrintedManifestSays(b: Boot)
    requires LegalBoot(b)
    ensures Manifest(BuildManifest(b)).Ok?
    ensures var m := Manifest(BuildManifest(b)).value;
            && m.identity.Keys == {"name", "version", "description"}
            && m.identity["name"] == b.scenario && m.identity["version"] == "1.0.0"
            && m.identity["description"] == "Auto-generated manifest for scenario " + b.scenario + "."
            && m.admission == b.policy && m.defaultOverlays == b.overlays
            && m.genesisPeers == [GenesisPeer(b.host, b.port, Lower(b.pubkeyHex))]
  {
    RoundTripIff(b);
    hide BuildManifest, Manifest, LegalBoot;
  }
}
