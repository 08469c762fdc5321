/** Network manifests: what the parser accepts, stated on lines, and the loops that compute it. */
module ManifestSyntax {
  import opened Collections
  import opened Text
  import opened CommunityLedger
  import opened Canonical

  datatype ManifestError =
    | MissingSections(names: seq<string>)
    | SectionsOutOfOrder(found: seq<string>)
    | MissingKey(key: string)
    | NotSnakeCase(name: string)
    | NotSemver(version: string)
    | EmptyDescription
    | BadAddress(address: string)
    | NotAnInteger(field: string, raw: string)
    | OutOfRange(field: string, number: int)
    | CapBelowMinimum(cap: int, minimum: int)
    | NoTableRows
    | BadTableHeader(header: seq<string>)
    | BadRowShape(row: seq<string>)
    | EmptyHost
    | BadPubkey(pubkey: string)
    | DuplicatePeer(host: string, port: int)
    | NoPeers
    | DuplicateOverlay(sha1: string)

  datatype Result<+T> = Ok(value: T) | Err(error: ManifestError)
  {
    predicate IsFailure() {
      Err?
    }

    function PropagateFailure<U>(): Result<U>
      requires Err?
    {
      Err(error)
    }

    function Extract(): T
      requires Ok?
    {
      value
    }
  }

  datatype GenesisPeer = GenesisPeer(host: string, port: int, pubkeyHex: string)

  datatype NetworkManifest = NetworkManifest(
    identity: map<string, string>,
    admission: AdmissionPolicy,
    genesisPeers: seq<GenesisPeer>,
    defaultOverlays: seq<string>,
    canonicalText: string)

  const REQUIRED_SECTIONS := ["Identity", "Admission", "Genesis Peers", "Default Overlays"]
  const MAX_UINT64 := 0xFFFF_FFFF_FFFF_FFFF
  const MAX_UINT16 := 0xFFFF

  // -------------------------------------------------------------------------
  // Sections
  // -------------------------------------------------------------------------

  datatype Section = Section(name: string, body: seq<string>)

  predicate IsHeading(line: string) {
    |line| >= 2 && line[0] == '#' && line[1] == ' '
  }

  /** The lines before the first heading, and one section per heading. */
  function Outline(lines: seq<string>): (seq<string>, seq<Section>) {
    if lines == [] then ([], [])
    else
      var (body, sections) := Outline(lines[1..]);
      if IsHeading(lines[0]) then ([], [Section(Strip(lines[0][2..]), body)] + sections)
      else ([lines[0]] + body, sections)
  }

  /** The section dictionary: of two sections with one name, the later stands. */
  function BodyByName(sections: seq<Section>): map<string, string> {
    if sections == [] then map[]
    else
      var last := sections[|sections| - 1];
      BodyByName(sections[..|sections| - 1])[last.name := Join(last.body, '\n')]
  }

  function Names(sections: seq<Section>): seq<string> {
    seq(|sections|, i requires 0 <= i < |sections| => sections[i].name)
  }

  function RequiredAmong(names: seq<string>): seq<string> {
    if names == [] then []
    else (if names[0] in REQUIRED_SECTIONS then [names[0]] else []) + RequiredAmong(names[1..])
  }

  function Missing(names: seq<string>, bodies: map<string, string>): seq<string> {
    if names == [] then []
    else (if names[0] !in bodies then [names[0]] else []) + Missing(names[1..], bodies)
  }

  function CheckSections(bodies: map<string, string>, order: seq<string>): Result<()> {
    if RequiredAmong(order) == REQUIRED_SECTIONS then Ok(())
    else if Missing(REQUIRED_SECTIONS, bodies) != [] then Err(MissingSections(Missing(REQUIRED_SECTIONS, bodies)))
    else Err(SectionsOutOfOrder(RequiredAmong(order)))
  }

  lemma OutlineFirst(line: string, rest: seq<string>)
    ensures var (body, sections) := Outline(rest);
            Outline([line] + rest) == if IsHeading(line) then ([], [Section(Strip(line[2..]), body)] + sections)
                                      else ([line] + body, sections)
  {
    assert ([line] + rest)[1..] == rest;
  }

  /** The sections of a text of which some are closed, one is open, and the rest is still to be read. */
  function Resumed(closed: seq<Section>, name: string, body: seq<string>, rest: (seq<string>, seq<Section>)):
    seq<Section>
  {
    closed + [Section(name, body + rest.0)] + rest.1
  }

  lemma ResumeAfterHeading(
    closed: seq<Section>, name: string, body: seq<string>, next: string, rest: (seq<string>, seq<Section>))
    ensures Resumed(closed, name, body, ([], [Section(next, rest.0)] + rest.1)) ==
            Resumed(closed + [Section(name, body)], next, [], rest)
  {
    assert body + [] == body && [] + rest.0 == rest.0;
    assert closed + [Section(name, body)] + ([Section(next, rest.0)] + rest.1) ==
           closed + [Section(name, body)] + [Section(next, rest.0)] + rest.1;
  }

  lemma ResumeAfterLine(
    closed: seq<Section>, name: string, body: seq<string>, line: string, rest: (seq<string>, seq<Section>))
    ensures Resumed(closed, name, body, ([line] + rest.0, rest.1)) == Resumed(closed, name, body + [line], rest)
  {
    assert body + ([line] + rest.0) == body + [line] + rest.0;
  }

  lemma ResumeFirst(name: string, rest: (seq<string>, seq<Section>))
    ensures [Section(name, rest.0)] + rest.1 == Resumed([], name, [], rest)
  {
    assert [] + rest.0 == rest.0;
  }

  lemma CloseSection(closed: seq<Section>, name: string, body: seq<string>)
    ensures BodyByName(closed + [Section(name, body)]) == BodyByName(closed)[name := Join(body, '\n')]
    ensures Names(closed + [Section(name, body)]) == Names(closed) + [name]
    ensures Resumed(closed, name, body, ([], [])) == closed + [Section(name, body)]
  {
    assert (closed + [Section(name, body)])[..|closed|] == closed;
    assert body + [] == body;
  }

  method SplitTopSections(text: string) returns (bodies: map<string, string>, order: seq<string>)
    ensures var sections := Outline(Split(text, '\n')).1;
            bodies == BodyByName(sections) && order == Names(sections)
  {
    var lines := Split(text, '\n');
    bodies, order := map[], [];
    var current: Option<string> := None;
    var body: seq<string> := [];
    ghost var closed: seq<Section> := [];
    assert Outline([]) == ([], []) && Names([]) == [];
    hide Outline, Resumed, IsHeading, Strip, Join, Names, Split;
    assert lines[0..] == lines;
    for i := 0 to |lines|
      invariant bodies == BodyByName(closed)
      invariant order == Names(closed) + (if current.Some? then [current.value] else [])
      invariant current.None? ==> closed == [] && Outline(lines).1 == Outline(lines[i..]).1
      invariant current.Some? ==> Outline(lines).1 == Resumed(closed, current.value, body, Outline(lines[i..]))
    {
      OutlineFirst(lines[i], lines[i + 1..]);
      assert [lines[i]] + lines[i + 1..] == lines[i..];
      if IsHeading(lines[i]) {
        HeadingIsLong(lines[i]);
        var name := Strip(lines[i][2..]);
        if current.Some? {
          bodies := bodies[current.value := Join(body, '\n')];
          ResumeAfterHeading(closed, current.value, body, name, Outline(lines[i + 1..]));
          CloseSection(closed, current.value, body);
          closed := closed + [Section(current.value, body)];
        } else {
          ResumeFirst(name, Outline(lines[i + 1..]));
        }
        current := Some(name);
        body := [];
        order := order + [name];
      } else {
        if current.Some? {
          ResumeAfterLine(closed, current.value, body, lines[i], Outline(lines[i + 1..]));
        }
        body := body + [lines[i]];
      }
    }
    assert lines[|lines|..] == [];
    if current.Some? {
      bodies := bodies[current.value := Join(body, '\n')];
      CloseSection(closed, current.value, body);
    }
  }

  lemma HeadingIsLong(line: string)
    ensures IsHeading(line) ==> |line| >= 2
  {
  }

  // -------------------------------------------------------------------------
  // Key/value lists
  // -------------------------------------------------------------------------

  predicate IsLetter(c: char) {
    'a' <= c <= 'z' || 'A' <= c <= 'Z'
  }

  predicate IsWord(c: char) {
    IsLetter(c) || IsDigit(c) || c == '_'
  }

  function WordPrefix(s: string): (word: string)
    ensures word <= s
  {
    if s != "" && IsWord(s[0]) then [s[0]] + WordPrefix(s[1..]) else ""
  }

  /** `- key: value`, with free spacing; a blank value is kept as its last character. */
  function ParseKv(line: string): Option<(string, string)> {
    var dashed := Lstrip(line);
    if dashed == "" || dashed[0] != '-' then None
    else
      var keyed := Lstrip(dashed[1..]);
      var key := WordPrefix(keyed);
      if key == "" || IsDigit(key[0]) then None
      else
        var colon := Lstrip(keyed[|key|..]);
        if |colon| < 2 || colon[0] != ':' then None
        else
          var value := Strip(colon[1..]);
          Some((key, if value == "" then [colon[|colon| - 1]] else value))
  }

  /** The dictionary of a bullet list: of two bullets with one key, the later stands. */
  function KvOf(lines: seq<string>): map<string, string> {
    if lines == [] then map[]
    else
      var earlier := KvOf(lines[..|lines| - 1]);
      match ParseKv(lines[|lines| - 1])
      case None => earlier
      case Some((key, value)) => earlier[key := value]
  }

  method ParseKvList(body: string) returns (kv: map<string, string>)
    ensures kv == KvOf(Split(body, '\n'))
  {
    var lines := Split(body, '\n');
    kv := map[];
    for i := 0 to |lines|
      invariant kv == KvOf(lines[..i])
    {
      assert lines[..i + 1][..i] == lines[..i];
      match ParseKv(lines[i]) {
        case None =>
        case Some((key, value)) => kv := kv[key := value];
      }
    }
    assert lines[..|lines|] == lines;
  }

  // -------------------------------------------------------------------------
  // Identity and admission
  // -------------------------------------------------------------------------

  predicate IsSnakeCase(s: string) {
    s != "" && 'a' <= s[0] <= 'z' && forall i :: 0 <= i < |s| ==> 'a' <= s[i] <= 'z' || IsDigit(s[i]) || s[i] == '_'
  }

  predicate IsNumeral(s: string) {
    s != "" && forall i :: 0 <= i < |s| ==> IsDigit(s[i])
  }

  predicate IsSemver(s: string) {
    var parts := Split(s, '.');
    |parts| == 3 && IsNumeral(parts[0]) && IsNumeral(parts[1]) && IsNumeral(parts[2])
  }

  predicate IsLowerHex(c: char) {
    IsDigit(c) || 'a' <= c <= 'f'
  }

  predicate IsBech32Char(c: char) {
    (IsDigit(c) && c != '1') || ('a' <= c <= 'z' && c !in {'b', 'i', 'o'})
  }

  predicate IsGatekeeperAddress(s: string) {
    || ((("tb1" <= s) || ("bc1" <= s)) && |s| > 3 && forall i :: 3 <= i < |s| ==> IsBech32Char(s[i]))
    || ("dclaw1" <= s && |s| > 6 && forall i :: 6 <= i < |s| ==> IsLowerHex(s[i]))
  }

  function Lookup(kv: map<string, string>, key: string): Result<string> {
    if key in kv then Ok(kv[key]) else Err(MissingKey(key))
  }

  function Integer(field: string, raw: string): Result<int> {
    match ParseInt(raw)
    case None => Err(NotAnInteger(field, raw))
    case Some(n) => Ok(n)
  }

  function InRange(field: string, n: int, low: int, high: int): Result<()> {
    if low <= n <= high then Ok(()) else Err(OutOfRange(field, n))
  }

  function ParseIdentity(kv: map<string, string>): Result<map<string, string>> {
    var name :- Lookup(kv, "name");
    var version :- Lookup(kv, "version");
    var description :- Lookup(kv, "description");
    if !IsSnakeCase(name) then Err(NotSnakeCase(name))
    else if !IsSemver(version) then Err(NotSemver(version))
    else if Strip(description) == "" then Err(EmptyDescription)
    else Ok(kv)
  }

  function ParseOptionalUint(kv: map<string, string>, key: string, max: int): Result<int> {
    if key !in kv then Ok(0)
    else
      var n :- Integer(key, kv[key]);
      var _ :- InRange(key, n, 0, max);
      Ok(n)
  }

  function ParseAdmission(kv: map<string, string>): Result<AdmissionPolicy> {
    var address :- Lookup(kv, "gatekeeper_address");
    var rawMin :- Lookup(kv, "min_sats");
    var rawConfirmations :- Lookup(kv, "min_confirmations");
    if !IsGatekeeperAddress(address) then Err(BadAddress(address))
    else
      var minSats :- Integer("min_sats", rawMin);
      if minSats < 1 then Err(OutOfRange("min_sats", minSats))
      else
        var confirmations :- Integer("min_confirmations", rawConfirmations);
        var _ :- InRange("min_confirmations", confirmations, 0, MAX_UINT16);
        var cap :- ParseOptionalUint(kv, "bootstrap_cap_sats", MAX_UINT64);
        if cap != 0 && cap < minSats then Err(CapBelowMinimum(cap, minSats))
        else
          var maxAgents :- ParseOptionalUint(kv, "max_agents_per_seedbox", MAX_UINT16);
          var cost :- ParseOptionalUint(kv, "seedbox_cost_sats", MAX_UINT64);
          Ok(AdmissionPolicy(address, minSats, confirmations, cap, maxAgents, cost))
  }

  // -------------------------------------------------------------------------
  // Tables and genesis peers
  // -------------------------------------------------------------------------

  function StripLeadingBars(s: string): string {
    if s != "" && s[0] == '|' then StripLeadingBars(s[1..]) else s
  }

  function StripTrailingBars(s: string): string {
    if s != "" && s[|s| - 1] == '|' then StripTrailingBars(s[..|s| - 1]) else s
  }

  function StripBars(s: string): string {
    StripTrailingBars(StripLeadingBars(s))
  }

  /** Nothing but dashes and blanks: a cell of the separator row, or an empty one. */
  predicate IsRule(cell: string) {
    forall i :: 0 <= i < |cell| ==> cell[i] == '-' || cell[i] == ' '
  }

  /** The cells of a table row; other lines, and rows of rules alone, have none. */
  function Cells(line: string): Option<seq<string>> {
    var row := Strip(line);
    if row == "" || row[0] != '|' then None
    else
      var parts := Split(StripBars(row), '|');
      var cells := seq(|parts|, i requires 0 <= i < |parts| => Strip(parts[i]));
      if forall cell :: cell in cells ==> IsRule(cell) then None else Some(cells)
  }

  function Rows(lines: seq<string>): seq<seq<string>> {
    if lines == [] then []
    else Rows(lines[..|lines| - 1]) + match Cells(lines[|lines| - 1]) case None => [] case Some(cells) => [cells]
  }

  method ReadTable(body: string) returns (rows: seq<seq<string>>)
    ensures rows == Rows(Split(body, '\n'))
  {
    var lines := Split(body, '\n');
    rows := [];
    for i := 0 to |lines|
      invariant rows == Rows(lines[..i])
    {
      assert lines[..i + 1][..i] == lines[..i];
      match Cells(lines[i]) {
        case None =>
        case Some(cells) => rows := rows + [cells];
      }
    }
    assert lines[..|lines|] == lines;
  }

  function LowerChar(c: char): char {
    if 'A' <= c <= 'Z' then (c as int + 32) as char else c
  }

  function Lower(s: string): string {
    seq(|s|, i requires 0 <= i < |s| => LowerChar(s[i]))
  }

  predicate IsPubkey(s: string) {
    s != "" && |s| % 2 == 0 && forall i :: 0 <= i < |s| ==> IsLowerHex(s[i])
  }

  function PeerOfRow(row: seq<string>): Result<GenesisPeer> {
    if |row| != 3 then Err(BadRowShape(row))
    else if row[0] == "" then Err(EmptyHost)
    else
      var port :- Integer("port", row[1]);
      var _ :- InRange("port", port, 1024, 65535);
      var pubkey := Lower(row[2]);
      if !IsPubkey(pubkey) then Err(BadPubkey(pubkey)) else Ok(GenesisPeer(row[0], port, pubkey))
  }

  predicate Listed(peers: seq<GenesisPeer>, host: string, port: int) {
    exists p :: p in peers && p.host == host && p.port == port
  }

  /** The peers of the rows below the header, or the error of the first bad row. */
  function PeersOf(rows: seq<seq<string>>): Result<seq<GenesisPeer>> {
    if rows == [] then Ok([])
    else
      var earlier :- PeersOf(rows[..|rows| - 1]);
      var peer :- PeerOfRow(rows[|rows| - 1]);
      if Listed(earlier, peer.host, peer.port) then Err(DuplicatePeer(peer.host, peer.port)) else Ok(earlier + [peer])
  }

  function GenesisPeersOf(rows: seq<seq<string>>): Result<seq<GenesisPeer>> {
    if rows == [] then Err(NoTableRows)
    else
      var header := seq(|rows[0]|, i requires 0 <= i < |rows[0]| => Lower(rows[0][i]));
      if header != ["host", "port", "pubkey_hex"] then Err(BadTableHeader(header))
      else
        var peers :- PeersOf(rows[1..]);
        if peers == [] then Err(NoPeers) else Ok(peers)
  }

  lemma {:induction false} FirstBadRowDecides(rows: seq<seq<string>>, k: nat)
    requires k <= |rows| && PeersOf(rows[..k]).Err?
    ensures PeersOf(rows) == PeersOf(rows[..k])
    decreases |rows|
  {
    if k == |rows| {
      assert rows[..k] == rows;
    } else {
      assert rows[..|rows| - 1][..k] == rows[..k];
      FirstBadRowDecides(rows[..|rows| - 1], k);
    }
  }

  method ParseGenesisPeers(body: string) returns (r: Result<seq<GenesisPeer>>)
    ensures r == GenesisPeersOf(Rows(Split(body, '\n')))
  {
    var rows := ReadTable(body);
    if rows == [] {
      return Err(NoTableRows);
    }
    var header := seq(|rows[0]|, i requires 0 <= i < |rows[0]| => Lower(rows[0][i]));
    if header != ["host", "port", "pubkey_hex"] {
      return Err(BadTableHeader(header));
    }
    r := ParsePeerRows(rows[1..]);
    if r.Ok? && r.value == [] {
      return Err(NoPeers);
    }
  }

  /** The loop over the rows below the header. */
  method ParsePeerRows(below: seq<seq<string>>) returns (r: Result<seq<GenesisPeer>>)
    ensures r == PeersOf(below)
  {
    hide PeerOfRow, Listed;
    var peers: seq<GenesisPeer> := [];
    var seen: set<(string, int)> := {};
    NobodyListed();
    for i := 0 to |below|
      invariant PeersOf(below[..i]) == Ok(peers)
      invariant forall host, port :: (host, port) in seen <==> Listed(peers, host, port)
    {
      assert below[..i + 1][..i] == below[..i];
      var parsed := PeerOfRow(below[i]);
      if parsed.Err? {
        FirstBadRowDecides(below, i + 1);
        return Err(parsed.error);
      }
      var peer := parsed.value;
      if (peer.host, peer.port) in seen {
        FirstBadRowDecides(below, i + 1);
        return Err(DuplicatePeer(peer.host, peer.port));
      }
      ListedSnoc(peers, peer);
      seen := seen + {(peer.host, peer.port)};
      peers := peers + [peer];
    }
    assert below[..|below|] == below;
    r := Ok(peers);
  }

  lemma NobodyListed()
    ensures forall host, port :: !Listed([], host, port)
  {
  }

  lemma ListedSnoc(peers: seq<GenesisPeer>, peer: GenesisPeer)
    ensures forall host, port :: Listed(peers + [peer], host, port) <==>
              Listed(peers, host, port) || (host == peer.host && port == peer.port)
  {
    assert forall p :: p in peers + [peer] <==> p in peers || p == peer;
  }

  // -------------------------------------------------------------------------
  // Default overlays
  // -------------------------------------------------------------------------

  predicate IsSha1(s: string) {
    |s| == 40 && forall i :: 0 <= i < |s| ==> IsLowerHex(s[i])
  }

  /** `- sha1: <40 hex digits>`, followed by anything that does not lengthen the word. */
  function Sha1Of(line: string): Option<string> {
    var dashed := Lstrip(line);
    if dashed == "" || dashed[0] != '-' then None
    else
      var keyed := Lstrip(dashed[1..]);
      if !("sha1" <= keyed) then None
      else
        var colon := Lstrip(keyed[4..]);
        if colon == "" || colon[0] != ':' then None
        else
          var digits := Lstrip(colon[1..]);
          if |digits| < 40 || !IsSha1(digits[..40]) || (|digits| > 40 && IsWord(digits[40])) then None
          else Some(digits[..40])
  }

  function OverlaysOf(lines: seq<string>): Result<seq<string>> {
    if lines == [] then Ok([])
    else
      var earlier :- OverlaysOf(lines[..|lines| - 1]);
      match Sha1Of(lines[|lines| - 1])
      case None => Ok(earlier)
      case Some(sha1) => if sha1 in earlier then Err(DuplicateOverlay(sha1)) else Ok(earlier + [sha1])
  }

  lemma {:induction false} FirstDuplicateDecides(lines: seq<string>, k: nat)
    requires k <= |lines| && OverlaysOf(lines[..k]).Err?
    ensures OverlaysOf(lines) == OverlaysOf(lines[..k])
    decreases |lines|
  {
    if k == |lines| {
      assert lines[..k] == lines;
    } else {
      assert lines[..|lines| - 1][..k] == lines[..k];
      FirstDuplicateDecides(lines[..|lines| - 1], k);
    }
  }

  method ParseDefaultOverlays(body: string) returns (r: Result<seq<string>>)
    ensures r == OverlaysOf(Split(body, '\n'))
  {
    var lines := Split(body, '\n');
    var hashes: seq<string> := [];
    var seen: set<string> := {};
    for i := 0 to |lines|
      invariant OverlaysOf(lines[..i]) == Ok(hashes)
      invariant seen == Elements(hashes)
    {
      assert lines[..i + 1][..i] == lines[..i];
      match Sha1Of(lines[i]) {
        case None =>
        case Some(sha1) =>
          if sha1 in seen {
            FirstDuplicateDecides(lines, i + 1);
            return Err(DuplicateOverlay(sha1));
          }
          seen := seen + {sha1};
          hashes := hashes + [sha1];
      }
    }
    assert lines[..|lines|] == lines;
    r := Ok(hashes);
  }

  // -------------------------------------------------------------------------
  // Whole manifests
  // -------------------------------------------------------------------------

  /** The lines of a required section, as its own parser sees them. */
  function SectionLines(bodies: map<string, string>, name: string): seq<string>
    requires name in bodies
  {
    Split(bodies[name], '\n')
  }

  lemma {:induction false} CheckedSectionsExist(sections: seq<Section>)
    ensures forall name :: name in RequiredAmong(Names(sections)) ==> name in BodyByName(sections)
  {
    if sections != [] {
      var front := sections[..|sections| - 1];
      CheckedSectionsExist(front);
      assert Names(sections) == Names(front) + [sections[|sections| - 1].name];
      RequiredAmongConcat(Names(front), [sections[|sections| - 1].name]);
    }
  }

  lemma RequiredAmongFirst(first: string, rest: seq<string>)
    ensures RequiredAmong([first] + rest) == (if first in REQUIRED_SECTIONS then [first] else []) + RequiredAmong(rest)
  {
    assert ([first] + rest)[1..] == rest;
  }

  lemma {:induction false} RequiredAmongConcat(a: seq<string>, b: seq<string>)
    ensures RequiredAmong(a + b) == RequiredAmong(a) + RequiredAmong(b)
  {
    if a == [] {
      assert a + b == b && [] + RequiredAmong(b) == RequiredAmong(b);
    } else {
      var first, rest := a[0], a[1..];
      assert a == [first] + rest && a + b == [first] + (rest + b);
      RequiredAmongConcat(rest, b);
      RequiredAmongFirst(first, rest);
      RequiredAmongFirst(first, rest + b);
      hide RequiredAmong;
    }
  }

  function Bodies(text: string): (map<string, string>, seq<string>) {
    var sections := Outline(Split(text, '\n')).1;
    (BodyByName(sections), Names(sections))
  }

  /** The sections a manifest must have are all there once their order has been checked. */
  lemma AllRequiredPresent(text: string)
    requires CheckSections(Bodies(text).0, Bodies(text).1).Ok?
    ensures forall name :: name in REQUIRED_SECTIONS ==> name in Bodies(text).0
  {
    CheckedSectionsExist(Outline(Split(text, '\n')).1);
  }

  function Manifest(text: string): Result<NetworkManifest> {
    var (bodies, order) := Bodies(text);
    var _ :- CheckSections(bodies, order);
    assert forall name :: name in REQUIRED_SECTIONS ==> name in bodies by {
      AllRequiredPresent(text);
    }
    assert "Identity" == REQUIRED_SECTIONS[0] && "Admission" == REQUIRED_SECTIONS[1];
    assert "Genesis Peers" == REQUIRED_SECTIONS[2] && "Default Overlays" == REQUIRED_SECTIONS[3];
    var identity :- ParseIdentity(KvOf(SectionLines(bodies, "Identity")));
    var admission :- ParseAdmission(KvOf(SectionLines(bodies, "Admission")));
    var peers :- GenesisPeersOf(Rows(SectionLines(bodies, "Genesis Peers")));
    var overlays :- OverlaysOf(SectionLines(bodies, "Default Overlays"));
    Ok(NetworkManifest(identity, admission, peers, overlays, Canon(text)))
  }

  method ParseManifest(text: string) returns (r: Result<NetworkManifest>)
    ensures r == Manifest(text)
  {
    var bodies, order := SplitTopSections(text);
    var checked := CheckSections(bodies, order);
    if checked.Err? {
      return Err(checked.error);
    }
    AllRequiredPresent(text);
    assert "Identity" == REQUIRED_SECTIONS[0] && "Admission" == REQUIRED_SECTIONS[1];
    assert "Genesis Peers" == REQUIRED_SECTIONS[2] && "Default Overlays" == REQUIRED_SECTIONS[3];
    var identityKv := ParseKvList(bodies["Identity"]);
    var identity :- ParseIdentity(identityKv);
    var admissionKv := ParseKvList(bodies["Admission"]);
    var admission :- ParseAdmission(admissionKv);
    var peers :- ParseGenesisPeers(bodies["Genesis Peers"]);
    var overlays :- ParseDefaultOverlays(bodies["Default Overlays"]);
    var canonical := CanonicalizeMd(text);
    r := Ok(NetworkManifest(identity, admission, peers, overlays, canonical));
  }
}
