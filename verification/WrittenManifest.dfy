/** The notation of a manifest, stated apart from the code that reads it: what each reader accepts, and as what. */
module WrittenManifest {
  import opened Canonical
  import opened Collections
  import opened CommunityLedger
  import opened ManifestRoundTrip
  import opened ManifestSyntax
  import opened Text

  // -------------------------------------------------------------------------
  // Characters and small words
  // -------------------------------------------------------------------------

  const DIGITS := {'0', '1', '2', '3', '4', '5', '6', '7', '8', '9'}
  const HEX_DIGITS := DIGITS + {'a', 'b', 'c', 'd', 'e', 'f'}

  /** The bech32 alphabet: no 1, b, i or o. */
  const BECH32_CHARS :=
    {'0', '2', '3', '4', '5', '6', '7', '8', '9', 'a', 'c', 'd', 'e', 'f', 'g', 'h', 'j', 'k', 'l', 'm', 'n', 'p', 'q',
     'r', 's', 't', 'u', 'v', 'w', 'x', 'y', 'z'}

  const SMALL_LETTERS :=
    {'a', 'b', 'c', 'd', 'e', 'f', 'g', 'h', 'i', 'j', 'k', 'l', 'm', 'n', 'o', 'p', 'q', 'r', 's', 't', 'u', 'v', 'w',
     'x', 'y', 'z'}

  const CAPITALS :=
    {'A', 'B', 'C', 'D', 'E', 'F', 'G', 'H', 'I', 'J', 'K', 'L', 'M', 'N', 'O', 'P', 'Q', 'R', 'S', 'T', 'U', 'V', 'W',
     'X', 'Y', 'Z'}

  /** The characters Python's `str.strip` removes: the breaks and blanks of ASCII and of the rest of Unicode. */
  const WHITE_SPACE :=
    {'\t', '\n', '\U{b}', '\U{c}', '\r', '\U{1c}', '\U{1d}', '\U{1e}', '\U{1f}', ' ', '\U{85}', '\U{a0}', '\U{1680}',
     '\U{2000}', '\U{2001}', '\U{2002}', '\U{2003}', '\U{2004}', '\U{2005}', '\U{2006}', '\U{2007}', '\U{2008}',
     '\U{2009}', '\U{200a}', '\U{2028}', '\U{2029}', '\U{202f}', '\U{205f}', '\U{3000}'}

  lemma Digits(c: char)
    ensures IsDigit(c) <==> c in DIGITS
  {
  }

  lemma HexDigits(c: char)
    ensures IsLowerHex(c) <==> c in HEX_DIGITS
  {
  }

  lemma Bech32Chars(c: char)
    ensures IsBech32Char(c) <==> c in BECH32_CHARS
  {
  }

  lemma SmallLetters(c: char)
    ensures 'a' <= c <= 'z' <==> c in SMALL_LETTERS
  {
  }

  lemma WordChars(c: char)
    ensures IsWord(c) <==> c in SMALL_LETTERS || c in CAPITALS || c in DIGITS || c == '_'
  {
    SmallLetters(c);
    Digits(c);
    assert 'A' <= c <= 'Z' <==> c in CAPITALS;
  }

  lemma WhiteSpace(c: char)
    ensures IsSpace(c) <==> c in WHITE_SPACE
  {
  }

  ghost predicate Over(s: string, alphabet: set<char>) {
    forall i :: 0 <= i < |s| ==> s[i] in alphabet
  }

  ghost predicate InName(c: char) {
    c in SMALL_LETTERS || c in DIGITS || c == '_'
  }

  /** A name: a small letter, then small letters, digits and underscores. */
  lemma NamesIff(s: string)
    ensures IsSnakeCase(s) <==> s != "" && s[0] in SMALL_LETTERS && forall i :: 0 <= i < |s| ==> InName(s[i])
  {
    forall i | 0 <= i < |s|
      ensures ('a' <= s[i] <= 'z' || IsDigit(s[i]) || s[i] == '_') <==> InName(s[i])
      ensures 'a' <= s[i] <= 'z' <==> s[i] in SMALL_LETTERS
    {
      NameChar(s[i]);
    }
    hide InName, IsDigit;
  }

  lemma NameChar(c: char)
    ensures ('a' <= c <= 'z' || IsDigit(c) || c == '_') <==> InName(c)
    ensures 'a' <= c <= 'z' <==> c in SMALL_LETTERS
  {
    Digits(c);
    SmallLetters(c);
  }

  lemma OverHex(s: string)
    ensures Over(s, HEX_DIGITS) <==> forall i :: 0 <= i < |s| ==> IsLowerHex(s[i])
  {
    forall i | 0 <= i < |s| ensures IsLowerHex(s[i]) <==> s[i] in HEX_DIGITS {
      HexDigits(s[i]);
    }
    hide IsLowerHex;
  }

  lemma OverBech32(s: string)
    ensures Over(s, BECH32_CHARS) <==> forall i :: 0 <= i < |s| ==> IsBech32Char(s[i])
  {
    forall i | 0 <= i < |s| ensures IsBech32Char(s[i]) <==> s[i] in BECH32_CHARS {
      Bech32Chars(s[i]);
    }
    hide IsBech32Char;
  }

  lemma OverDigits(s: string)
    ensures Over(s, DIGITS) <==> forall i :: 0 <= i < |s| ==> IsDigit(s[i])
  {
    forall i | 0 <= i < |s| ensures IsDigit(s[i]) <==> s[i] in DIGITS {
      Digits(s[i]);
    }
    hide IsDigit;
  }

  /** A public key: an even, positive number of small hex digits; a hash: forty of them. */
  lemma KeysAndHashesIff(s: string)
    ensures IsPubkey(s) <==> s != "" && |s| % 2 == 0 && Over(s, HEX_DIGITS)
    ensures IsSha1(s) <==> |s| == 40 && Over(s, HEX_DIGITS)
  {
    OverHex(s);
    hide Over, IsLowerHex;
  }

  /** A version: three numerals with dots between them. */
  lemma SemverIff(s: string)
    ensures IsSemver(s) <==>
              exists a, b, c: string ::
                && s == a + "." + b + "." + c
                && a != "" && b != "" && c != "" && Over(a, DIGITS) && Over(b, DIGITS) && Over(c, DIGITS)
  {
    var parts := Split(s, '.');
    if IsSemver(s) {
      JoinOfSplit(s, '.');
      var a, b, c := parts[0], parts[1], parts[2];
      JoinOfThree(a, b, c);
      assert parts == [a, b, c];
      OverDigits(a);
      OverDigits(b);
      OverDigits(c);
    }
    forall a, b, c: string |
      && s == a + "." + b + "." + c
      && a != "" && b != "" && c != "" && Over(a, DIGITS) && Over(b, DIGITS) && Over(c, DIGITS)
      ensures IsSemver(s)
    {
      OverDigits(a);
      OverDigits(b);
      OverDigits(c);
      JoinOfThree(a, b, c);
      SplitOfJoin([a, b, c], '.');
    }
  }

  lemma JoinOfThree(a: string, b: string, c: string)
    ensures Join([a, b, c], '.') == a + "." + b + "." + c
  {
    JoinOfTwo(b, c);
    assert [a, b, c][1..] == [b, c];
    assert a + ['.'] + (b + ['.'] + c) == a + "." + b + "." + c;
  }

  lemma JoinOfTwo(b: string, c: string)
    ensures Join([b, c], '.') == b + ['.'] + c
  {
    assert [b, c][1..] == [c];
  }

  /** A gatekeeper address: bech32 after tb1 or bc1, or hex after dclaw1. */
  lemma AddressIff(s: string)
    ensures IsGatekeeperAddress(s) <==>
              exists prefix, body ::
                && s == prefix + body && body != ""
                && (if prefix == "dclaw1" then Over(body, HEX_DIGITS)
                    else (prefix == "tb1" || prefix == "bc1") && Over(body, BECH32_CHARS))
  {
    hide Over, IsLowerHex, IsBech32Char;
    if IsGatekeeperAddress(s) {
      if "dclaw1" <= s && |s| > 6 && forall i :: 6 <= i < |s| ==> IsLowerHex(s[i]) {
        assert s == "dclaw1" + s[6..];
        OverHex(s[6..]);
      } else {
        assert s == s[..3] + s[3..];
        OverBech32(s[3..]);
      }
    }
    forall prefix, body |
      && s == prefix + body && body != ""
      && (if prefix == "dclaw1" then Over(body, HEX_DIGITS)
          else (prefix == "tb1" || prefix == "bc1") && Over(body, BECH32_CHARS))
      ensures IsGatekeeperAddress(s)
    {
      OverHex(body);
      OverBech32(body);
      assert forall i :: |prefix| <= i < |s| ==> s[i] == body[i - |prefix|];
    }
  }

  // -------------------------------------------------------------------------
  // Blanks
  // -------------------------------------------------------------------------

  lemma {:induction false} LstripOf(blanks: string, rest: string)
    requires AllSpace(blanks) && (rest == "" || !IsSpace(rest[0]))
    ensures Lstrip(blanks + rest) == rest
  {
    hide IsSpace;
    if blanks == "" {
      assert blanks + rest == rest;
    } else {
      assert (blanks + rest)[1..] == blanks[1..] + rest;
      LstripOf(blanks[1..], rest);
    }
  }

  lemma {:induction false} LstripLeaves(s: string) returns (blanks: string)
    ensures s == blanks + Lstrip(s) && AllSpace(blanks) && (Lstrip(s) == "" || !IsSpace(Lstrip(s)[0]))
  {
    hide IsSpace;
    blanks := "";
    if s != "" && IsSpace(s[0]) {
      var more := LstripLeaves(s[1..]);
      blanks := [s[0]] + more;
      assert s == [s[0]] + s[1..];
    }
  }

  lemma {:induction false} RstripLeaves(s: string) returns (blanks: string)
    ensures s == Rstrip(s) + blanks && AllSpace(blanks) && (Rstrip(s) == "" || !IsSpace(Rstrip(s)[|Rstrip(s)| - 1]))
  {
    hide IsSpace;
    blanks := "";
    if s != "" {
      var more := RstripLeaves(s[1..]);
      assert s == [s[0]] + s[1..];
      blanks := if Rstrip(s) == "" then s else more;
    }
  }

  /** `strip` returns what stands between the outermost white space, and nothing else does. */
  lemma StripIff(s: string, t: string)
    ensures Strip(s) == t <==>
              && (t == "" || (!IsSpace(t[0]) && !IsSpace(t[|t| - 1])))
              && exists before, after :: s == before + t + after && AllSpace(before) && AllSpace(after)
  {
    hide IsSpace, Lstrip, Rstrip;
    var before := LstripLeaves(s);
    var after := RstripLeaves(Lstrip(s));
    assert s == before + Strip(s) + after;
    assert Strip(s) != "" ==> Strip(s)[0] == Lstrip(s)[0];
    forall b, a |
      && (t == "" || (!IsSpace(t[0]) && !IsSpace(t[|t| - 1])))
      && s == b + t + a && AllSpace(b) && AllSpace(a)
      ensures Strip(s) == t
    {
      StripOf(b, t, a);
    }
  }

  lemma StripOf(before: string, t: string, after: string)
    requires AllSpace(before) && AllSpace(after) && (t == "" || (!IsSpace(t[0]) && !IsSpace(t[|t| - 1])))
    ensures Strip(before + t + after) == t
  {
    hide IsSpace, Lstrip, Rstrip;
    if t == "" {
      assert before + t + after == (before + after) + "";
      LstripOf(before + after, "");
      RstripFixedIff("");
    } else {
      assert before + t + after == before + (t + after) && (t + after)[0] == t[0];
      LstripOf(before, t + after);
      RstripIgnoresBlanks(t, after);
      RstripFixedIff(t);
    }
  }

  // -------------------------------------------------------------------------
  // Bullets
  // -------------------------------------------------------------------------

  ghost predicate IsIdentifier(k: string) {
    k != "" && !IsDigit(k[0]) && forall i :: 0 <= i < |k| ==> IsWord(k[i])
  }

  /**
   * A bullet: blanks, a dash, blanks, a key, blanks, a colon, blanks, a value, blanks.  The value neither
   * begins nor ends with a blank, unless there is nothing but blanks after the colon: then it is the last one.
   */
  ghost predicate IsBullet(
    line: string, key: string, value: string, a: string, b: string, c: string, d: string, e: string)
  {
    && line == a + "-" + b + key + c + ":" + d + value + e
    && AllSpace(a) && AllSpace(b) && AllSpace(c) && AllSpace(d) && AllSpace(e)
    && IsIdentifier(key) && value != ""
    && (IsSpace(value[0]) || IsSpace(value[|value| - 1]) ==> |value| == 1 && e == "")
  }

  /** The key-value reader accepts exactly the bullets, each as its key and value. */
  lemma BulletIff(line: string, key: string, value: string)
    ensures ParseKv(line) == Some((key, value)) <==> exists a, b, c, d, e :: IsBullet(line, key, value, a, b, c, d, e)
  {
    hide IsBullet;
    if ParseKv(line) == Some((key, value)) {
      var a, b, c, d, e := BulletOfParsed(line, key, value);
    }
    forall a, b, c, d, e | IsBullet(line, key, value, a, b, c, d, e) ensures ParseKv(line) == Some((key, value)) {
      BulletIsParsed(line, key, value, a, b, c, d, e);
    }
  }

  lemma BulletIsParsed(
    line: string, key: string, value: string, a: string, b: string, c: string, d: string, e: string)
    requires IsBullet(line, key, value, a, b, c, d, e)
    ensures ParseKv(line) == Some((key, value))
  {
    hide IsSpace, IsWord, Lstrip, Strip, WordPrefix;
    var colon := ":" + (d + value + e);
    var keyed := key + (c + colon);
    var dashed := "-" + (b + keyed);
    PlainChars();
    assert line == a + dashed;
    LstripOf(a, dashed);
    assert dashed[1..] == b + keyed && keyed[0] == key[0] && IsWord(key[0]);
    NoSpaceInWords(key[0]);
    LstripOf(b, keyed);
    assert (c + colon)[0] == if c == "" then ':' else c[0];
    if c != "" {
      NoSpaceInWords(c[0]);
    }
    WordPrefixOfKey(key, c + colon);
    assert keyed[|key|..] == c + colon;
    LstripOf(c, colon);
    assert colon[1..] == d + value + e;
    if IsSpace(value[0]) {
      assert d + value + e == (d + value) + "" + "";
      StripOf(d + value, "", "");
      assert colon[|colon| - 1] == value[0] && [value[0]] == value;
    } else {
      StripOf(d, value, e);
    }
  }

  lemma PlainChars()
    ensures !IsSpace('-') && !IsSpace(':') && !IsWord('-') && !IsWord(':')
  {
  }

  lemma NoSpaceInWords(c: char)
    ensures IsWord(c) ==> !IsSpace(c)
  {
  }

  lemma {:induction false} WordPrefixShape(s: string)
    ensures var word := WordPrefix(s);
            && (forall i :: 0 <= i < |word| ==> IsWord(word[i]))
            && s == word + s[|word|..]
  {
    hide IsWord;
    if s != "" && IsWord(s[0]) {
      WordPrefixShape(s[1..]);
      assert s == [s[0]] + s[1..];
    }
  }

  lemma BulletOfParsed(line: string, key: string, value: string)
    returns (a: string, b: string, c: string, d: string, e: string)
    requires ParseKv(line) == Some((key, value))
    ensures IsBullet(line, key, value, a, b, c, d, e)
  {
    hide IsSpace, IsWord, Lstrip, Strip, WordPrefix;
    var dashed := Lstrip(line);
    a := LstripLeaves(line);
    var keyed := Lstrip(dashed[1..]);
    b := LstripLeaves(dashed[1..]);
    WordPrefixShape(keyed);
    var colon := Lstrip(keyed[|key|..]);
    c := LstripLeaves(keyed[|key|..]);
    d, e := ValueBlanks(colon[1..], value);
    assert dashed == "-" + dashed[1..] && colon == ":" + colon[1..];
    assert line == a + ("-" + (b + (key + (c + (":" + (d + value + e))))));
    Reassociate(a, b, key, c, d, value, e);
  }

  lemma Reassociate(a: string, b: string, key: string, c: string, d: string, value: string, e: string)
    ensures a + ("-" + (b + (key + (c + (":" + (d + value + e)))))) == a + "-" + b + key + c + ":" + d + value + e
  {
  }

  lemma ValueBlanks(s: string, value: string) returns (d: string, e: string)
    requires s != "" && value == if Strip(s) == "" then [s[|s| - 1]] else Strip(s)
    ensures s == d + value + e && AllSpace(d) && AllSpace(e)
    ensures IsSpace(value[0]) || IsSpace(value[|value| - 1]) ==> |value| == 1 && e == ""
  {
    StripIff(s, Strip(s));
    hide IsSpace, Strip;
    var before, after :| s == before + Strip(s) + after && AllSpace(before) && AllSpace(after);
    if Strip(s) == "" {
      assert s == before + after;
      d, e := s[..|s| - 1], "";
    } else {
      d, e := before, after;
    }
  }

  /** The line carries a bullet of this key. */
  ghost predicate Bullets(line: string, key: string) {
    ParseKv(line).Some? && ParseKv(line).value.0 == key
  }

  /** A section's dictionary holds, for each key that has a bullet, the value of its last one. */
  lemma {:induction false} LastBulletWins(lines: seq<string>, key: string, k: nat)
    requires k < |lines| && Bullets(lines[k], key) && forall j :: k < j < |lines| ==> !Bullets(lines[j], key)
    ensures key in KvOf(lines) && ParseKv(lines[k]) == Some((key, KvOf(lines)[key]))
  {
    hide ParseKv;
    var n := |lines| - 1;
    if k < n {
      assert !Bullets(lines[n], key);
      LastBulletWins(lines[..n], key, k);
    }
  }

  lemma {:induction false} OnlyBulletsCount(lines: seq<string>, key: string)
    ensures key in KvOf(lines) <==> exists k :: 0 <= k < |lines| && Bullets(lines[k], key)
  {
    hide ParseKv;
    if lines != [] {
      var n := |lines| - 1;
      OnlyBulletsCount(lines[..n], key);
      assert forall k :: 0 <= k < n ==> lines[..n][k] == lines[k];
    }
  }

  /** Of sections with one name the last is read, and no name but theirs. */
  lemma {:induction false} LastSectionWins(sections: seq<Section>, name: string)
    ensures name in BodyByName(sections) <==> exists k :: 0 <= k < |sections| && sections[k].name == name
    ensures forall k :: 0 <= k < |sections| && sections[k].name == name
                        && (forall j :: k < j < |sections| ==> sections[j].name != name) ==>
                          name in BodyByName(sections) && BodyByName(sections)[name] == Join(sections[k].body, '\n')
  {
    hide Join;
    if sections != [] {
      var n := |sections| - 1;
      LastSectionWins(sections[..n], name);
      assert forall k :: 0 <= k < n ==> sections[..n][k] == sections[k];
      assert sections[n].name != name ==> (name in BodyByName(sections) <==> name in BodyByName(sections[..n]));
    }
  }

  /** An overlay line: blanks, a dash, blanks, `sha1`, blanks, a colon, blanks, forty hex digits, and no word going on. */
  ghost predicate IsOverlayLine(line: string, hash: string, a: string, b: string, c: string, d: string, rest: string) {
    && line == a + "-" + b + "sha1" + c + ":" + d + hash + rest
    && AllSpace(a) && AllSpace(b) && AllSpace(c) && AllSpace(d)
    && |hash| == 40 && Over(hash, HEX_DIGITS)
    && (rest == "" || !IsWord(rest[0]))
  }

  lemma OverlayLineIff(line: string, hash: string)
    ensures Sha1Of(line) == Some(hash) <==> exists a, b, c, d, rest :: IsOverlayLine(line, hash, a, b, c, d, rest)
  {
    hide IsOverlayLine;
    if Sha1Of(line) == Some(hash) {
      var a, b, c, d, rest := OverlayLineOfRead(line, hash);
    }
    forall a, b, c, d, rest | IsOverlayLine(line, hash, a, b, c, d, rest) ensures Sha1Of(line) == Some(hash) {
      OverlayLineIsRead(line, hash, a, b, c, d, rest);
    }
  }

  lemma OverlayLineIsRead(line: string, hash: string, a: string, b: string, c: string, d: string, rest: string)
    requires IsOverlayLine(line, hash, a, b, c, d, rest)
    ensures Sha1Of(line) == Some(hash)
  {
    KeysAndHashesIff(hash);
    var digits := hash + rest;
    var colon := ":" + (d + digits);
    var keyed := "sha1" + (c + colon);
    var dashed := "-" + (b + keyed);
    PlainChars();
    assert IsLowerHex(hash[0]) && !IsSpace(hash[0]) && !IsSpace('s');
    hide IsSpace, IsWord, Lstrip, IsSha1, Over;
    assert line == a + dashed;
    LstripOf(a, dashed);
    assert dashed[1..] == b + keyed && keyed[0] == 's';
    LstripOf(b, keyed);
    assert "sha1" <= keyed && keyed[4..] == c + colon;
    LstripOf(c, colon);
    assert colon[1..] == d + digits && digits[0] == hash[0];
    LstripOf(d, digits);
    assert digits[..40] == hash && (rest != "" ==> digits[40] == rest[0]);
  }

  lemma OverlayLineOfRead(line: string, hash: string) returns (a: string, b: string, c: string, d: string, rest: string)
    requires Sha1Of(line) == Some(hash)
    ensures IsOverlayLine(line, hash, a, b, c, d, rest)
  {
    KeysAndHashesIff(hash);
    hide IsSpace, IsWord, Lstrip, IsSha1, Over;
    var dashed := Lstrip(line);
    a := LstripLeaves(line);
    var keyed := Lstrip(dashed[1..]);
    b := LstripLeaves(dashed[1..]);
    var colon := Lstrip(keyed[4..]);
    c := LstripLeaves(keyed[4..]);
    var digits := Lstrip(colon[1..]);
    d := LstripLeaves(colon[1..]);
    rest := digits[40..];
    assert digits == hash + rest && (rest != "" ==> rest[0] == digits[40]);
    assert dashed == "-" + dashed[1..] && colon == ":" + colon[1..] && keyed == "sha1" + keyed[4..];
    assert line == a + ("-" + (b + ("sha1" + (c + (":" + (d + (hash + rest)))))));
    ReassociateOverlay(a, b, c, d, hash, rest);
  }

  lemma ReassociateOverlay(a: string, b: string, c: string, d: string, hash: string, rest: string)
    ensures a + ("-" + (b + ("sha1" + (c + (":" + (d + (hash + rest)))))))
         == a + "-" + b + "sha1" + c + ":" + d + hash + rest
  {
  }

  // -------------------------------------------------------------------------
  // Integers
  // -------------------------------------------------------------------------

  /** A digit, or an underscore after a digit. */
  ghost predicate Fits(s: string, i: nat)
    requires i < |s|
  {
    IsDigit(s[i]) || (s[i] == '_' && i > 0 && IsDigit(s[i - 1]))
  }

  /** Digits, with single underscores between two of them. */
  ghost predicate IsNumber(s: string) {
    s != "" && IsDigit(s[|s| - 1]) && forall i :: 0 <= i < |s| ==> Fits(s, i)
  }

  /** What stands before the last digit, and before the underscore in front of it if there is one. */
  function BeforeLast(s: string): string
    requires |s| > 1
  {
    if s[|s| - 2] == '_' then s[..|s| - 2] else s[..|s| - 1]
  }

  lemma ReadLast(s: string)
    requires |s| > 1 && IsDigit(s[|s| - 1])
    ensures ParseNat(s) == var high := ParseNat(BeforeLast(s));
                           if high.None? then None else Some(10 * high.value + (s[|s| - 1] as int - '0' as int))
  {
    assert s[..|s| - 1][..|s| - 2] == s[..|s| - 2];
  }

  lemma ReadNothing(s: string)
    ensures s == "" || !IsDigit(s[|s| - 1]) ==> ParseNat(s).None?
    ensures |s| == 1 && IsDigit(s[0]) ==> ParseNat(s) == Some(s[0] as int - '0' as int)
  {
    assert |s| == 1 ==> s[..0] == "";
  }

  lemma {:induction false} NumberIff(s: string)
    ensures ParseNat(s).Some? <==> IsNumber(s)
    decreases |s|
  {
    hide ParseNat, Fits, BeforeLast;
    ReadNothing(s);
    if |s| == 1 && IsDigit(s[0]) {
      OneDigitFits(s);
    } else if |s| > 1 && IsDigit(s[|s| - 1]) {
      ReadLast(s);
      LastDigit(s);
      NumberIff(BeforeLast(s));
    }
  }

  lemma OneDigitFits(s: string)
    requires |s| == 1 && IsDigit(s[0])
    ensures Fits(s, 0)
  {
  }

  lemma LastDigit(s: string)
    requires |s| > 1 && IsDigit(s[|s| - 1])
    ensures |BeforeLast(s)| < |s| && (IsNumber(s) <==> IsNumber(BeforeLast(s)))
  {
    var high := BeforeLast(s);
    assert forall i :: 0 <= i < |high| ==> high[i] == s[i];
    forall i | 0 <= i < |high| ensures Fits(high, i) <==> Fits(s, i) {
    }
    if IsNumber(s) {
      assert Fits(s, |s| - 2);
    }
    if IsNumber(high) {
      forall i | 0 <= i < |s| ensures Fits(s, i) {
        assert i < |high| ==> Fits(high, i);
      }
    }
  }

  /** Numbers are read in base ten, underscores notwithstanding. */
  lemma NumberValue(s: string, digit: char)
    requires IsDigit(digit)
    ensures ParseNat([digit]) == Some(digit as int - '0' as int)
    ensures ParseNat(s).Some? ==>
              && ParseNat(s + [digit]) == Some(10 * ParseNat(s).value + (digit as int - '0' as int))
              && ParseNat(s + ['_', digit]) == ParseNat(s + [digit])
  {
    hide ParseNat;
    ReadNothing([digit]);
    ReadNothing(s);
    if ParseNat(s).Some? {
      ReadLast(s + [digit]);
      ReadLast(s + ['_', digit]);
      assert BeforeLast(s + [digit]) == s && BeforeLast(s + ['_', digit]) == s;
    }
  }

  /** `int`: blanks, at most one sign, a number, blanks. */
  lemma IntegerIff(s: string, n: int)
    ensures ParseInt(s) == Some(n) <==>
              exists before, sign, digits, after ::
                && s == before + (sign + digits) + after && AllSpace(before) && AllSpace(after)
                && (sign == "" || sign == "+" || sign == "-")
                && ParseNat(digits) == Some(if sign == "-" then -n else n)
  {
    hide IsSpace, ParseNat;
    if ParseInt(s) == Some(n) {
      var t := Strip(s);
      StripIff(s, t);
      var before, after :| s == before + t + after && AllSpace(before) && AllSpace(after);
      var sign := if t != "" && (t[0] == '-' || t[0] == '+') then [t[0]] else "";
      assert t == sign + t[|sign|..];
    }
    forall before, sign, digits, after |
      && s == before + (sign + digits) + after && AllSpace(before) && AllSpace(after)
      && (sign == "" || sign == "+" || sign == "-")
      && ParseNat(digits) == Some(if sign == "-" then -n else n)
      ensures ParseInt(s) == Some(n)
    {
      SignedIsRead(before, sign, digits, after);
    }
  }

  lemma SignedIsRead(before: string, sign: string, digits: string, after: string)
    requires AllSpace(before) && AllSpace(after) && (sign == "" || sign == "+" || sign == "-") && ParseNat(digits).Some?
    ensures ParseInt(before + (sign + digits) + after) ==
            Some(if sign == "-" then 0 - ParseNat(digits).value as int else ParseNat(digits).value as int)
  {
    hide ParseNat, Strip, IsSpace;
    NumberIff(digits);
    assert Fits(digits, 0);
    var t := sign + digits;
    assert t[0] == (if sign == "" then digits[0] else sign[0]) && t[|t| - 1] == digits[|digits| - 1];
    NoSpaceInNumbers(t[0]);
    NoSpaceInNumbers(t[|t| - 1]);
    StripOf(before, t, after);
    assert t[|sign|..] == digits;
  }

  lemma NoSpaceInNumbers(c: char)
    ensures IsDigit(c) || c == '+' || c == '-' ==> !IsSpace(c)
  {
  }

  // -------------------------------------------------------------------------
  // What each section means
  // -------------------------------------------------------------------------

  /** An optional field: zero when absent, otherwise an integer in range. */
  ghost predicate IsOptional(kv: map<string, string>, key: string, n: int, max: int) {
    if key in kv then ParseInt(kv[key]) == Some(n) && 0 <= n <= max else n == 0
  }

  lemma OptionalIff(kv: map<string, string>, key: string, n: int, max: int)
    ensures ParseOptionalUint(kv, key, max) == Ok(n) <==> IsOptional(kv, key, n, max)
  {
    hide ParseInt;
  }

  /** The admission section: which bullets are accepted, and as which policy. */
  lemma AdmissionIff(kv: map<string, string>, p: AdmissionPolicy)
    ensures ParseAdmission(kv) == Ok(p) <==>
              && "gatekeeper_address" in kv && kv["gatekeeper_address"] == p.gatekeeperAddress
              && IsGatekeeperAddress(p.gatekeeperAddress)
              && "min_sats" in kv && ParseInt(kv["min_sats"]) == Some(p.minSats) && 1 <= p.minSats
              && "min_confirmations" in kv && ParseInt(kv["min_confirmations"]) == Some(p.minConfirmations)
              && 0 <= p.minConfirmations <= 65535
              && IsOptional(kv, "bootstrap_cap_sats", p.bootstrapCapSats, 18446744073709551615)
              && (p.bootstrapCapSats == 0 || p.minSats <= p.bootstrapCapSats)
              && IsOptional(kv, "max_agents_per_seedbox", p.maxAgentsPerSeedbox, 65535)
              && IsOptional(kv, "seedbox_cost_sats", p.seedboxCostSats, 18446744073709551615)
  {
    hide ParseInt, IsGatekeeperAddress, ParseOptionalUint, IsOptional;
    OptionalIff(kv, "bootstrap_cap_sats", p.bootstrapCapSats, MAX_UINT64);
    OptionalIff(kv, "max_agents_per_seedbox", p.maxAgentsPerSeedbox, MAX_UINT16);
    OptionalIff(kv, "seedbox_cost_sats", p.seedboxCostSats, MAX_UINT64);
  }

  /** The identity section: a name, a version and a description that is not blank; further bullets are kept. */
  lemma IdentityIff(kv: map<string, string>, identity: map<string, string>)
    ensures ParseIdentity(kv) == Ok(identity) <==>
              && identity == kv
              && "name" in kv && IsSnakeCase(kv["name"])
              && "version" in kv && IsSemver(kv["version"])
              && "description" in kv && Strip(kv["description"]) != ""
  {
    hide IsSnakeCase, IsSemver, Strip;
  }

  /** Lowering turns each capital into its small letter and leaves every other character alone. */
  lemma LowerLetters(s: string, i: nat)
    requires i < |s|
    ensures |Lower(s)| == |s| && (s[i] !in CAPITALS ==> Lower(s)[i] == s[i])
    ensures s[i] in CAPITALS ==> Lower(s)[i] in SMALL_LETTERS && Lower(s)[i] as int - 'a' as int == s[i] as int - 'A' as int
  {
    hide Lower;
    LowerAt(s, i);
    LowerOf(s[i]);
  }

  lemma LowerAt(s: string, i: nat)
    requires i < |s|
    ensures |Lower(s)| == |s| && Lower(s)[i] == LowerChar(s[i])
  {
    hide LowerChar;
  }

  lemma LowerOf(c: char)
    ensures c !in CAPITALS ==> LowerChar(c) == c
    ensures c in CAPITALS ==> LowerChar(c) in SMALL_LETTERS && LowerChar(c) as int - 'a' as int == c as int - 'A' as int
  {
    assert 'A' <= c <= 'Z' <==> c in CAPITALS;
    SmallLetters(LowerChar(c));
  }

  /** A table row that names a peer. */
  ghost predicate IsPeerRow(row: seq<string>, p: GenesisPeer) {
    && |row| == 3
    && row[0] == p.host != ""
    && ParseInt(row[1]) == Some(p.port) && 1024 <= p.port <= 65535
    && p.pubkeyHex == Lower(row[2]) && IsPubkey(p.pubkeyHex)
  }

  lemma PeerRowIff(row: seq<string>, p: GenesisPeer)
    ensures PeerOfRow(row) == Ok(p) <==> IsPeerRow(row, p)
  {
    hide ParseInt, Lower, IsPubkey;
  }

  lemma {:induction false} PeerRowsIff(rows: seq<seq<string>>, peers: seq<GenesisPeer>)
    ensures PeersOf(rows) == Ok(peers) <==> ArePeerRows(rows, peers)
  {
    hide ArePeerRows, IsPeerRow, PeerOfRow, Listed;
    if rows == [] {
      NoPeerRows(peers);
    } else {
      var n := |rows| - 1;
      if PeersOf(rows).Ok? {
        var earlier, last := PeersOf(rows[..n]).value, PeerOfRow(rows[n]).value;
        PeerRowsIff(rows[..n], earlier);
        PeerRowIff(rows[n], last);
        OneMorePeerRow(rows, earlier, last);
      }
      if ArePeerRows(rows, peers) {
        SamePeerCount(rows, peers);
        assert peers == peers[..n] + [peers[n]];
        OneMorePeerRow(rows, peers[..n], peers[n]);
        PeerRowsIff(rows[..n], peers[..n]);
        PeerRowIff(rows[n], peers[n]);
      }
    }
  }

  /** Each row names its peer, and no two peers share host and port. */
  ghost predicate ArePeerRows(rows: seq<seq<string>>, peers: seq<GenesisPeer>) {
    && |peers| == |rows|
    && (forall i :: 0 <= i < |rows| ==> IsPeerRow(rows[i], peers[i]))
    && (forall i, j :: 0 <= i < j < |peers| ==> peers[i].host != peers[j].host || peers[i].port != peers[j].port)
  }

  lemma NoPeerRows(peers: seq<GenesisPeer>)
    ensures ArePeerRows([], peers) <==> peers == []
  {
  }

  lemma SamePeerCount(rows: seq<seq<string>>, peers: seq<GenesisPeer>)
    requires ArePeerRows(rows, peers)
    ensures |peers| == |rows|
  {
  }

  lemma OneMorePeerRow(rows: seq<seq<string>>, earlier: seq<GenesisPeer>, last: GenesisPeer)
    requires rows != []
    ensures ArePeerRows(rows, earlier + [last]) <==>
              && ArePeerRows(rows[..|rows| - 1], earlier) && IsPeerRow(rows[|rows| - 1], last)
              && !Listed(earlier, last.host, last.port)
  {
    hide IsPeerRow;
    var peers, n := earlier + [last], |rows| - 1;
    assert forall i :: 0 <= i < |earlier| ==> peers[i] == earlier[i];
    assert |earlier| < |peers| && peers[|earlier|] == last;
    if ArePeerRows(rows, peers) {
      assert forall i :: 0 <= i < n ==> IsPeerRow(rows[..n][i], earlier[i]);
    }
  }

  /** The peer section: a header of three words in any case, then one distinct peer for each row, at least one. */
  lemma GenesisPeersIff(rows: seq<seq<string>>, peers: seq<GenesisPeer>)
    ensures GenesisPeersOf(rows) == Ok(peers) <==>
              && rows != [] && IsPeerHeader(rows[0])
              && peers != [] && ArePeerRows(rows[1..], peers)
  {
    hide PeersOf, ArePeerRows, Lower, IsPeerHeader;
    if rows != [] {
      PeerRowsIff(rows[1..], peers);
      HeaderIff(rows[0]);
    }
  }

  ghost predicate IsPeerHeader(row: seq<string>) {
    |row| == 3 && Lower(row[0]) == "host" && Lower(row[1]) == "port" && Lower(row[2]) == "pubkey_hex"
  }

  lemma HeaderIff(row: seq<string>)
    ensures seq(|row|, i requires 0 <= i < |row| => Lower(row[i])) == ["host", "port", "pubkey_hex"] <==> IsPeerHeader(row)
  {
    hide Lower;
    var header := seq(|row|, i requires 0 <= i < |row| => Lower(row[i]));
    if header == ["host", "port", "pubkey_hex"] {
      assert header[0] == "host" && header[1] == "port" && header[2] == "pubkey_hex";
    }
  }

  /** The hashes of the overlay lines, in order. */
  ghost function Hashes(lines: seq<string>): seq<string> {
    if lines == [] then []
    else Hashes(lines[..|lines| - 1]) + match Sha1Of(lines[|lines| - 1]) case None => [] case Some(hash) => [hash]
  }

  /** The overlay section: the hashes in order, and no hash twice. */
  lemma {:induction false} OverlaysIff(lines: seq<string>, hashes: seq<string>)
    ensures OverlaysOf(lines) == Ok(hashes) <==> hashes == Hashes(lines) && DistinctOverlays(hashes)
  {
    hide Sha1Of;
    if lines != [] {
      var earlier, last := lines[..|lines| - 1], lines[|lines| - 1];
      OverlaysIff(earlier, Hashes(earlier));
      if OverlaysOf(earlier).Ok? {
        OverlaysIff(earlier, OverlaysOf(earlier).value);
      }
      if Sha1Of(last).Some? {
        DistinctSnoc(Hashes(earlier), Sha1Of(last).value);
      } else {
        assert Hashes(lines) == Hashes(earlier);
      }
      hide DistinctOverlays;
    }
  }

  /** A manifest is accepted exactly when its sections are there in order and each means something. */
  lemma ManifestIff(text: string, m: NetworkManifest)
    ensures Manifest(text) == Ok(m) <==>
              var (bodies, order) := Bodies(text);
              && CheckSections(bodies, order).Ok?
              && "Identity" in bodies && "Admission" in bodies
              && "Genesis Peers" in bodies && "Default Overlays" in bodies
              && ParseIdentity(KvOf(Split(bodies["Identity"], '\n'))) == Ok(m.identity)
              && ParseAdmission(KvOf(Split(bodies["Admission"], '\n'))) == Ok(m.admission)
              && GenesisPeersOf(Rows(Split(bodies["Genesis Peers"], '\n'))) == Ok(m.genesisPeers)
              && OverlaysOf(Split(bodies["Default Overlays"], '\n')) == Ok(m.defaultOverlays)
              && m.canonicalText == Canon(text)
  {
    hide Bodies, KvOf, Rows, OverlaysOf, GenesisPeersOf, Canon, ParseIdentity, ParseAdmission, CheckSections, Split;
    if CheckSections(Bodies(text).0, Bodies(text).1).Ok? {
      AllRequiredPresent(text);
    }
    assert "Identity" == REQUIRED_SECTIONS[0] && "Admission" == REQUIRED_SECTIONS[1];
    assert "Genesis Peers" == REQUIRED_SECTIONS[2] && "Default Overlays" == REQUIRED_SECTIONS[3];
  }

  // -------------------------------------------------------------------------
  // Table rows
  // -------------------------------------------------------------------------

  ghost predicate AllBars(s: string) {
    forall i :: 0 <= i < |s| ==> s[i] == '|'
  }

  /** Neither end is a bar. */
  ghost predicate Unbarred(s: string) {
    s == "" || (s[0] != '|' && s[|s| - 1] != '|')
  }

  /**
   * A table row: blanks, bars, the parts with a bar between any two, bars or none, blanks.  Its cells are the
   * stripped parts, and some cell is more than dashes and blanks.
   */
  ghost predicate IsTableRow(
    line: string, cells: seq<string>, before: string, left: string, parts: seq<string>, right: string, after: string)
  {
    var inner := Join(parts, '|');
    && line == before + (left + inner + right) + after && AllSpace(before) && AllSpace(after)
    && left != "" && AllBars(left) && AllBars(right) && Unbarred(inner)
    && (right == "" && inner != "" ==> !IsSpace(inner[|inner| - 1]))
    && parts != [] && (forall p :: p in parts ==> Lacks(p, '|'))
    && |cells| == |parts| && (forall i :: 0 <= i < |cells| ==> cells[i] == Strip(parts[i]))
    && exists cell :: cell in cells && !IsRule(cell)
  }

  /** The table reader takes exactly the table rows, each as its cells. */
  lemma TableRowIff(line: string, cells: seq<string>)
    ensures Cells(line) == Some(cells) <==>
              exists before, left, parts, right, after :: IsTableRow(line, cells, before, left, parts, right, after)
  {
    hide IsTableRow;
    if Cells(line) == Some(cells) {
      var before, left, parts, right, after := TableRowOfRead(line, cells);
    }
    forall before, left, parts, right, after | IsTableRow(line, cells, before, left, parts, right, after)
      ensures Cells(line) == Some(cells)
    {
      TableRowIsRead(line, cells, before, left, parts, right, after);
    }
  }

  lemma {:induction false} LeadingBarsOf(left: string, rest: string)
    requires AllBars(left) && (rest == "" || rest[0] != '|')
    ensures StripLeadingBars(left + rest) == rest
  {
    if left == "" {
      assert left + rest == rest;
    } else {
      assert (left + rest)[1..] == left[1..] + rest;
      LeadingBarsOf(left[1..], rest);
    }
  }

  lemma {:induction false} TrailingBarsOf(rest: string, right: string)
    requires AllBars(right) && (rest == "" || rest[|rest| - 1] != '|')
    ensures StripTrailingBars(rest + right) == rest
  {
    if right == "" {
      assert rest + right == rest;
    } else {
      assert (rest + right)[..|rest + right| - 1] == rest + right[..|right| - 1];
      TrailingBarsOf(rest, right[..|right| - 1]);
    }
  }

  lemma StripBarsOf(left: string, inner: string, right: string)
    requires AllBars(left) && AllBars(right) && Unbarred(inner)
    ensures StripBars(left + inner + right) == inner
  {
    if inner == "" {
      assert left + inner + right == (left + right) + "";
      LeadingBarsOf(left + right, "");
      TrailingBarsOf("", "");
      assert "" + "" == "";
    } else {
      assert left + inner + right == left + (inner + right) && (inner + right)[0] == inner[0];
      LeadingBarsOf(left, inner + right);
      TrailingBarsOf(inner, right);
    }
  }

  lemma TableRowIsRead(
    line: string, cells: seq<string>, before: string, left: string, parts: seq<string>, right: string, after: string)
    requires IsTableRow(line, cells, before, left, parts, right, after)
    ensures Cells(line) == Some(cells)
  {
    hide Strip, IsSpace, Split, Join, StripBars, IsRule;
    var inner := Join(parts, '|');
    var row := left + inner + right;
    BarIsNoSpace();
    assert row[0] == '|' && (right != "" ==> row[|row| - 1] == '|');
    assert right == "" && inner != "" ==> row[|row| - 1] == inner[|inner| - 1];
    assert right == "" && inner == "" ==> row[|row| - 1] == left[|left| - 1];
    StripOf(before, row, after);
    StripBarsOf(left, inner, right);
    SplitOfJoin(parts, '|');
    assert seq(|parts|, i requires 0 <= i < |parts| => Strip(parts[i])) == cells;
  }

  lemma BarIsNoSpace()
    ensures !IsSpace('|')
  {
  }

  lemma {:induction false} LeadingBarsLeave(s: string)
    ensures var rest := StripLeadingBars(s);
            && |rest| <= |s| && rest == s[|s| - |rest|..] && AllBars(s[..|s| - |rest|])
            && (rest == "" || rest[0] != '|')
  {
    if s != "" && s[0] == '|' {
      LeadingBarsLeave(s[1..]);
    }
  }

  lemma {:induction false} TrailingBarsLeave(s: string)
    ensures var rest := StripTrailingBars(s);
            && |rest| <= |s| && rest == s[..|rest|] && AllBars(s[|rest|..])
            && (rest == "" || rest[|rest| - 1] != '|')
  {
    if s != "" && s[|s| - 1] == '|' {
      var init, rest := s[..|s| - 1], StripTrailingBars(s);
      TrailingBarsLeave(init);
      assert rest == init[..|rest|] == s[..|rest|];
      assert s[|rest|..] == init[|rest|..] + ['|'];
    }
  }

  lemma TableRowOfRead(line: string, cells: seq<string>)
    returns (before: string, left: string, parts: seq<string>, right: string, after: string)
    requires Cells(line) == Some(cells)
    ensures IsTableRow(line, cells, before, left, parts, right, after)
  {
    hide Strip, IsSpace, Split, Join, StripLeadingBars, StripTrailingBars, IsRule;
    var row := Strip(line);
    StripIff(line, row);
    before, after :| line == before + row + after && AllSpace(before) && AllSpace(after);
    LeadingBarsLeave(row);
    var rest := StripLeadingBars(row);
    left := row[..|row| - |rest|];
    TrailingBarsLeave(rest);
    var inner := StripTrailingBars(rest);
    right := rest[|inner|..];
    parts := Split(inner, '|');
    JoinOfSplit(inner, '|');
    SplitPartsLack(inner, '|');
    assert row == left + inner + right;
    assert left == "" ==> row == rest;
    assert inner != "" ==> inner[0] == rest[0];
    assert right == "" && inner != "" ==> inner[|inner| - 1] == row[|row| - 1];
    assert |cells| == |parts| && forall i :: 0 <= i < |cells| ==> cells[i] == Strip(parts[i]);
  }

  // -------------------------------------------------------------------------
  // What a refusal says
  // -------------------------------------------------------------------------

  /** The range an integer field must be in; None when it has no upper end. */
  function RangeOf(field: string): (int, Option<int>) {
    if field == "min_sats" then (1, None)
    else if field == "min_confirmations" || field == "max_agents_per_seedbox" then (0, Some(65535))
    else if field == "port" then (1024, Some(65535))
    else (0, Some(18446744073709551615))
  }

  ghost predicate OutsideRange(field: string, n: int) {
    n < RangeOf(field).0 || (RangeOf(field).1.Some? && RangeOf(field).1.value < n)
  }

  ghost predicate IsAdmissionFault(kv: map<string, string>, error: ManifestError) {
    match error
    case MissingKey(key) =>
      key !in kv && (key == "gatekeeper_address" || key == "min_sats" || key == "min_confirmations")
    case BadAddress(address) =>
      "gatekeeper_address" in kv && kv["gatekeeper_address"] == address && !IsGatekeeperAddress(address)
    case NotAnInteger(field, raw) => field in kv && kv[field] == raw && ParseInt(raw) == None
    case OutOfRange(field, n) => field in kv && ParseInt(kv[field]) == Some(n) && OutsideRange(field, n)
    case CapBelowMinimum(cap, minSats) =>
      && "bootstrap_cap_sats" in kv && ParseInt(kv["bootstrap_cap_sats"]) == Some(cap)
      && "min_sats" in kv && ParseInt(kv["min_sats"]) == Some(minSats)
      && 0 < cap < minSats
    case _ => false
  }

  /** A refused admission section is refused for a fault it has. */
  lemma AdmissionFaultIsReal(kv: map<string, string>)
    requires ParseAdmission(kv).Err?
    ensures IsAdmissionFault(kv, ParseAdmission(kv).error)
  {
    hide ParseInt, IsGatekeeperAddress;
  }

  ghost predicate IsIdentityFault(kv: map<string, string>, error: ManifestError) {
    match error
    case MissingKey(key) => key !in kv && (key == "name" || key == "version" || key == "description")
    case NotSnakeCase(name) => "name" in kv && kv["name"] == name && !IsSnakeCase(name)
    case NotSemver(version) => "version" in kv && kv["version"] == version && !IsSemver(version)
    case EmptyDescription => "description" in kv && Strip(kv["description"]) == ""
    case _ => false
  }

  lemma IdentityFaultIsReal(kv: map<string, string>)
    requires ParseIdentity(kv).Err?
    ensures IsIdentityFault(kv, ParseIdentity(kv).error)
  {
    hide IsSnakeCase, IsSemver, Strip;
  }

  ghost predicate IsPeerFault(rows: seq<seq<string>>, error: ManifestError) {
    match error
    case BadRowShape(row) => row in rows && |row| != 3
    case EmptyHost => exists row :: row in rows && |row| == 3 && row[0] == ""
    case NotAnInteger(field, raw) =>
      field == "port" && ParseInt(raw) == None && exists row :: row in rows && |row| == 3 && row[1] == raw
    case OutOfRange(field, n) =>
      field == "port" && !(1024 <= n <= 65535)
      && exists row :: row in rows && |row| == 3 && ParseInt(row[1]) == Some(n)
    case BadPubkey(pubkey) => !IsPubkey(pubkey) && exists row :: row in rows && |row| == 3 && Lower(row[2]) == pubkey
    case DuplicatePeer(host, port) =>
      exists i, j :: 0 <= i < j < |rows| && NamesPeer(rows[i], host, port) && NamesPeer(rows[j], host, port)
    case _ => false
  }

  /** Refused peer rows are refused for a row among them, or for two that name one peer. */
  lemma {:induction false} PeerFaultIsReal(rows: seq<seq<string>>)
    requires PeersOf(rows).Err?
    ensures IsPeerFault(rows, PeersOf(rows).error)
  {
    hide Lower, IsPubkey, ParseInt;
    var n := |rows| - 1;
    assert rows == rows[..n] + [rows[n]];
    if PeersOf(rows[..n]).Err? {
      PeerFaultIsReal(rows[..n]);
    } else if PeerOfRow(rows[n]).Ok? {
      var earlier, last := PeersOf(rows[..n]).value, PeerOfRow(rows[n]).value;
      PeerRowsIff(rows[..n], earlier);
      PeerRowIff(rows[n], last);
      var p :| p in earlier && p.host == last.host && p.port == last.port;
      var i :| 0 <= i < |earlier| && earlier[i] == p;
      assert IsPeerRow(rows[..n][i], p);
      assert NamesPeer(rows[i], last.host, last.port) && NamesPeer(rows[n], last.host, last.port);
    }
  }

  ghost predicate NamesPeer(row: seq<string>, host: string, port: int) {
    |row| == 3 && row[0] == host && ParseInt(row[1]) == Some(port)
  }

  /** A repeated hash is reported of two lines that carry it. */
  lemma {:induction false} OverlayFaultIsReal(lines: seq<string>)
    requires OverlaysOf(lines).Err?
    ensures OverlaysOf(lines).error.DuplicateOverlay?
    ensures exists i, j :: 0 <= i < j < |lines| && CarriesTwice(lines, i, j, OverlaysOf(lines).error.sha1)
  {
    hide Sha1Of;
    var n := |lines| - 1;
    if OverlaysOf(lines[..n]).Err? {
      OverlayFaultIsReal(lines[..n]);
      var hash := OverlaysOf(lines[..n]).error.sha1;
      var i, j :| 0 <= i < j < n && CarriesTwice(lines[..n], i, j, hash);
      assert CarriesTwice(lines, i, j, hash);
    } else {
      var hash := Sha1Of(lines[n]).value;
      var i := CarrierOf(lines[..n], hash);
      assert CarriesTwice(lines, i, n, hash);
    }
  }

  ghost predicate CarriesTwice(lines: seq<string>, i: nat, j: nat, hash: string)
    requires i < |lines| && j < |lines|
  {
    Sha1Of(lines[i]) == Some(hash) && Sha1Of(lines[j]) == Some(hash)
  }

  lemma {:induction false} CarrierOf(lines: seq<string>, hash: string) returns (i: nat)
    requires OverlaysOf(lines).Ok? && hash in OverlaysOf(lines).value
    ensures i < |lines| && Sha1Of(lines[i]) == Some(hash)
  {
    hide Sha1Of;
    i := |lines| - 1;
    if Sha1Of(lines[i]) != Some(hash) {
      i := CarrierOf(lines[..i], hash);
    }
  }

  ghost predicate IsSectionFault(bodies: map<string, string>, order: seq<string>, error: ManifestError) {
    match error
    case MissingSections(names) =>
      names != [] && forall name :: name in names <==> name in REQUIRED_SECTIONS && name !in bodies
    case SectionsOutOfOrder(names) =>
      && names != REQUIRED_SECTIONS && (forall name :: name in REQUIRED_SECTIONS ==> name in bodies)
      && forall name :: name in names <==> name in REQUIRED_SECTIONS && name in order
    case _ => false
  }

  /** Missing sections are reported exactly, and otherwise the required headings as they came. */
  lemma SectionFaultIsReal(text: string)
    requires var (bodies, order) := Bodies(text); CheckSections(bodies, order).Err?
    ensures var (bodies, order) := Bodies(text);
            IsSectionFault(bodies, order, CheckSections(bodies, order).error)
  {
    var (bodies, order) := Bodies(text);
    MissingMembers(REQUIRED_SECTIONS, bodies);
    RequiredMembers(order);
    hide Missing, RequiredAmong, Bodies;
  }

  lemma {:induction false} MissingMembers(names: seq<string>, bodies: map<string, string>)
    ensures forall name :: name in Missing(names, bodies) <==> name in names && name !in bodies
  {
    if names != [] {
      MissingMembers(names[1..], bodies);
      assert names == [names[0]] + names[1..];
    }
  }

  lemma {:induction false} RequiredMembers(names: seq<string>)
    ensures forall name :: name in RequiredAmong(names) <==> name in names && name in REQUIRED_SECTIONS
  {
    if names != [] {
      RequiredMembers(names[1..]);
      assert names == [names[0]] + names[1..];
    }
  }
}
