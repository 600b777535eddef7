/**
  What the key ring makes of any text: what trimming, splitting and reading a number mean, and
  which lists of entries give which ring.
  */
module KeyTexts {
  import opened Common
  import opened Digits
  import opened KeyText
  import opened KeyRing

  /** The language's white space and line ends, one by one. */
  lemma SpacesAreListed(c: char)
    ensures IsSpace(c) <==>
              c as int in {9, 10, 11, 12, 13, 32, 160, 5760, 8192, 8193, 8194, 8195, 8196, 8197, 8198, 8199, 8200, 8201,
                           8202, 8232, 8233, 8239, 8287, 12288, 65279}
  {}

  predicate Spaces(s: string)
  {
    forall i :: 0 <= i < |s| ==> IsSpace(s[i])
  }

  /** The text is t between spaces. */
  predicate Wraps(s: string, a: string, t: string, b: string)
  {
    s == a + t + b && Spaces(a) && Spaces(b)
  }

  lemma {:induction false} TrimLeftStrips(s: string) returns (a: string)
    ensures Spaces(a) && s == a + TrimLeft(s) && (TrimLeft(s) != "" ==> !IsSpace(TrimLeft(s)[0]))
  {
    a := "";
    if s != "" && IsSpace(s[0]) {
      a := TrimLeftStrips(s[1..]);
      a := [s[0]] + a;
    }
  }

  lemma {:induction false} TrimRightStrips(s: string) returns (b: string)
    ensures Spaces(b) && s == TrimRight(s) + b && (TrimRight(s) != "" ==> !IsSpace(TrimRight(s)[|TrimRight(s)| - 1]))
  {
    b := "";
    if s != "" && IsSpace(s[|s| - 1]) {
      b := TrimRightStrips(s[..|s| - 1]);
      b := b + [s[|s| - 1]];
    }
  }

  lemma {:induction false} TrimLeftOf(a: string, t: string)
    requires Spaces(a) && (t == "" || !IsSpace(t[0]))
    ensures TrimLeft(a + t) == t
  {
    if a == "" {
      assert a + t == t;
    } else {
      assert (a + t)[1..] == a[1..] + t;
      TrimLeftOf(a[1..], t);
    }
  }

  lemma {:induction false} TrimRightOf(t: string, b: string)
    requires Spaces(b) && (t == "" || !IsSpace(t[|t| - 1]))
    ensures TrimRight(t + b) == t
  {
    if b == "" {
      assert t + b == t;
    } else {
      var s := t + b;
      assert s[..|s| - 1] == t + b[..|b| - 1];
      TrimRightOf(t, b[..|b| - 1]);
    }
  }

  lemma {:induction false} SpacesTrimToNothing(s: string)
    requires Spaces(s)
    ensures TrimLeft(s) == ""
  {
    if s != "" {
      SpacesTrimToNothing(s[1..]);
    }
  }

  /** Trimming takes the spaces off both ends and nothing else. */
  lemma TrimIff(s: string, t: string)
    ensures Trim(s) == t <==>
              (t == "" || (!IsSpace(t[0]) && !IsSpace(t[|t| - 1]))) && exists a, b :: Wraps(s, a, t, b)
  {
    var a := TrimLeftStrips(s);
    var b := TrimRightStrips(TrimLeft(s));
    assert Wraps(s, a, Trim(s), b);
    if c, d :| Wraps(s, c, t, d) && (t == "" || (!IsSpace(t[0]) && !IsSpace(t[|t| - 1]))) {
      if t == "" {
        SpacesTrimToNothing(s);
      } else {
        assert s == c + (t + d);
        TrimLeftOf(c, t + d);
        TrimRightOf(t, d);
      }
    }
  }

  /** The parts of a text hold no separator, and joined they are the text. */
  lemma {:induction false} JoinOfSplit(s: string, separator: char)
    ensures JoinWith(Split(s, separator), separator) == s
    ensures forall i :: 0 <= i < |Split(s, separator)| ==> separator !in Split(s, separator)[i]
  {
    if s != "" {
      JoinOfSplit(s[1..], separator);
      var rest := Split(s[1..], separator);
      if s[0] == separator {
        assert Split(s, separator)[1..] == rest;
      } else {
        assert Split(s, separator)[1..] == rest[1..];
      }
    }
  }

  // ----- Numbers -----

  /** Spaces, a sign or none, digits, and a rest that does not go on with a digit. */
  predicate Spells(s: string, a: string, sign: string, digits: string, rest: string)
  {
    && s == a + sign + digits + rest && Spaces(a) && (sign == "" || sign == "-" || sign == "+")
    && digits != "" && AllDigits(digits) && (rest == "" || !IsDigit(rest[0]))
  }

  /** The text begins with this number. */
  ghost predicate BeginsWith(s: string, n: int)
  {
    exists a, sign, digits, rest ::
      Spells(s, a, sign, digits, rest) && n == if sign == "-" then -(Number(digits) as int) else Number(digits)
  }

  lemma {:induction false} DigitPrefixOf(digits: string, rest: string)
    requires AllDigits(digits) && (rest == "" || !IsDigit(rest[0]))
    ensures DigitPrefix(digits + rest) == digits
  {
    if digits == "" {
      assert digits + rest == rest;
    } else {
      assert (digits + rest)[1..] == digits[1..] + rest;
      DigitPrefixOf(digits[1..], rest);
    }
  }

  lemma {:induction false} DigitPrefixRests(s: string) returns (rest: string)
    ensures s == DigitPrefix(s) + rest && (rest == "" || !IsDigit(rest[0]))
  {
    rest := s;
    if s != "" && IsDigit(s[0]) {
      rest := DigitPrefixRests(s[1..]);
      assert s == [s[0]] + s[1..];
    }
  }

  lemma ParsesWhatItSpells(s: string, a: string, sign: string, digits: string, rest: string)
    requires Spells(s, a, sign, digits, rest)
    ensures ParseInt(s) == Some(if sign == "-" then -(Number(digits) as int) else Number(digits))
  {
    assert IsDigit(digits[0]) && !IsSpace(digits[0]);
    var t := sign + digits + rest;
    assert s == a + t;
    TrimLeftOf(a, t);
    DigitPrefixOf(digits, rest);
    if sign == "" {
      assert t == digits + rest;
    } else {
      assert t == sign + (digits + rest);
      assert |sign| == 1 && t[1..] == digits + rest;
    }
  }

  lemma InPieces(s: string, a: string, t: string, sign: string, u: string, digits: string, rest: string)
    requires s == a + t && t == sign + u && u == digits + rest
    ensures s == a + sign + digits + rest
  {}

  function SignOf(t: string): string
  {
    if t != "" && (t[0] == '-' || t[0] == '+') then [t[0]] else ""
  }

  /** What reading a number makes of its pieces. */
  lemma ParseIntOf(s: string)
    ensures var t := TrimLeft(s);
            var digits := DigitPrefix(t[|SignOf(t)|..]);
            ParseInt(s) == if digits == "" then None
                           else Some(if SignOf(t) == "-" then -(Number(digits) as int) else Number(digits))
  {
    hide TrimLeft, DigitPrefix, Number;
    var t := TrimLeft(s);
    assert SignOf(t) == "" ==> t[|SignOf(t)|..] == t;
  }

  lemma ParsedIsSpelled(s: string, n: int)
    requires ParseInt(s) == Some(n)
    ensures BeginsWith(s, n)
  {
    ParseIntOf(s);
    var a := TrimLeftStrips(s);
    var t := TrimLeft(s);
    var sign := SignOf(t);
    assert t == sign + t[|sign|..];
    var digits := DigitPrefix(t[|sign|..]);
    var rest := DigitPrefixRests(t[|sign|..]);
    hide TrimLeft, DigitPrefix, Number, AllDigits, IsSpace, IsDigit, ParseInt, Spaces;
    InPieces(s, a, t, sign, t[|sign|..], digits, rest);
    assert Spells(s, a, sign, digits, rest);
  }

  /** A text reads as a number exactly if it begins with one. */
  lemma ParseIntIff(s: string, n: int)
    ensures ParseInt(s) == Some(n) <==> BeginsWith(s, n)
  {
    if ParseInt(s) == Some(n) {
      ParsedIsSpelled(s, n);
    }
    hide ParseInt;
    if BeginsWith(s, n) {
      var a, sign, digits, rest :|
        Spells(s, a, sign, digits, rest) && n == if sign == "-" then -(Number(digits) as int) else Number(digits);
      hide Number, Spells, BeginsWith;
      ParsesWhatItSpells(s, a, sign, digits, rest);
    }
  }

  // ----- Keys -----

  lemma {:induction false} StandardizedReads(s: string)
    ensures Groups(Standardized(s)) == Groups(s)
  {
    if s != "" {
      assert Standardized(s)[1..] == Standardized(s[1..]);
      StandardizedReads(s[1..]);
    }
  }

  /** A key is 32 bytes, written as 64 hexadecimal digits or otherwise in base64 of either alphabet. */
  lemma DecodeKeyIff(raw: string, key: seq<Byte>)
    ensures var t := Trim(raw);
            DecodeKey(raw) == Some(key) <==>
              |key| == 32 && if |t| == 64 && AllHex(t) then key == FromHex(t) else key == FromBase64(t)
  {
    StandardizedReads(Trim(raw));
    hide Trim, AllHex, FromHex, LooksStandard, Groups, Octets;
  }

  // ----- Entries -----

  /** The entry names a version and a key, and anything after a second colon. */
  ghost predicate HasFields(part: string, number: string, keyText: string)
  {
    && number != "" && keyText != "" && ':' !in number && ':' !in keyText
    && exists rest :: Trim(part) == number + ":" + keyText + rest && (rest == "" || rest[0] == ':')
  }

  /** The entry gives this version this key. */
  ghost predicate Gives(part: string, v: int, key: seq<Byte>)
  {
    exists number, keyText ::
      HasFields(part, number, keyText) && BeginsWith(number, v) && DecodeKey(keyText) == Some(key)
  }

  /** The entry names a version, but its key is not one. */
  ghost predicate IsMalformed(part: string)
  {
    exists number, keyText, v ::
      HasFields(part, number, keyText) && BeginsWith(number, v) && DecodeKey(keyText) == None
  }

  lemma FieldsSplit(part: string, number: string, keyText: string)
    requires HasFields(part, number, keyText)
    ensures var parts := Split(Trim(part), ':');
            Trim(part) != "" && |parts| >= 2 && parts[0] == number && parts[1] == keyText
  {
    var rest :| Trim(part) == number + ":" + keyText + rest && (rest == "" || rest[0] == ':');
    hide Trim, Split;
    assert Trim(part) == number + [':'] + (keyText + rest);
    SplitFirst(number, keyText + rest, ':');
    if rest == "" {
      assert keyText + rest == keyText;
      SplitFree(keyText, ':');
    } else {
      assert keyText + rest == keyText + [':'] + rest[1..];
      SplitFirst(keyText, rest[1..], ':');
    }
  }

  lemma SplitHasFields(part: string)
    requires var parts := Split(Trim(part), ':'); |parts| >= 2 && parts[0] != "" && parts[1] != ""
    ensures var parts := Split(Trim(part), ':'); HasFields(part, parts[0], parts[1])
  {
    var parts := Split(Trim(part), ':');
    JoinOfSplit(Trim(part), ':');
    hide Trim, Split;
    var rest := if |parts| == 2 then "" else [':'] + JoinWith(parts[2..], ':');
    assert JoinWith(parts[1..], ':') == parts[1] + rest;
    assert Trim(part) == parts[0] + ":" + parts[1] + rest;
  }

  /** An entry's effect: it fails where its key is malformed, gives its version its key, or is passed over. */
  lemma EnterTells(ring: Ring, part: string)
    ensures Enter(ring, part) == None <==> IsMalformed(part)
    ensures forall v, key :: Gives(part, v, key) ==> Enter(ring, part) == Some(ring[v := key])
    ensures Enter(ring, part) == None || Enter(ring, part) == Some(ring)
            || exists v, key :: Gives(part, v, key) && Enter(ring, part) == Some(ring[v := key])
  {
    var parts := Split(Trim(part), ':');
    if |parts| >= 2 && parts[0] != "" && parts[1] != "" {
      SplitHasFields(part);
      if ParseInt(parts[0]).Some? {
        ParseIntIff(parts[0], ParseInt(parts[0]).value);
        hide BeginsWith, HasFields, ParseInt, DecodeKey, Split, Trim;
        assert DecodeKey(parts[1]).Some? ==> Gives(part, ParseInt(parts[0]).value, DecodeKey(parts[1]).value);
      }
    }
    forall v, key | Gives(part, v, key)
      ensures Enter(ring, part) == Some(ring[v := key])
    {
      var number, keyText :|
        HasFields(part, number, keyText) && BeginsWith(number, v) && DecodeKey(keyText) == Some(key);
      FieldsSplit(part, number, keyText);
      ParseIntIff(number, v);
    }
    if IsMalformed(part) {
      var number, keyText, v :| HasFields(part, number, keyText) && BeginsWith(number, v) && DecodeKey(keyText) == None;
      FieldsSplit(part, number, keyText);
      ParseIntIff(number, v);
    }
  }

  lemma OneVersionEach(part: string, v: int, key: seq<Byte>, v': int, key': seq<Byte>)
    requires Gives(part, v, key) && Gives(part, v', key')
    ensures v == v' && key == key'
  {
    hide Gives, Enter, IsMalformed;
    EnterTells(map[], part);
    assert v in map[v := key] && v in map[v' := key'];
  }

  // ----- Lists of entries -----

  ghost predicate SomeMalformed(parts: seq<string>)
  {
    exists i :: 0 <= i < |parts| && IsMalformed(parts[i])
  }

  /** No entry gives this version a key. */
  ghost predicate NoneGives(parts: seq<string>, v: int)
  {
    forall i, key :: 0 <= i < |parts| ==> !Gives(parts[i], v, key)
  }

  /** The last of the entries that give this version a key gives it this one. */
  ghost predicate LastGives(parts: seq<string>, v: int, key: seq<Byte>)
  {
    exists i :: 0 <= i < |parts| && Gives(parts[i], v, key) && NoneGives(parts[i + 1..], v)
  }

  lemma LastOfMore(parts: seq<string>, v: int, key: seq<Byte>)
    requires parts != []
    ensures LastGives(parts, v, key) <==>
              LastGives(parts[1..], v, key) || (Gives(parts[0], v, key) && NoneGives(parts[1..], v))
    ensures NoneGives(parts, v) <==> NoneGives(parts[1..], v) && forall k :: !Gives(parts[0], v, k)
    ensures SomeMalformed(parts) <==> IsMalformed(parts[0]) || SomeMalformed(parts[1..])
  {
    hide Gives, IsMalformed;
    var rest := parts[1..];
    assert forall i :: 0 <= i < |rest| ==> parts[i + 1] == rest[i];
    if i :| 0 <= i < |parts| && Gives(parts[i], v, key) && NoneGives(parts[i + 1..], v) {
      assert i > 0 ==> rest[i - 1] == parts[i] && rest[i - 1 + 1..] == parts[i + 1..];
    }
    if i :| 0 <= i < |rest| && Gives(rest[i], v, key) && NoneGives(rest[i + 1..], v) {
      assert parts[i + 1] == rest[i] && parts[i + 1 + 1..] == rest[i + 1..];
    }
    if i :| 0 <= i < |parts| && IsMalformed(parts[i]) {
      assert i > 0 ==> rest[i - 1] == parts[i];
    }
    forall i, k | 0 <= i < |rest| && NoneGives(parts, v)
      ensures !Gives(rest[i], v, k)
    {
      assert !Gives(parts[i + 1], v, k);
    }
    forall i, k | 0 <= i < |parts| && NoneGives(rest, v) && (forall k :: !Gives(parts[0], v, k))
      ensures !Gives(parts[i], v, k)
    {
      assert i > 0 ==> rest[i - 1] == parts[i];
    }
  }

  /** The ring maps a version to a key if the list does, or if it did and the list does not. */
  ghost predicate Maps(ring: Ring, v: int, key: seq<Byte>)
  {
    v in ring && ring[v] == key
  }

  lemma {:induction false} EntriesTell(ring: Ring, parts: seq<string>, v: int, key: seq<Byte>)
    ensures EnterAll(ring, parts) == None <==> SomeMalformed(parts)
    ensures EnterAll(ring, parts).Some? ==>
              (Maps(EnterAll(ring, parts).value, v, key) <==>
                 LastGives(parts, v, key) || (Maps(ring, v, key) && NoneGives(parts, v)))
    decreases |parts|
  {
    if parts != [] {
      hide Gives, IsMalformed, Enter, NoneGives, LastGives, SomeMalformed;
      EnterTells(ring, parts[0]);
      LastOfMore(parts, v, key);
      if Enter(ring, parts[0]).Some? {
        var next := Enter(ring, parts[0]).value;
        EntriesTell(next, parts[1..], v, key);
        if w, k :| Gives(parts[0], w, k) {
          assert next == ring[w := k];
          forall k' | Gives(parts[0], v, k')
            ensures w == v && k' == k
          {
            OneVersionEach(parts[0], w, k, v, k');
          }
        }
      }
    } else {
      assert !LastGives(parts, v, key) && NoneGives(parts, v);
    }
  }

  /**
    Any list of entries: it is refused exactly if some entry names a version with a malformed
    key, and otherwise the ring maps a version to a key exactly if the last entry that gives
    this version a key gives it this one.  All other entries are passed over.
    */
  lemma RingIff(parts: seq<string>, v: int, key: seq<Byte>)
    requires parts != [] && forall i :: 0 <= i < |parts| ==> ',' !in parts[i]
    ensures var r := ParseRing(JoinWith(parts, ','));
            && (r == None <==> SomeMalformed(parts))
            && (r.Some? ==> (v in r.value && r.value[v] == key <==> LastGives(parts, v, key)))
  {
    SplitOfJoin(parts, ',');
    EntriesTell(map[], parts, v, key);
    hide Split, JoinWith, EnterAll, LastGives, SomeMalformed, NoneGives;
  }

  // ----- Configurations -----

  predicate IsBlank(text: Option<string>)
  {
    text.None? || Spaces(text.value)
  }

  lemma BlankIff(text: Option<string>)
    ensures IsBlank(text) <==> (if text.Some? then Trim(text.value) else "") == ""
  {
    if text.Some? {
      if Spaces(text.value) {
        SpacesTrimToNothing(text.value);
      } else {
        var a := TrimLeftStrips(text.value);
        var b := TrimRightStrips(TrimLeft(text.value));
      }
    }
  }

  /** The active version: the number its text begins with, or 1. */
  ghost predicate IsActive(versionText: Option<string>, active: int)
  {
    if versionText.Some? && exists n :: BeginsWith(versionText.value, n) then BeginsWith(versionText.value, active)
    else active == 1
  }

  /**
    Which configurations start, and which error the others meet: a list takes precedence over
    the single key, which is the active version's.
    */
  lemma ConfigureIff(versionText: Option<string>, keysText: Option<string>, legacyText: Option<string>, active: int)
    requires IsActive(versionText, active)
    ensures var r := Configure(versionText, keysText, legacyText);
            if !IsBlank(keysText) then
              match ParseRing(Trim(keysText.value))
              case None => r == Failure(MalformedKey)
              case Some(ring) =>
                r == if ring == map[] then Failure(NoKeys)
                     else if active in ring then Success((ring, active)) else Failure(NoActiveKey)
            else if !IsBlank(legacyText) then
              match DecodeKey(legacyText.value)
              case None => r == Failure(MalformedKey)
              case Some(key) => r == Success((map[active := key], active))
            else r == Failure(NoKeys)
  {
    BlankIff(keysText);
    BlankIff(legacyText);
    ActiveIs(versionText, active);
    if legacyText.Some? {
      TrimTwice(legacyText.value);
    }
    hide Spaces, ParseInt, BeginsWith, ParseRing, IsBlank, IsActive;
    assert forall key: seq<Byte> :: active in map[active := key];
  }

  lemma ActiveIs(versionText: Option<string>, active: int)
    requires IsActive(versionText, active)
    ensures active == var parsed := ParseInt(if versionText.Some? then versionText.value else "1");
                      if parsed.Some? then parsed.value else 1
  {
    if versionText.Some? {
      var text := versionText.value;
      if BeginsWith(text, active) {
        ParseIntIff(text, active);
      } else if ParseInt(text).Some? {
        ParseIntIff(text, ParseInt(text).value);
      }
    } else {
      assert Spells("1", "", "", "1", "");
      assert BeginsWith("1", 1);
      ParseIntIff("1", 1);
      hide ParseInt, BeginsWith;
      if BeginsWith("1", active) {
        ParseIntIff("1", active);
      }
    }
  }

  lemma TrimTwice(s: string)
    ensures DecodeKey(Trim(s)) == DecodeKey(s)
  {
    TrimIff(s, Trim(s));
    TrimIff(Trim(s), Trim(s));
  }
}
