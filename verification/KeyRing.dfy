/**
  The ring of chat encryption keys: read from a comma-separated list of `version:key` entries,
  and used to read what was encrypted under any version the ring still holds.
  */
module KeyRing {
  import opened Common
  import opened Digits
  import opened KeyText

  const KEY_BYTES := 32

  // ----- Text helpers of the language -----

  /** White space and line ends, as trimming understands them. */
  predicate IsSpace(c: char)
  {
    var code := c as int;
    || code == 0x20 || 0x9 <= code <= 0xD || code == 0xA0 || code == 0x1680 || 0x2000 <= code <= 0x200A
    || code == 0x2028 || code == 0x2029 || code == 0x202F || code == 0x205F || code == 0x3000 || code == 0xFEFF
  }

  function TrimLeft(s: string): string
  {
    if s != "" && IsSpace(s[0]) then TrimLeft(s[1..]) else s
  }

  function TrimRight(s: string): string
  {
    if s != "" && IsSpace(s[|s| - 1]) then TrimRight(s[..|s| - 1]) else s
  }

  function Trim(s: string): string
  {
    TrimRight(TrimLeft(s))
  }

  /** The stretches between separators; a text without one is a single stretch. */
  function Split(s: string, separator: char): (parts: seq<string>)
    ensures parts != []
  {
    if s == "" then [""]
    else if s[0] == separator then [""] + Split(s[1..], separator)
    else
      var rest := Split(s[1..], separator);
      [[s[0]] + rest[0]] + rest[1..]
  }

  function DigitPrefix(s: string): (d: string)
    ensures AllDigits(d)
  {
    if s != "" && IsDigit(s[0]) then [s[0]] + DigitPrefix(s[1..]) else ""
  }

  /** The decimal number a text begins with, if it does. */
  function ParseInt(s: string): Option<int>
  {
    var t := TrimLeft(s);
    var signed := t != "" && (t[0] == '-' || t[0] == '+');
    var digits := DigitPrefix(if signed then t[1..] else t);
    if digits == "" then None
    else Some(if signed && t[0] == '-' then -(Number(digits) as int) else Number(digits))
  }

  // ----- Keys -----

  predicate AllHex(s: string)
  {
    forall i :: 0 <= i < |s| ==> IsHex(s[i])
  }

  predicate LooksStandard(s: string)
  {
    exists i :: 0 <= i < |s| && (s[i] == '+' || s[i] == '/' || s[i] == '=')
  }

  function Standardized(s: string): (r: string)
    ensures |r| == |s|
    ensures forall i :: 0 <= i < |s| ==> r[i] == if s[i] == '-' then '+' else if s[i] == '_' then '/' else s[i]
  {
    seq(|s|, i requires 0 <= i < |s| => if s[i] == '-' then '+' else if s[i] == '_' then '/' else s[i])
  }

  /** None where the text does not hold exactly 32 bytes. */
  function DecodeKey(raw: string): (r: Option<seq<Byte>>)
    ensures r.Some? ==> |r.value| == KEY_BYTES
  {
    var trimmed := Trim(raw);
    var isHex := AllHex(trimmed) && |trimmed| == 64;
    var buffer := if isHex then FromHex(trimmed)
                  else FromBase64(if LooksStandard(trimmed) then trimmed else Standardized(trimmed));
    if |buffer| == KEY_BYTES then Some(buffer) else None
  }

  type Ring = map<int, seq<Byte>>

  /** One entry's effect on the ring; None where its key is malformed. */
  function Enter(ring: Ring, raw: string): Option<Ring>
  {
    var entry := Trim(raw);
    var parts := Split(entry, ':');
    if entry == "" || |parts| < 2 || parts[0] == "" || parts[1] == "" then Some(ring)
    else if ParseInt(parts[0]).None? then Some(ring)
    else
      match DecodeKey(parts[1])
      case None => None
      case Some(key) => Some(ring[ParseInt(parts[0]).value := key])
  }

  function EnterAll(ring: Ring, entries: seq<string>): Option<Ring>
    decreases |entries|
  {
    if entries == [] then Some(ring)
    else match Enter(ring, entries[0]) case None => None case Some(next) => EnterAll(next, entries[1..])
  }

  function ParseRing(text: string): Option<Ring>
  {
    EnterAll(map[], Split(text, ','))
  }

  datatype SetupError = MalformedKey | NoKeys | NoActiveKey

  /** What the service starts with: its ring and its active version. */
  function Configure(versionText: Option<string>, keysText: Option<string>, legacyText: Option<string>)
    : Result<(Ring, int), SetupError>
  {
    var parsed := ParseInt(if versionText.Some? then versionText.value else "1");
    var active := if parsed.Some? then parsed.value else 1;
    var keysEnv := if keysText.Some? then Trim(keysText.value) else "";
    var legacyKey := if legacyText.Some? then Trim(legacyText.value) else "";
    var ring :=
      if keysEnv != "" then ParseRing(keysEnv)
      else if legacyKey != "" then
        (match DecodeKey(legacyKey) case None => None case Some(key) => Some(map[active := key]))
      else Some(map[]);
    if ring.None? then Failure(MalformedKey)
    else if ring.value == map[] then Failure(NoKeys)
    else if active !in ring.value then Failure(NoActiveKey)
    else Success((ring.value, active))
  }

  // ----- Writing a ring -----

  datatype Form = Hex(upper: bool) | Base64 | Base64Bare | Base64Url

  function KeyIn(form: Form, key: seq<Byte>): string
  {
    match form
    case Hex(upper) => ToHex(key, upper)
    case Base64 => ToBase64(key)
    case Base64Bare => ToBase64Bare(key, false)
    case Base64Url => ToBase64Bare(key, true)
  }

  datatype Entry = Entry(version: nat, key: seq<Byte>, form: Form)

  function EntryText(e: Entry): string
  {
    Decimal(e.version) + ":" + KeyIn(e.form, e.key)
  }

  function EntryTexts(entries: seq<Entry>): (r: seq<string>)
    ensures |r| == |entries| && forall i :: 0 <= i < |r| ==> r[i] == EntryText(entries[i])
  {
    seq(|entries|, i requires 0 <= i < |entries| => EntryText(entries[i]))
  }

  function JoinWith(parts: seq<string>, separator: char): string
    requires parts != []
  {
    if |parts| == 1 then parts[0] else parts[0] + [separator] + JoinWith(parts[1..], separator)
  }

  /** A ring as an operator writes it. */
  function RingText(entries: seq<Entry>): string
    requires entries != []
  {
    JoinWith(EntryTexts(entries), ',')
  }

  predicate KeysFit(entries: seq<Entry>)
  {
    forall i :: 0 <= i < |entries| ==> |entries[i].key| == KEY_BYTES
  }

  ghost predicate DistinctVersions(entries: seq<Entry>)
  {
    forall i, j :: 0 <= i < j < |entries| ==> entries[i].version != entries[j].version
  }

  // ----- What reads back -----

  /** A text of characters that are neither spaces nor separators. */
  predicate Solid(s: string)
  {
    forall i :: 0 <= i < |s| ==> !IsSpace(s[i]) && s[i] != ',' && s[i] != ':'
  }

  lemma TrimSolid(s: string)
    requires s == "" || (!IsSpace(s[0]) && !IsSpace(s[|s| - 1]))
    ensures Trim(s) == s && TrimLeft(s) == s
  {}

  lemma {:induction false} SplitFree(s: string, separator: char)
    requires separator !in s
    ensures Split(s, separator) == [s]
  {
    if s != "" {
      assert s[0] in s && s == [s[0]] + s[1..];
      SplitFree(s[1..], separator);
    }
  }

  lemma {:induction false} SplitFirst(a: string, rest: string, separator: char)
    requires separator !in a
    ensures Split(a + [separator] + rest, separator) == [a] + Split(rest, separator)
  {
    var s := a + [separator] + rest;
    if a == "" {
      assert s[1..] == rest;
    } else {
      assert a[0] in a && a == [a[0]] + a[1..];
      SplitFirst(a[1..], rest, separator);
      assert s[1..] == a[1..] + [separator] + rest;
    }
  }

  /** Splitting undoes joining. */
  lemma {:induction false} SplitOfJoin(parts: seq<string>, separator: char)
    requires parts != [] && forall i :: 0 <= i < |parts| ==> separator !in parts[i]
    ensures Split(JoinWith(parts, separator), separator) == parts
  {
    if |parts| == 1 {
      SplitFree(parts[0], separator);
    } else {
      SplitOfJoin(parts[1..], separator);
      SplitFirst(parts[0], JoinWith(parts[1..], separator), separator);
    }
  }

  // ----- Every written key reads back -----

  lemma HexIsSolid(key: seq<Byte>, upper: bool)
    ensures Solid(ToHex(key, upper))
  {}

  lemma Base64IsSolid(key: seq<Byte>, url: bool)
    ensures Solid(ToBase64Bare(key, url)) && Solid(ToBase64(key))
  {}

  lemma KeyIsSolid(form: Form, key: seq<Byte>)
    requires |key| == KEY_BYTES
    ensures Solid(KeyIn(form, key)) && KeyIn(form, key) != ""
  {}

  /** Whole groups of three bytes give four characters each. */
  lemma {:induction false} SextetCount(bytes: seq<Byte>)
    ensures |bytes| % 3 == 2 ==> 3 * |Sextets(bytes)| == 4 * |bytes| + 1
    ensures bytes != [] ==> Sextets(bytes) != []
  {
    if |bytes| >= 3 {
      SextetCount(bytes[3..]);
    }
  }

  lemma UrlIsStandardized(key: seq<Byte>)
    ensures !LooksStandard(ToBase64Bare(key, true))
    ensures Standardized(ToBase64Bare(key, true)) == ToBase64Bare(key, false)
  {}

  lemma BareIsStandard(key: seq<Byte>)
    ensures Standardized(ToBase64Bare(key, false)) == ToBase64Bare(key, false)
  {}

  lemma TrimKey(s: string)
    requires Solid(s)
    ensures Trim(s) == s
  {}

  lemma HexReads(key: seq<Byte>, upper: bool)
    requires |key| == KEY_BYTES
    ensures DecodeKey(ToHex(key, upper)) == Some(key)
  {
    HexIsSolid(key, upper);
    TrimKey(ToHex(key, upper));
    HexRoundTrip(key, upper);
    hide ToHex, FromHex, Trim, Solid;
  }

  lemma PaddedIsStandard(key: seq<Byte>)
    requires |key| == KEY_BYTES
    ensures !AllHex(ToBase64(key)) && LooksStandard(ToBase64(key))
  {
    hide Sextets, Chars;
    var s := ToBase64(key);
    assert s[|s| - 1] == '=' && !IsHex(s[|s| - 1]);
  }

  lemma PaddedReads(key: seq<Byte>)
    requires |key| == KEY_BYTES
    ensures DecodeKey(ToBase64(key)) == Some(key)
  {
    Base64IsSolid(key, false);
    TrimKey(ToBase64(key));
    Base64RoundTrip(key, false);
    PaddedIsStandard(key);
    hide ToBase64, ToBase64Bare, FromBase64, Trim, Solid, AllHex, FromHex, LooksStandard, Standardized;
  }

  lemma BareLength(key: seq<Byte>, url: bool)
    requires |key| == KEY_BYTES
    ensures |ToBase64Bare(key, url)| == 43
  {
    SextetCount(key);
    hide Sextets;
  }

  lemma BareReads(key: seq<Byte>, url: bool)
    requires |key| == KEY_BYTES
    ensures DecodeKey(ToBase64Bare(key, url)) == Some(key)
  {
    hide ToBase64Bare, FromBase64, FromHex, Trim, Solid, Standardized, LooksStandard;
    Base64IsSolid(key, url);
    TrimKey(ToBase64Bare(key, url));
    Base64RoundTrip(key, false);
    BareLength(key, url);
    if url {
      UrlIsStandardized(key);
    } else {
      BareIsStandard(key);
    }
  }

  /** A key of 32 bytes reads back from each of its encodings. */
  lemma KeyRoundTrip(form: Form, key: seq<Byte>)
    requires |key| == KEY_BYTES
    ensures DecodeKey(KeyIn(form, key)) == Some(key)
  {
    match form
    case Hex(upper) => HexReads(key, upper);
    case Base64 => PaddedReads(key);
    case Base64Bare => BareReads(key, false);
    case Base64Url => BareReads(key, true);
  }

  // ----- Every written ring reads back -----

  lemma {:induction false} DigitPrefixOfDigits(s: string)
    requires AllDigits(s)
    ensures DigitPrefix(s) == s
  {
    if s != "" {
      DigitPrefixOfDigits(s[1..]);
      assert s == [s[0]] + s[1..];
    }
  }

  lemma VersionReads(n: nat)
    ensures ParseInt(Decimal(n)) == Some(n) && Solid(Decimal(n))
  {
    var s := Decimal(n);
    TrimSolid(s);
    DigitPrefixOfDigits(s);
    NumberOfDecimal(n);
  }

  lemma EntryReads(ring: Ring, e: Entry)
    requires |e.key| == KEY_BYTES
    ensures Enter(ring, EntryText(e)) == Some(ring[e.version := e.key])
    ensures ',' !in EntryText(e)
  {
    var v, k := Decimal(e.version), KeyIn(e.form, e.key);
    VersionReads(e.version);
    KeyIsSolid(e.form, e.key);
    KeyRoundTrip(e.form, e.key);
    hide Decimal, KeyIn, ParseInt, DecodeKey;
    assert EntryText(e) == v + ":" + k;
    assert !IsSpace(EntryText(e)[0]) && !IsSpace(EntryText(e)[|EntryText(e)| - 1]);
    TrimSolid(EntryText(e));
    SplitFirst(v, k, ':');
    SplitFree(k, ':');
  }

  /** The ring a list of entries stands for; of two entries of one version the later counts. */
  function RingOf(ring: Ring, entries: seq<Entry>): Ring
    decreases |entries|
  {
    if entries == [] then ring else RingOf(ring[entries[0].version := entries[0].key], entries[1..])
  }

  lemma {:induction false} EntriesRead(ring: Ring, entries: seq<Entry>)
    requires KeysFit(entries)
    ensures EnterAll(ring, EntryTexts(entries)) == Some(RingOf(ring, entries))
    decreases |entries|
  {
    if entries != [] {
      EntryReads(ring, entries[0]);
      assert EntryTexts(entries)[1..] == EntryTexts(entries[1..]);
      EntriesRead(ring[entries[0].version := entries[0].key], entries[1..]);
    }
  }

  /** A written ring reads back, whatever encodings its keys are written in. */
  lemma RingReads(entries: seq<Entry>)
    requires entries != [] && KeysFit(entries)
    ensures ParseRing(RingText(entries)) == Some(RingOf(map[], entries))
  {
    var texts := EntryTexts(entries);
    forall i | 0 <= i < |texts|
      ensures ',' !in texts[i]
    {
      EntryReads(map[], entries[i]);
    }
    SplitOfJoin(texts, ',');
    EntriesRead(map[], entries);
  }

  lemma {:induction false} RingHolds(ring: Ring, entries: seq<Entry>, v: int)
    requires DistinctVersions(entries)
    ensures v in RingOf(ring, entries) <==> v in ring || exists i :: 0 <= i < |entries| && entries[i].version == v
    ensures forall i :: 0 <= i < |entries| && entries[i].version == v ==>
              v in RingOf(ring, entries) && RingOf(ring, entries)[v] == entries[i].key
    ensures v in ring && (forall i :: 0 <= i < |entries| ==> entries[i].version != v) ==>
              v in RingOf(ring, entries) && RingOf(ring, entries)[v] == ring[v]
    decreases |entries|
  {
    if entries != [] {
      var e, rest := entries[0], entries[1..];
      RingHolds(ring[e.version := e.key], rest, v);
      forall i | 0 <= i < |entries|
        ensures i > 0 ==> entries[i] == rest[i - 1]
      {}
      if v != e.version {
        assert (exists i :: 0 <= i < |rest| && rest[i].version == v) <==>
               exists i :: 0 <= i < |entries| && entries[i].version == v by {
          if i :| 0 <= i < |rest| && rest[i].version == v {
            assert entries[i + 1].version == v;
          }
          if i :| 0 <= i < |entries| && entries[i].version == v {
            assert rest[i - 1].version == v;
          }
        }
      }
    }
  }

  /** For distinct versions, parsing the list gives exactly the ring that was written. */
  lemma RingRoundTrip(entries: seq<Entry>)
    requires entries != [] && KeysFit(entries) && DistinctVersions(entries)
    ensures ParseRing(RingText(entries)).Some?
    ensures var ring := ParseRing(RingText(entries)).value;
            && (forall v :: v in ring <==> exists i :: 0 <= i < |entries| && entries[i].version == v)
            && (forall i :: 0 <= i < |entries| ==> ring[entries[i].version] == entries[i].key)
  {
    RingReads(entries);
    forall v: int {
      RingHolds(map[], entries, v);
    }
    hide RingOf, ParseRing, RingText, DistinctVersions;
  }

  // ----- Starting from a written ring -----

  lemma {:induction false} JoinEnds(parts: seq<string>, separator: char)
    requires parts != [] && forall i :: 0 <= i < |parts| ==> parts[i] != ""
    ensures var s, last := JoinWith(parts, separator), parts[|parts| - 1];
            s != "" && s[0] == parts[0][0] && s[|s| - 1] == last[|last| - 1]
  {
    if |parts| > 1 {
      JoinEnds(parts[1..], separator);
    }
  }

  lemma EntryIsSolidAtEnds(e: Entry)
    requires |e.key| == KEY_BYTES
    ensures var s := EntryText(e); s != "" && !IsSpace(s[0]) && !IsSpace(s[|s| - 1])
  {}

  lemma RingTextIsTrimmed(entries: seq<Entry>)
    requires entries != [] && KeysFit(entries)
    ensures RingText(entries) != "" && Trim(RingText(entries)) == RingText(entries)
  {
    var texts := EntryTexts(entries);
    forall i | 0 <= i < |texts|
      ensures texts[i] != "" && !IsSpace(texts[i][0]) && !IsSpace(texts[i][|texts[i]| - 1])
    {
      EntryIsSolidAtEnds(entries[i]);
    }
    JoinEnds(texts, ',');
    TrimSolid(RingText(entries));
  }

  /** A service started with a written ring holds it, if the active version is one of its own. */
  lemma ConfigureReads(active: nat, entries: seq<Entry>, legacyText: Option<string>)
    requires entries != [] && KeysFit(entries)
    ensures Configure(Some(Decimal(active)), Some(RingText(entries)), legacyText)
         == var ring := RingOf(map[], entries);
            if active in ring then Success((ring, active)) else Failure(NoActiveKey)
  {
    VersionReads(active);
    RingTextIsTrimmed(entries);
    RingReads(entries);
    RingIsNotEmpty(map[], entries);
    hide Decimal, RingText, ParseInt, ParseRing, Trim, RingOf;
  }

  /** The single key of older configurations is the active version's, in any encoding. */
  lemma LegacyKeyReads(active: nat, keysText: Option<string>, form: Form, key: seq<Byte>)
    requires |key| == KEY_BYTES && (keysText.Some? ==> Trim(keysText.value) == "")
    ensures Configure(Some(Decimal(active)), keysText, Some(KeyIn(form, key)))
         == Success((map[active as int := key], active))
  {
    VersionReads(active);
    KeyIsSolid(form, key);
    KeyRoundTrip(form, key);
    TrimKey(KeyIn(form, key));
    hide Decimal, ParseInt, ParseRing, Trim, KeyIn, DecodeKey;
    assert active as int in map[active as int := key];
  }

  lemma {:induction false} RingIsNotEmpty(ring: Ring, entries: seq<Entry>)
    requires ring != map[] || entries != []
    ensures RingOf(ring, entries) != map[]
    decreases |entries|
  {
    if entries != [] {
      var next := ring[entries[0].version := entries[0].key];
      assert entries[0].version as int in next;
      RingIsNotEmpty(next, entries[1..]);
    }
  }

  // ----- Encryption -----

  /** The cipher as the two directions of one mapping; opening fails where the tag does not fit. */
  datatype Cipher = Cipher(
    seal: (seq<Byte>, seq<Byte>, seq<Byte>) -> (seq<Byte>, seq<Byte>),
    open: (seq<Byte>, seq<Byte>, seq<Byte>, seq<Byte>) -> Option<seq<Byte>>)

  /** What was sealed opens under the same key and vector. */
  ghost predicate Inverse(c: Cipher)
  {
    forall key, iv, plain {:trigger c.seal(key, iv, plain)} ::
      c.open(key, iv, c.seal(key, iv, plain).0, c.seal(key, iv, plain).1) == Some(plain)
  }

  /** There are such ciphers, if no secret ones: one that hides nothing. */
  lemma SomeCipherInverts()
    ensures Inverse(Cipher((key: seq<Byte>, iv: seq<Byte>, plain: seq<Byte>) => (plain, []),
                           (key: seq<Byte>, iv: seq<Byte>, text: seq<Byte>, tag: seq<Byte>) => Some(text)))
  {}

  datatype Payload = Payload(ciphertext: string, iv: string, tag: string, keyVersion: int)

  datatype CipherError = MissingKey | DecryptionFailed

  function Encrypt(c: Cipher, ring: Ring, active: int, plain: seq<Byte>, iv: seq<Byte>): Result<Payload, CipherError>
  {
    if active !in ring then Failure(MissingKey)
    else
      var (ciphertext, tag) := c.seal(ring[active], iv, plain);
      Success(Payload(ToBase64(ciphertext), ToBase64(iv), ToBase64(tag), active))
  }

  /** A missing key is reported like any other failure. */
  function Decrypt(c: Cipher, ring: Ring, p: Payload): Result<seq<Byte>, CipherError>
  {
    if p.keyVersion !in ring then Failure(DecryptionFailed)
    else
      match c.open(ring[p.keyVersion], FromBase64(p.iv), FromBase64(p.ciphertext), FromBase64(p.tag))
      case None => Failure(DecryptionFailed)
      case Some(plain) => Success(plain)
  }

  /** What was encrypted under one ring decrypts under any ring that maps the version to the same key. */
  lemma DecryptsAfterRotation(c: Cipher, ring: Ring, later: Ring, active: int, plain: seq<Byte>, iv: seq<Byte>)
    requires Inverse(c)
    ensures match Encrypt(c, ring, active, plain, iv)
            case Failure(e) => active !in ring && e == MissingKey
            case Success(p) =>
              && active in ring
              && (active in later && later[active] == ring[active] ==> Decrypt(c, later, p) == Success(plain))
              && (active !in later ==> Decrypt(c, later, p) == Failure(DecryptionFailed))
  {
    if active in ring {
      var (ciphertext, tag) := c.seal(ring[active], iv, plain);
      Base64RoundTrip(ciphertext, false);
      Base64RoundTrip(iv, false);
      Base64RoundTrip(tag, false);
    }
    hide ToBase64, FromBase64;
  }

  /**
    From one configuration to a later one: whatever else was added, dropped, reordered or
    written in another encoding, a message stays readable if its version is still listed with
    its key.
    */
  lemma MessagesSurviveRotation(c: Cipher, before: seq<Entry>, after: seq<Entry>, i: nat, j: nat, active: nat,
                                plain: seq<Byte>, iv: seq<Byte>)
    requires Inverse(c) && KeysFit(before) && KeysFit(after) && DistinctVersions(before) && DistinctVersions(after)
    requires i < |before| && j < |after| && before[i].version == after[j].version && before[i].key == after[j].key
    requires exists k :: 0 <= k < |after| && after[k].version == active
    ensures var first := Configure(Some(Decimal(before[i].version)), Some(RingText(before)), None);
            var later := Configure(Some(Decimal(active)), Some(RingText(after)), None);
            && first.Success? && later.Success?
            && var p := Encrypt(c, first.value.0, first.value.1, plain, iv);
               p.Success? && Decrypt(c, later.value.0, p.value) == Success(plain)
  {
    var v := before[i].version;
    ConfigureReads(v, before, None);
    ConfigureReads(active, after, None);
    RingHolds(map[], before, v);
    RingHolds(map[], after, v);
    RingHolds(map[], after, active);
    DecryptsAfterRotation(c, RingOf(map[], before), RingOf(map[], after), v, plain, iv);
    hide Configure, Encrypt, Decrypt, RingOf, RingText, DistinctVersions, KeysFit;
  }

  // ----- The loop that reads the list -----

  method ReadKeys(keysEnv: string) returns (keys: Option<Ring>)
    ensures keys == ParseRing(keysEnv)
  {
    var entries := Split(keysEnv, ',');
    var ring: Ring := map[];
    for i := 0 to |entries|
      invariant EnterAll(ring, entries[i..]) == ParseRing(keysEnv)
    {
      assert entries[i..][1..] == entries[i + 1..];
      var entry := Trim(entries[i]);
      if entry == "" {
        continue;
      }
      var parts := Split(entry, ':');
      if |parts| < 2 || parts[0] == "" || parts[1] == "" {
        continue;
      }
      var version := ParseInt(parts[0]);
      if version.None? {
        continue;
      }
      var key := DecodeKey(parts[1]);
      if key.None? {
        return None;
      }
      ring := ring[version.value := key.value];
    }
    keys := Some(ring);
  }
}
