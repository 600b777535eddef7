/**
  The encodings keys and payloads are written in: hexadecimal, base64 and base64url, as
  sections 8, 4 and 5 of RFC 4648 define them.
  */
module KeyText {
  import opened Common

  type Byte = n: nat | n < 256

  type Sextet = n: nat | n < 64

  // ----- Hexadecimal -----

  function HexChar(d: nat, upper: bool): char
    requires d < 16
  {
    if d < 10 then ('0' as int + d) as char
    else ((if upper then 'A' else 'a') as int + d - 10) as char
  }

  predicate IsHex(c: char)
  {
    '0' <= c <= '9' || 'a' <= c <= 'f' || 'A' <= c <= 'F'
  }

  function HexValue(c: char): (d: nat)
    requires IsHex(c)
    ensures d < 16
  {
    if '0' <= c <= '9' then c as int - '0' as int
    else if 'a' <= c <= 'f' then c as int - 'a' as int + 10
    else c as int - 'A' as int + 10
  }

  function ToHex(bytes: seq<Byte>, upper: bool): (s: string)
    ensures |s| == 2 * |bytes| && forall i :: 0 <= i < |s| ==> IsHex(s[i])
  {
    if bytes == [] then ""
    else [HexChar(bytes[0] / 16, upper), HexChar(bytes[0] % 16, upper)] + ToHex(bytes[1..], upper)
  }

  /** Reading stops before a character that is left over. */
  function FromHex(s: string): seq<Byte>
    requires forall i :: 0 <= i < |s| ==> IsHex(s[i])
  {
    if |s| < 2 then [] else [16 * HexValue(s[0]) + HexValue(s[1])] + FromHex(s[2..])
  }

  lemma HexDigitsRead(d: nat, upper: bool)
    requires d < 16
    ensures IsHex(HexChar(d, upper)) && HexValue(HexChar(d, upper)) == d
  {}

  lemma {:induction false} HexRoundTrip(bytes: seq<Byte>, upper: bool)
    ensures FromHex(ToHex(bytes, upper)) == bytes
  {
    if bytes != [] {
      var b := bytes[0];
      HexDigitsRead(b / 16, upper);
      HexDigitsRead(b % 16, upper);
      HexRoundTrip(bytes[1..], upper);
      assert ToHex(bytes, upper)[2..] == ToHex(bytes[1..], upper);
    }
  }

  // ----- Base64 -----

  /** The character of a group of six bits; the two alphabets differ in the last two. */
  function SextetChar(n: Sextet, url: bool): char
  {
    if n < 26 then ('A' as int + n) as char
    else if n < 52 then ('a' as int + n - 26) as char
    else if n < 62 then ('0' as int + n - 52) as char
    else if n == 62 then (if url then '-' else '+')
    else if url then '_' else '/'
  }

  /** The six bits of a character of either alphabet. */
  function SextetOf(c: char): Option<Sextet>
  {
    if 'A' <= c <= 'Z' then Some(c as int - 'A' as int)
    else if 'a' <= c <= 'z' then Some(c as int - 'a' as int + 26)
    else if '0' <= c <= '9' then Some(c as int - '0' as int + 52)
    else if c == '+' || c == '-' then Some(62)
    else if c == '/' || c == '_' then Some(63)
    else None
  }

  lemma SextetsRead(n: Sextet, url: bool)
    ensures SextetOf(SextetChar(n, url)) == Some(n)
  {}

  /** The four groups of three bytes; a missing byte counts as zero. */
  function Group0(a: Byte): Sextet { a / 4 }
  function Group1(a: Byte, b: Byte): Sextet { a % 4 * 16 + b / 16 }
  function Group2(b: Byte, c: Byte): Sextet { b % 16 * 4 + c / 64 }
  function Group3(c: Byte): Sextet { c % 64 }

  function Sextets(bytes: seq<Byte>): seq<Sextet>
  {
    if bytes == [] then []
    else if |bytes| == 1 then [Group0(bytes[0]), Group1(bytes[0], 0)]
    else if |bytes| == 2 then [Group0(bytes[0]), Group1(bytes[0], bytes[1]), Group2(bytes[1], 0)]
    else
      [Group0(bytes[0]), Group1(bytes[0], bytes[1]), Group2(bytes[1], bytes[2]), Group3(bytes[2])]
      + Sextets(bytes[3..])
  }

  /** The three bytes of four groups. */
  function Byte0(p: Sextet, q: Sextet): Byte { p * 4 + q / 16 }
  function Byte1(q: Sextet, r: Sextet): Byte { q % 16 * 16 + r / 4 }
  function Byte2(r: Sextet, t: Sextet): Byte { r % 4 * 64 + t }

  /** A single group that is left over stands for no byte. */
  function Octets(s: seq<Sextet>): seq<Byte>
  {
    if |s| < 2 then []
    else if |s| == 2 then [Byte0(s[0], s[1])]
    else if |s| == 3 then [Byte0(s[0], s[1]), Byte1(s[1], s[2])]
    else [Byte0(s[0], s[1]), Byte1(s[1], s[2]), Byte2(s[2], s[3])] + Octets(s[4..])
  }

  lemma BytesOfGroups(a: Byte, b: Byte, c: Byte)
    ensures Byte0(Group0(a), Group1(a, b)) == a
    ensures Byte1(Group1(a, b), Group2(b, c)) == b
    ensures Byte2(Group2(b, c), Group3(c)) == c
  {}

  lemma OctetsOfFour(p: Sextet, q: Sextet, r: Sextet, t: Sextet, rest: seq<Sextet>)
    ensures Octets([p, q, r, t] + rest) == [Byte0(p, q), Byte1(q, r), Byte2(r, t)] + Octets(rest)
  {}

  lemma SextetsOfThree(a: Byte, b: Byte, c: Byte, rest: seq<Byte>)
    ensures Sextets([a, b, c] + rest) == [Group0(a), Group1(a, b), Group2(b, c), Group3(c)] + Sextets(rest)
  {}

  lemma OctetsOfTwo(a: Byte, b: Byte)
    ensures Octets(Sextets([a, b])) == [a, b]
  {
    BytesOfGroups(a, b, 0);
    hide Byte0, Byte1, Group0, Group1, Group2;
    assert Sextets([a, b]) == [Group0(a), Group1(a, b), Group2(b, 0)];
  }

  lemma OctetsOfOne(a: Byte)
    ensures Octets(Sextets([a])) == [a]
  {}

  lemma {:induction false} OctetsOfSextets(bytes: seq<Byte>)
    ensures Octets(Sextets(bytes)) == bytes
  {
    if |bytes| >= 3 {
      var a, b, c := bytes[0], bytes[1], bytes[2];
      assert bytes == [a, b, c] + bytes[3..];
      BytesOfGroups(a, b, c);
      OctetsOfSextets(bytes[3..]);
      hide Octets, Sextets, Byte0, Byte1, Byte2, Group0, Group1, Group2, Group3;
      SextetsOfThree(a, b, c, bytes[3..]);
      OctetsOfFour(Group0(a), Group1(a, b), Group2(b, c), Group3(c), Sextets(bytes[3..]));
    } else if |bytes| == 2 {
      OctetsOfTwo(bytes[0], bytes[1]);
      assert bytes == [bytes[0], bytes[1]];
    } else if |bytes| == 1 {
      OctetsOfOne(bytes[0]);
      assert bytes == [bytes[0]];
    }
  }

  function Chars(sextets: seq<Sextet>, url: bool): (s: string)
    ensures |s| == |sextets| && forall i :: 0 <= i < |s| ==> s[i] == SextetChar(sextets[i], url)
  {
    seq(|sextets|, i requires 0 <= i < |sextets| => SextetChar(sextets[i], url))
  }

  /** Base64 without padding. */
  function ToBase64Bare(bytes: seq<Byte>, url: bool): string
  {
    Chars(Sextets(bytes), url)
  }

  function Padding(n: nat): string
  {
    if n % 3 == 1 then "==" else if n % 3 == 2 then "=" else ""
  }

  function ToBase64(bytes: seq<Byte>): string
  {
    ToBase64Bare(bytes, false) + Padding(|bytes|)
  }

  /** The groups of a text; characters of neither alphabet are passed over. */
  function Groups(s: string): seq<Sextet>
  {
    if s == "" then []
    else match SextetOf(s[0]) case Some(n) => [n] + Groups(s[1..]) case None => Groups(s[1..])
  }

  function FromBase64(s: string): seq<Byte>
  {
    Octets(Groups(s))
  }

  lemma {:induction false} GroupsOfChars(sextets: seq<Sextet>, url: bool, pad: string)
    requires forall i :: 0 <= i < |pad| ==> pad[i] == '='
    ensures Groups(Chars(sextets, url) + pad) == sextets
    decreases |sextets| + |pad|
  {
    var s := Chars(sextets, url) + pad;
    assert SextetOf('=') == None;
    if sextets != [] {
      SextetsRead(sextets[0], url);
      hide SextetOf, SextetChar;
      assert s[1..] == Chars(sextets[1..], url) + pad;
      GroupsOfChars(sextets[1..], url, pad);
    } else if pad != "" {
      assert s == pad && s[1..] == Chars([], url) + pad[1..];
      GroupsOfChars([], url, pad[1..]);
    }
  }

  /** Either alphabet, with or without padding, reads back. */
  lemma Base64RoundTrip(bytes: seq<Byte>, url: bool)
    ensures FromBase64(ToBase64(bytes)) == bytes
    ensures FromBase64(ToBase64Bare(bytes, url)) == bytes
  {
    GroupsOfChars(Sextets(bytes), false, Padding(|bytes|));
    GroupsOfChars(Sextets(bytes), url, "");
    assert Chars(Sextets(bytes), url) + "" == ToBase64Bare(bytes, url);
    OctetsOfSextets(bytes);
  }

  lemma {:induction false} GroupsOfBoth(s: string, t: string)
    ensures Groups(s + t) == Groups(s) + Groups(t)
  {
    if s == "" {
      assert s + t == t;
    } else {
      assert (s + t)[1..] == s[1..] + t;
      GroupsOfBoth(s[1..], t);
    }
  }

  /** A letter, a digit, or a sign of the alphabets of sections 4 and 5 of RFC 4648. */
  predicate InAlphabet(c: char)
  {
    'A' <= c <= 'Z' || 'a' <= c <= 'z' || '0' <= c <= '9' || c in "+-/_"
  }

  lemma {:induction false} JunkHasNoGroups(junk: string)
    requires forall i :: 0 <= i < |junk| ==> !InAlphabet(junk[i])
    ensures Groups(junk) == []
  {
    if junk != "" {
      JunkHasNoGroups(junk[1..]);
    }
  }

  /** Characters of neither alphabet are passed over. */
  lemma JunkIsPassedOver(s: string, junk: string, t: string)
    requires forall i :: 0 <= i < |junk| ==> !InAlphabet(junk[i])
    ensures FromBase64(s + junk + t) == FromBase64(s + t)
  {
    JunkHasNoGroups(junk);
    GroupsOfBoth(s + junk, t);
    GroupsOfBoth(s, junk);
    GroupsOfBoth(s, t);
    hide Groups;
    assert Groups(s) + [] == Groups(s);
  }

  /** Section 10 of RFC 4648: "foob" and "fooba" in base64 and "foo" in hexadecimal; and the last two signs. */
  lemma KnownTexts()
    ensures ToBase64([0x66, 0x6F, 0x6F, 0x62]) == "Zm9vYg=="
    ensures ToBase64([0x66, 0x6F, 0x6F, 0x62, 0x61]) == "Zm9vYmE="
    ensures ToBase64([0xFB, 0xFF, 0xBF]) == "+/+/" && ToBase64Bare([0xFB, 0xFF, 0xBF], true) == "-_-_"
    ensures ToHex([0x66, 0x6F, 0x6F], true) == "666F6F" && ToHex([0x66, 0x6F, 0x6F], false) == "666f6f"
  {
    assert Sextets([0x66, 0x6F, 0x6F] + [0x62]) == [25, 38, 61, 47] + Sextets([0x62]);
    assert Sextets([0x66, 0x6F, 0x6F] + [0x62, 0x61]) == [25, 38, 61, 47] + Sextets([0x62, 0x61]);
    assert [0x66, 0x6F, 0x6F] + [0x62] == [0x66, 0x6F, 0x6F, 0x62];
    assert [0x66, 0x6F, 0x6F] + [0x62, 0x61] == [0x66, 0x6F, 0x6F, 0x62, 0x61];
  }
}
