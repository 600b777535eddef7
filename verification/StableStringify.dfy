/**
  The canonical text of a JSON value that route cache keys are hashed from.  Objects keep the
  order their entries were inserted in; the text sorts them by a collation of their keys.

  The text is shown to say exactly what the value means: two values have one text if and only
  if they are the same up to the order of object entries.
  */
module StableStringify {

  datatype Entry<T> = Entry(key: string, value: T)

  /** Numbers are represented by the text the language prints for them. */
  datatype Json =
    | Undefined
    | Null
    | Bool(b: bool)
    | Num(text: string)
    | Str(s: string)
    | Arr(items: seq<Json>)
    | Obj(entries: seq<Entry<Json>>)

  /** "At or before" in the collation that compares keys. */
  type Collation = (string, string) -> bool

  // ----- The text -----

  function HexDigit(d: nat): char
    requires d < 16
  {
    "0123456789abcdef"[d]
  }

  /** One character inside a quoted string. */
  function Escape(c: char): string
  {
    if c == '\"' then "\\\""
    else if c == '\\' then "\\\\"
    else if c as int == 8 then "\\b"
    else if c as int == 9 then "\\t"
    else if c as int == 10 then "\\n"
    else if c as int == 12 then "\\f"
    else if c as int == 13 then "\\r"
    else if c as int < 32 then "\\u00" + [HexDigit(c as int / 16), HexDigit(c as int % 16)]
    else [c]
  }

  function EscapeAll(s: string): string
  {
    if s == [] then [] else Escape(s[0]) + EscapeAll(s[1..])
  }

  function Insert<T>(le: Collation, e: Entry<T>, s: seq<Entry<T>>): seq<Entry<T>>
  {
    if s == [] || le(e.key, s[0].key) then [e] + s else [s[0]] + Insert(le, e, s[1..])
  }

  /** The stable sort of entries by key. */
  function Sort<T>(le: Collation, s: seq<Entry<T>>): seq<Entry<T>>
  {
    if s == [] then [] else Insert(le, s[0], Sort(le, s[1..]))
  }

  function Stringify(le: Collation, x: Json): string
    decreases x, 1
  {
    match x
    case Undefined => "undefined"
    case Null => "null"
    case Bool(b) => if b then "true" else "false"
    case Num(text) => text
    case Str(s) => "\"" + EscapeAll(s) + "\""
    case Arr(items) => "[" + Join(ItemTexts(le, items)) + "]"
    case Obj(entries) => "{" + Join(Quoted(Sort(le, EntryTexts(le, entries)))) + "}"
  }

  /** The texts of array items; an undefined item leaves an empty place. */
  function ItemTexts(le: Collation, items: seq<Json>): seq<string>
    decreases items, 0
  {
    if items == [] then []
    else [if items[0].Undefined? then "" else Stringify(le, items[0])] + ItemTexts(le, items[1..])
  }

  function EntryTexts(le: Collation, entries: seq<Entry<Json>>): (r: seq<Entry<string>>)
    ensures |r| == |entries|
    ensures forall i :: 0 <= i < |r| ==> r[i].key == entries[i].key
    decreases entries, 0
  {
    if entries == [] then []
    else [Entry(entries[0].key, Stringify(le, entries[0].value))] + EntryTexts(le, entries[1..])
  }

  function Quoted(entries: seq<Entry<string>>): seq<string>
  {
    if entries == [] then [] else ["\"" + entries[0].key + "\":" + entries[0].value] + Quoted(entries[1..])
  }

  function Join(texts: seq<string>): string
  {
    if texts == [] then "" else texts[0] + Tail(texts[1..])
  }

  /** The texts after the first, each with the comma before it. */
  function Tail(texts: seq<string>): string
  {
    if texts == [] then "" else "," + texts[0] + Tail(texts[1..])
  }

  // ----- What a value means -----

  /** A value without the insertion order of its objects. */
  datatype Tree =
    | TUndefined
    | TNull
    | TBool(b: bool)
    | TNum(text: string)
    | TStr(s: string)
    | TArr(items: seq<Tree>)
    | TObj(fields: map<string, Tree>)

  function Meaning(x: Json): Tree
    decreases x, 1
  {
    match x
    case Undefined => TUndefined
    case Null => TNull
    case Bool(b) => TBool(b)
    case Num(text) => TNum(text)
    case Str(s) => TStr(s)
    case Arr(items) => TArr(Meanings(items))
    case Obj(entries) => TObj(Fields(entries))
  }

  function Meanings(items: seq<Json>): (r: seq<Tree>)
    ensures |r| == |items|
    decreases items, 0
  {
    if items == [] then [] else [Meaning(items[0])] + Meanings(items[1..])
  }

  function Fields(entries: seq<Entry<Json>>): map<string, Tree>
    decreases entries, 0
  {
    if entries == [] then map[] else Fields(entries[1..])[entries[0].key := Meaning(entries[0].value)]
  }

  // ----- Values the results are about -----

  predicate NumeralChar(c: char)
  {
    '0' <= c <= '9' || c == '-' || c == '+' || c == '.' || c == 'e'
  }

  /** The text of a finite number. */
  predicate Numeral(s: string)
  {
    s != [] && ('0' <= s[0] <= '9' || s[0] == '-') && forall i :: 0 <= i < |s| ==> NumeralChar(s[i])
  }

  /** The escapes of section 7 of RFC 8259, applied in the order of the text, and numbers as they print. */
  lemma KnownTexts(c: char, rest: string)
    ensures EscapeAll([c] + rest) == Escape(c) + EscapeAll(rest)
    ensures Escape(8 as char) == "\\b" && Escape(9 as char) == "\\t" && Escape(10 as char) == "\\n"
    ensures Escape(12 as char) == "\\f" && Escape(13 as char) == "\\r" && Escape(31 as char) == "\\u001f"
    ensures Escape('\"') == "\\\"" && Escape('\\') == "\\\\" && Escape(' ') == " "
    ensures Numeral("-1.5e+21") && Numeral("1e-7") && !Numeral("NaN") && !Numeral("Infinity")
  {
    assert ([c] + rest)[1..] == rest;
  }

  ghost predicate DistinctKeys<T>(s: seq<Entry<T>>)
  {
    forall i, j :: 0 <= i < j < |s| ==> s[i].key != s[j].key
  }

  /**
    Finite numbers, no undefined array items, and objects whose keys are distinct, contain no
    quote and belong to `keys`.
    */
  ghost predicate WellFormed(x: Json, keys: set<string>)
    decreases x
  {
    match x
    case Num(text) => Numeral(text)
    case Arr(items) => forall i :: 0 <= i < |items| ==> !items[i].Undefined? && WellFormed(items[i], keys)
    case Obj(entries) =>
      && DistinctKeys(entries)
      && (forall i :: 0 <= i < |entries| ==>
            entries[i].key in keys && '\"' !in entries[i].key && WellFormed(entries[i].value, keys))
    case _ => true
  }

  /** The collation is a total order on these keys: no two of them tie. */
  ghost predicate Orders(le: Collation, keys: set<string>)
  {
    && (forall k, l :: k in keys && l in keys ==> le(k, l) || le(l, k))
    && (forall k, l :: k in keys && l in keys && le(k, l) && le(l, k) ==> k == l)
    && (forall k, l, m :: k in keys && l in keys && m in keys && le(k, l) && le(l, m) ==> le(k, m))
  }

  // ----- A collation without ties -----

  /** The order of code units. */
  predicate CodeUnits(k: string, l: string)
  {
    k == "" || (l != "" && (k[0] < l[0] || (k[0] == l[0] && CodeUnits(k[1..], l[1..]))))
  }

  lemma {:induction false} CodeUnitsDecide(k: string, l: string)
    ensures CodeUnits(k, l) || CodeUnits(l, k)
    ensures CodeUnits(k, l) && CodeUnits(l, k) ==> k == l
  {
    if k != "" && l != "" {
      CodeUnitsDecide(k[1..], l[1..]);
      assert k == [k[0]] + k[1..] && l == [l[0]] + l[1..];
    }
  }

  lemma {:induction false} CodeUnitsAreTransitive(k: string, l: string, m: string)
    requires CodeUnits(k, l) && CodeUnits(l, m)
    ensures CodeUnits(k, m)
  {
    if k != "" && k[0] == l[0] == m[0] {
      CodeUnitsAreTransitive(k[1..], l[1..], m[1..]);
    }
  }

  /** Some collation is a total order on every set of keys. */
  lemma CodeUnitsOrder(keys: set<string>)
    ensures Orders(CodeUnits, keys)
  {
    forall k, l
      ensures CodeUnits(k, l) || CodeUnits(l, k)
      ensures CodeUnits(k, l) && CodeUnits(l, k) ==> k == l
    {
      CodeUnitsDecide(k, l);
    }
    forall k, l, m | CodeUnits(k, l) && CodeUnits(l, m)
      ensures CodeUnits(k, m)
    {
      CodeUnitsAreTransitive(k, l, m);
    }
  }
}
