/**
  Why the canonical text identifies a value: sorting and printing are taken apart, printing is
  shown to be injective, and sorted entries to be determined by what they map.
  */
module CanonicalText {
  import opened StableStringify

  // ----- Sorting first, printing second -----

  /** The value with every object's entries sorted. */
  function Canon(le: Collation, x: Json): Json
    decreases x, 1
  {
    match x
    case Arr(items) => Arr(CanonItems(le, items))
    case Obj(entries) => Obj(Sort(le, CanonValues(le, entries)))
    case _ => x
  }

  function CanonItems(le: Collation, items: seq<Json>): (r: seq<Json>)
    ensures |r| == |items|
    ensures forall i :: 0 <= i < |items| ==> r[i] == Canon(le, items[i])
    decreases items, 0
  {
    if items == [] then [] else [Canon(le, items[0])] + CanonItems(le, items[1..])
  }

  function CanonValues(le: Collation, entries: seq<Entry<Json>>): (r: seq<Entry<Json>>)
    ensures |r| == |entries|
    ensures forall i :: 0 <= i < |entries| ==> r[i] == Entry(entries[i].key, Canon(le, entries[i].value))
    decreases entries, 0
  {
    if entries == [] then []
    else [Entry(entries[0].key, Canon(le, entries[0].value))] + CanonValues(le, entries[1..])
  }

  function Print(x: Json): string
    decreases x, 1
  {
    match x
    case Undefined => "undefined"
    case Null => "null"
    case Bool(b) => if b then "true" else "false"
    case Num(text) => text
    case Str(s) => "\"" + EscapeAll(s) + "\""
    case Arr(items) => "[" + Join(PrintItems(items)) + "]"
    case Obj(entries) => "{" + Join(PrintEntries(entries)) + "}"
  }

  function PrintItems(items: seq<Json>): (r: seq<string>)
    ensures |r| == |items|
    decreases items, 0
  {
    if items == [] then [] else [Print(items[0])] + PrintItems(items[1..])
  }

  function PrintEntries(entries: seq<Entry<Json>>): (r: seq<string>)
    ensures |r| == |entries|
    decreases entries, 0
  {
    if entries == [] then []
    else ["\"" + entries[0].key + "\":" + Print(entries[0].value)] + PrintEntries(entries[1..])
  }

  function MapValues<A, B>(f: A -> B, s: seq<Entry<A>>): seq<Entry<B>>
  {
    if s == [] then [] else [Entry(s[0].key, f(s[0].value))] + MapValues(f, s[1..])
  }

  lemma {:induction false} MapInsert<A, B>(le: Collation, f: A -> B, e: Entry<A>, s: seq<Entry<A>>)
    ensures MapValues(f, Insert(le, e, s)) == Insert(le, Entry(e.key, f(e.value)), MapValues(f, s))
  {
    var image := MapValues(f, s);
    if s == [] || le(e.key, s[0].key) {
      assert ([e] + s)[1..] == s;
    } else {
      MapInsert(le, f, e, s[1..]);
      assert image[1..] == MapValues(f, s[1..]);
      assert Insert(le, e, s)[1..] == Insert(le, e, s[1..]);
    }
  }

  /** Sorting looks at keys only. */
  lemma {:induction false} MapSort<A, B>(le: Collation, f: A -> B, s: seq<Entry<A>>)
    ensures MapValues(f, Sort(le, s)) == Sort(le, MapValues(f, s))
  {
    if s != [] {
      MapSort(le, f, s[1..]);
      MapInsert(le, f, s[0], Sort(le, s[1..]));
      assert MapValues(f, s)[1..] == MapValues(f, s[1..]);
    }
  }

  lemma {:induction false} PrintIsQuoted(entries: seq<Entry<Json>>)
    ensures PrintEntries(entries) == Quoted(MapValues(Print, entries))
  {
    if entries != [] {
      PrintIsQuoted(entries[1..]);
      assert MapValues(Print, entries)[1..] == MapValues(Print, entries[1..]);
    }
  }

  /** The text of a value is the print of its canonical form. */
  lemma {:induction false} StringifyIsPrint(le: Collation, x: Json, keys: set<string>)
    requires WellFormed(x, keys)
    ensures Stringify(le, x) == Print(Canon(le, x))
    decreases x, 1
  {
    match x
    case Arr(items) =>
      ItemsArePrinted(le, items, keys);
    case Obj(entries) =>
      EntriesArePrinted(le, entries, keys);
      MapSort(le, Print, CanonValues(le, entries));
      PrintIsQuoted(Sort(le, CanonValues(le, entries)));
    case _ =>
  }

  lemma {:induction false} ItemsArePrinted(le: Collation, items: seq<Json>, keys: set<string>)
    requires forall i :: 0 <= i < |items| ==> !items[i].Undefined? && WellFormed(items[i], keys)
    ensures ItemTexts(le, items) == PrintItems(CanonItems(le, items))
    decreases items, 0
  {
    if items != [] {
      StringifyIsPrint(le, items[0], keys);
      ItemsArePrinted(le, items[1..], keys);
      assert CanonItems(le, items)[1..] == CanonItems(le, items[1..]);
    }
  }

  lemma {:induction false} EntriesArePrinted(le: Collation, entries: seq<Entry<Json>>, keys: set<string>)
    requires forall i :: 0 <= i < |entries| ==> WellFormed(entries[i].value, keys)
    ensures EntryTexts(le, entries) == MapValues(Print, CanonValues(le, entries))
    decreases entries, 0
  {
    if entries != [] {
      StringifyIsPrint(le, entries[0].value, keys);
      EntriesArePrinted(le, entries[1..], keys);
      assert CanonValues(le, entries)[1..] == CanonValues(le, entries[1..]);
    }
  }

  // ----- Printing is injective -----

  /** What can follow a value inside a text: nothing, a comma or a closing bracket. */
  predicate Ends(s: string)
  {
    s == "" || s[0] == ',' || s[0] == ']' || s[0] == '}'
  }

  /** Values that print unambiguously; unlike `WellFormed`, entries may come in any order. */
  ghost predicate Printable(x: Json)
    decreases x
  {
    match x
    case Num(text) => Numeral(text)
    case Arr(items) => forall i :: 0 <= i < |items| ==> Printable(items[i])
    case Obj(entries) => forall i :: 0 <= i < |entries| ==> '\"' !in entries[i].key && Printable(entries[i].value)
    case _ => true
  }

  /** Two texts that both run up to the first stop character are one text. */
  lemma {:induction false} UpToStop(a: string, b: string, s: string, t: string, stop: set<char>)
    requires forall i :: 0 <= i < |a| ==> a[i] !in stop
    requires forall i :: 0 <= i < |b| ==> b[i] !in stop
    requires (s == "" || s[0] in stop) && (t == "" || t[0] in stop)
    requires a + s == b + t
    ensures a == b && s == t
  {
    var v, w := a + s, b + t;
    assert (a == "" ==> v == s) && (b == "" ==> w == t);
    assert v != "" ==> v[0] == if a == "" then s[0] else a[0];
    assert w != "" ==> w[0] == if b == "" then t[0] else b[0];
    if a != "" && b != "" {
      assert v[1..] == a[1..] + s && w[1..] == b[1..] + t;
      UpToStop(a[1..], b[1..], s, t, stop);
    }
  }

  /** Each character's escape can be told apart, whatever follows. */
  lemma EscapesEnd(c: char, d: char, s: string, t: string)
    requires Escape(c) + s == Escape(d) + t
    ensures c == d && s == t
  {
    var w := Escape(c) + s;
    assert w[0] == Escape(c)[0] && w[0] == Escape(d)[0];
    if Escape(c)[0] == '\\' {
      assert w[1] == Escape(c)[1] && w[1] == Escape(d)[1];
      if Escape(c)[1] == 'u' {
        assert w[4] == Escape(c)[4] && w[4] == Escape(d)[4];
        assert w[5] == Escape(c)[5] && w[5] == Escape(d)[5];
        HexDigitsDiffer(c as int / 16, d as int / 16);
        HexDigitsDiffer(c as int % 16, d as int % 16);
      }
    }
    assert c == d;
    assert s == w[|Escape(c)|..] && t == w[|Escape(d)|..];
  }

  lemma HexDigitsDiffer(d: nat, e: nat)
    requires d < 16 && e < 16
    ensures HexDigit(d) == HexDigit(e) ==> d == e
  {}

  lemma QuotedStarts(a: string, s: string)
    ensures (EscapeAll(a) + "\"" + s)[0] == if a == "" then '\"' else Escape(a[0])[0]
    ensures a != "" ==> EscapeAll(a) + "\"" + s == Escape(a[0]) + (EscapeAll(a[1..]) + "\"" + s)
    ensures a == "" ==> EscapeAll(a) + "\"" + s == "\"" + s
  {
    if a != "" {
      EscapeIsNotEmpty(a[0]);
      hide Escape;
      StartsWithFirst(Escape(a[0]), EscapeAll(a[1..]), "\"", s);
    }
  }

  lemma StartsWithFirst(x: string, y: string, z: string, s: string)
    requires x != ""
    ensures x + y + z + s == x + (y + z + s) && (x + y + z + s)[0] == x[0]
  {}

  lemma EscapeIsNotEmpty(c: char)
    ensures Escape(c) != ""
  {}

  lemma {:induction false} StringsEnd(a: string, b: string, s: string, t: string)
    requires EscapeAll(a) + "\"" + s == EscapeAll(b) + "\"" + t
    ensures a == b && s == t
  {
    QuotedStarts(a, s);
    QuotedStarts(b, t);
    assert a == "" <==> b == "";
    if a != "" {
      EscapesEnd(a[0], b[0], EscapeAll(a[1..]) + "\"" + s, EscapeAll(b[1..]) + "\"" + t);
      StringsEnd(a[1..], b[1..], s, t);
    } else {
      assert ("\"" + s)[1..] == s && ("\"" + t)[1..] == t;
    }
  }

  /** A key up to the quote behind it. */
  lemma KeysEnd(a: string, b: string, s: string, t: string)
    requires '\"' !in a && '\"' !in b && a + ("\"" + s) == b + ("\"" + t)
    ensures a == b && s == t
  {
    UpToStop(a, b, "\"" + s, "\"" + t, {'\"'});
    assert ("\"" + s)[1..] == s && ("\"" + t)[1..] == t;
  }

  lemma NumeralsEnd(a: string, b: string, s: string, t: string)
    requires Numeral(a) && Numeral(b) && Ends(s) && Ends(t) && a + s == b + t
    ensures a == b && s == t
  {
    UpToStop(a, b, s, t, {',', ']', '}'});
  }

  /** Equal texts that begin with one text go on with one text. */
  lemma DropPrefix(open: string, s: string, t: string)
    requires open + s == open + t
    ensures s == t
  {
    assert (open + s)[|open|..] == s && (open + t)[|open|..] == t;
  }

  /** The first character of a print tells the kind of value. */
  lemma PrintStarts(x: Json, s: string)
    requires Printable(x)
    ensures Print(x) != "" && (Print(x) + s)[0] == Print(x)[0]
    ensures x.Undefined? <==> Print(x)[0] == 'u'
    ensures x.Null? <==> Print(x)[0] == 'n'
    ensures x.Bool? <==> Print(x)[0] == 't' || Print(x)[0] == 'f'
    ensures x.Bool? ==> (x.b <==> Print(x)[0] == 't')
    ensures x.Num? <==> '0' <= Print(x)[0] <= '9' || Print(x)[0] == '-'
    ensures x.Str? <==> Print(x)[0] == '\"'
    ensures x.Arr? <==> Print(x)[0] == '['
    ensures x.Obj? <==> Print(x)[0] == '{'
    ensures Print(x)[0] != ']' && Print(x)[0] != '}' && Print(x)[0] != ','
  {}

  /** Prints without parts. */
  lemma ConstantsEnd(x: Json, y: Json, s: string, t: string)
    requires x.Undefined? || x.Null? || x.Bool?
    requires Printable(y) && Print(x) + s == Print(y) + t
    ensures x == y && s == t
  {
    PrintStarts(x, s);
    PrintStarts(y, t);
    var w := Print(x) + s;
    assert Print(x) == Print(y);
    assert s == w[|Print(x)|..] && t == w[|Print(y)|..];
  }

  /** A print with parts, opened up. */
  lemma PrintOpens(x: Json, s: string)
    ensures x.Str? ==> Print(x) + s == "\"" + (EscapeAll(x.s) + "\"" + s)
    ensures x.Arr? ==> Print(x) + s == "[" + (Join(PrintItems(x.items)) + ("]" + s))
    ensures x.Obj? ==> Print(x) + s == "{" + (Join(PrintEntries(x.entries)) + ("}" + s))
  {}

  /** A printed value, followed by what may follow a value, can be read in one way only. */
  lemma {:induction false} PrintsEnd(x: Json, y: Json, s: string, t: string)
    requires Printable(x) && Printable(y) && Ends(s) && Ends(t)
    requires Print(x) + s == Print(y) + t
    ensures x == y && s == t
    decreases x, 1
  {
    hide Join, PrintItems, PrintEntries, EscapeAll;
    PrintStarts(x, s);
    PrintStarts(y, t);
    PrintOpens(x, s);
    PrintOpens(y, t);
    match x
    case Num(a) =>
      NumeralsEnd(a, y.text, s, t);
    case Str(a) =>
      DropPrefix("\"", EscapeAll(a) + "\"" + s, EscapeAll(y.s) + "\"" + t);
      StringsEnd(a, y.s, s, t);
    case Arr(items) =>
      DropPrefix("[", Join(PrintItems(items)) + ("]" + s), Join(PrintItems(y.items)) + ("]" + t));
      ArraysEnd(items, y.items, s, t);
    case Obj(entries) =>
      DropPrefix("{", Join(PrintEntries(entries)) + ("}" + s), Join(PrintEntries(y.entries)) + ("}" + t));
      ObjectsEnd(entries, y.entries, s, t);
    case _ =>
      ConstantsEnd(x, y, s, t);
  }

  lemma JoinStarts(items: seq<Json>, s: string)
    requires items != [] ==> Printable(items[0])
    ensures var w := Join(PrintItems(items)) + ("]" + s);
            if items == [] then w == "]" + s
            else w == Print(items[0]) + (Tail(PrintItems(items[1..])) + ("]" + s)) && w[0] != ']'
  {}

  lemma Regroup(a: string, b: string, c: string, d: string)
    ensures a + b + c + d == a + (b + (c + d))
  {}

  lemma TailStarts(items: seq<Json>, s: string)
    ensures var w := Tail(PrintItems(items)) + ("]" + s);
            w[0] == (if items == [] then ']' else ',') &&
            if items == [] then w == "]" + s
            else w == "," + (Print(items[0]) + (Tail(PrintItems(items[1..])) + ("]" + s)))
  {
    hide Print;
    if items != [] {
      Regroup(",", Print(items[0]), Tail(PrintItems(items[1..])), "]" + s);
    }
  }

  lemma {:induction false} ArraysEnd(xs: seq<Json>, ys: seq<Json>, s: string, t: string)
    requires forall i :: 0 <= i < |xs| ==> Printable(xs[i])
    requires forall i :: 0 <= i < |ys| ==> Printable(ys[i])
    requires Join(PrintItems(xs)) + ("]" + s) == Join(PrintItems(ys)) + ("]" + t)
    ensures xs == ys && s == t
    decreases xs, 0
  {
    hide Print, Join, Tail, PrintItems;
    JoinStarts(xs, s);
    JoinStarts(ys, t);
    assert xs == [] <==> ys == [];
    if xs != [] {
      TailStarts(xs[1..], s);
      TailStarts(ys[1..], t);
      PrintsEnd(xs[0], ys[0], Tail(PrintItems(xs[1..])) + ("]" + s), Tail(PrintItems(ys[1..])) + ("]" + t));
      ItemTailsEnd(xs[1..], ys[1..], s, t);
    } else {
      assert ("]" + s)[1..] == s && ("]" + t)[1..] == t;
    }
  }

  lemma {:induction false} ItemTailsEnd(xs: seq<Json>, ys: seq<Json>, s: string, t: string)
    requires forall i :: 0 <= i < |xs| ==> Printable(xs[i])
    requires forall i :: 0 <= i < |ys| ==> Printable(ys[i])
    requires Tail(PrintItems(xs)) + ("]" + s) == Tail(PrintItems(ys)) + ("]" + t)
    ensures xs == ys && s == t
    decreases xs, 0
  {
    hide Print, Tail, PrintItems;
    TailStarts(xs, s);
    TailStarts(ys, t);
    assert xs == [] <==> ys == [];
    if xs != [] {
      var p, q := Tail(PrintItems(xs[1..])) + ("]" + s), Tail(PrintItems(ys[1..])) + ("]" + t);
      TailStarts(xs[1..], s);
      TailStarts(ys[1..], t);
      DropPrefix(",", Print(xs[0]) + p, Print(ys[0]) + q);
      PrintsEnd(xs[0], ys[0], p, q);
      ItemTailsEnd(xs[1..], ys[1..], s, t);
    } else {
      assert ("]" + s)[1..] == s && ("]" + t)[1..] == t;
    }
  }

  function EntryText(e: Entry<Json>): string
  {
    "\"" + e.key + "\":" + Print(e.value)
  }

  /** One printed entry, up to the end of its value. */
  lemma {:induction false} EntriesEnd(e: Entry<Json>, f: Entry<Json>, s: string, t: string)
    requires '\"' !in e.key && '\"' !in f.key && Printable(e.value) && Printable(f.value) && Ends(s) && Ends(t)
    requires EntryText(e) + s == EntryText(f) + t
    ensures e == f && s == t
    decreases e, 2
  {
    hide Print;
    var p, q := ":" + (Print(e.value) + s), ":" + (Print(f.value) + t);
    assert EntryText(e) + s == "\"" + (e.key + ("\"" + p));
    assert EntryText(f) + t == "\"" + (f.key + ("\"" + q));
    DropPrefix("\"", e.key + ("\"" + p), f.key + ("\"" + q));
    KeysEnd(e.key, f.key, p, q);
    DropPrefix(":", Print(e.value) + s, Print(f.value) + t);
    PrintsEnd(e.value, f.value, s, t);
  }

  lemma EntriesStart(entries: seq<Entry<Json>>, s: string)
    ensures var w := Join(PrintEntries(entries)) + ("}" + s);
            if entries == [] then w == "}" + s
            else w == EntryText(entries[0]) + (Tail(PrintEntries(entries[1..])) + ("}" + s)) && w[0] == '\"'
  {}

  lemma EntryTailStarts(entries: seq<Entry<Json>>, s: string)
    ensures var w := Tail(PrintEntries(entries)) + ("}" + s);
            w[0] == (if entries == [] then '}' else ',') &&
            if entries == [] then w == "}" + s
            else w == "," + (EntryText(entries[0]) + (Tail(PrintEntries(entries[1..])) + ("}" + s)))
  {
    hide Print;
    if entries != [] {
      assert PrintEntries(entries)[0] == EntryText(entries[0]);
      Regroup(",", EntryText(entries[0]), Tail(PrintEntries(entries[1..])), "}" + s);
    }
  }

  lemma {:induction false} ObjectsEnd(xs: seq<Entry<Json>>, ys: seq<Entry<Json>>, s: string, t: string)
    requires forall i :: 0 <= i < |xs| ==> '\"' !in xs[i].key && Printable(xs[i].value)
    requires forall i :: 0 <= i < |ys| ==> '\"' !in ys[i].key && Printable(ys[i].value)
    requires Join(PrintEntries(xs)) + ("}" + s) == Join(PrintEntries(ys)) + ("}" + t)
    ensures xs == ys && s == t
    decreases xs, 0
  {
    hide EntryText, Join, Tail, PrintEntries;
    EntriesStart(xs, s);
    EntriesStart(ys, t);
    assert xs == [] <==> ys == [];
    if xs != [] {
      EntryTailStarts(xs[1..], s);
      EntryTailStarts(ys[1..], t);
      EntriesEnd(xs[0], ys[0], Tail(PrintEntries(xs[1..])) + ("}" + s), Tail(PrintEntries(ys[1..])) + ("}" + t));
      EntryTailsEnd(xs[1..], ys[1..], s, t);
    } else {
      assert ("}" + s)[1..] == s && ("}" + t)[1..] == t;
    }
  }

  lemma {:induction false} EntryTailsEnd(xs: seq<Entry<Json>>, ys: seq<Entry<Json>>, s: string, t: string)
    requires forall i :: 0 <= i < |xs| ==> '\"' !in xs[i].key && Printable(xs[i].value)
    requires forall i :: 0 <= i < |ys| ==> '\"' !in ys[i].key && Printable(ys[i].value)
    requires Tail(PrintEntries(xs)) + ("}" + s) == Tail(PrintEntries(ys)) + ("}" + t)
    ensures xs == ys && s == t
    decreases xs, 0
  {
    hide EntryText, Tail, PrintEntries;
    EntryTailStarts(xs, s);
    EntryTailStarts(ys, t);
    assert xs == [] <==> ys == [];
    if xs != [] {
      var p, q := Tail(PrintEntries(xs[1..])) + ("}" + s), Tail(PrintEntries(ys[1..])) + ("}" + t);
      EntryTailStarts(xs[1..], s);
      EntryTailStarts(ys[1..], t);
      DropPrefix(",", EntryText(xs[0]) + p, EntryText(ys[0]) + q);
      EntriesEnd(xs[0], ys[0], p, q);
      EntryTailsEnd(xs[1..], ys[1..], s, t);
    } else {
      assert ("}" + s)[1..] == s && ("}" + t)[1..] == t;
    }
  }

  // ----- Canonical forms and meanings -----

  lemma {:induction false} InsertMembers<T(!new)>(le: Collation, e: Entry<T>, s: seq<Entry<T>>)
    ensures |Insert(le, e, s)| == |s| + 1
    ensures forall f :: f in Insert(le, e, s) <==> f == e || f in s
  {
    if s != [] && !le(e.key, s[0].key) {
      InsertMembers(le, e, s[1..]);
    }
  }

  lemma {:induction false} SortMembers<T(!new)>(le: Collation, s: seq<Entry<T>>)
    ensures |Sort(le, s)| == |s|
    ensures forall f :: f in Sort(le, s) <==> f in s
  {
    if s != [] {
      SortMembers(le, s[1..]);
      InsertMembers(le, s[0], Sort(le, s[1..]));
    }
  }

  /** Sorted by key, and no key twice. */
  ghost predicate StrictlySorted<T>(le: Collation, s: seq<Entry<T>>)
  {
    forall i, j :: 0 <= i < j < |s| ==> le(s[i].key, s[j].key) && s[i].key != s[j].key
  }

  ghost predicate KeysIn<T>(s: seq<Entry<T>>, keys: set<string>)
  {
    forall i :: 0 <= i < |s| ==> s[i].key in keys
  }

  lemma {:induction false} InsertSorts<T(!new)>(le: Collation, e: Entry<T>, s: seq<Entry<T>>, keys: set<string>)
    requires Orders(le, keys) && StrictlySorted(le, s) && KeysIn(s, keys) && e.key in keys
    requires forall i :: 0 <= i < |s| ==> s[i].key != e.key
    ensures StrictlySorted(le, Insert(le, e, s)) && KeysIn(Insert(le, e, s), keys)
  {
    if s != [] && !le(e.key, s[0].key) {
      InsertSorts(le, e, s[1..], keys);
      var rest := Insert(le, e, s[1..]);
      InsertMembers(le, e, s[1..]);
      assert forall i :: 0 <= i < |rest| ==> rest[i] in rest;
      assert forall i :: 0 <= i < |rest| ==> le(s[0].key, rest[i].key) && s[0].key != rest[i].key;
    }
  }

  lemma {:induction false} SortSorts<T(!new)>(le: Collation, s: seq<Entry<T>>, keys: set<string>)
    requires Orders(le, keys) && DistinctKeys(s) && KeysIn(s, keys)
    ensures StrictlySorted(le, Sort(le, s)) && KeysIn(Sort(le, s), keys)
  {
    if s != [] {
      var rest := Sort(le, s[1..]);
      SortSorts(le, s[1..], keys);
      SortMembers(le, s[1..]);
      assert forall i :: 0 <= i < |rest| ==> rest[i] in rest && rest[i] in s[1..];
      InsertSorts(le, s[0], rest, keys);
    }
  }

  /** Sorted entries without repeated keys are determined by their members. */
  lemma {:induction false} SortedIsUnique<T(!new)>(le: Collation, s: seq<Entry<T>>, t: seq<Entry<T>>, keys: set<string>)
    requires Orders(le, keys) && KeysIn(s, keys) && KeysIn(t, keys)
    requires StrictlySorted(le, s) && StrictlySorted(le, t)
    requires forall e :: e in s <==> e in t
    ensures s == t
  {
    assert (s != [] ==> s[0] in t) && (t != [] ==> t[0] in s);
    if s != [] {
      assert s[0].key == t[0].key by {
        assert le(s[0].key, t[0].key) && le(t[0].key, s[0].key);
      }
      forall e
        ensures e in s[1..] <==> e in t[1..]
      {
        assert e in s[1..] <==> e in s && e.key != s[0].key;
        assert e in t[1..] <==> e in t && e.key != t[0].key;
      }
      SortedIsUnique(le, s[1..], t[1..], keys);
    }
  }

  function KeySet<T>(s: seq<Entry<T>>): set<string>
  {
    if s == [] then {} else {s[0].key} + KeySet(s[1..])
  }

  lemma {:induction false} KeyAt<T>(s: seq<Entry<T>>, i: nat)
    requires i < |s|
    ensures s[i].key in KeySet(s)
  {
    if i > 0 {
      KeyAt(s[1..], i - 1);
    }
  }

  lemma {:induction false} IndexOfKey<T>(s: seq<Entry<T>>, k: string) returns (i: nat)
    requires k in KeySet(s)
    ensures i < |s| && s[i].key == k
  {
    if s[0].key == k {
      i := 0;
    } else {
      i := IndexOfKey(s[1..], k);
      i := i + 1;
    }
  }

  lemma {:induction false} FieldsHaveKeys(entries: seq<Entry<Json>>)
    ensures Fields(entries).Keys == KeySet(entries)
  {
    if entries != [] {
      FieldsHaveKeys(entries[1..]);
    }
  }

  lemma {:induction false} FieldAt(entries: seq<Entry<Json>>, i: nat)
    requires DistinctKeys(entries) && i < |entries|
    ensures entries[i].key in Fields(entries) && Fields(entries)[entries[i].key] == Meaning(entries[i].value)
  {
    if i > 0 {
      assert entries[1..][i - 1] == entries[i];
      FieldAt(entries[1..], i - 1);
    }
  }

  lemma {:induction false} MeaningsAt(items: seq<Json>)
    ensures forall i :: 0 <= i < |items| ==> Meanings(items)[i] == Meaning(items[i])
  {
    if items != [] {
      MeaningsAt(items[1..]);
    }
  }

  lemma CanonIsSorted(le: Collation, entries: seq<Entry<Json>>, keys: set<string>)
    requires Orders(le, keys) && WellFormed(Obj(entries), keys)
    ensures var sorted := Sort(le, CanonValues(le, entries));
            && StrictlySorted(le, sorted) && KeysIn(sorted, keys)
            && (forall e :: e in sorted <==> e in CanonValues(le, entries))
  {
    SortSorts(le, CanonValues(le, entries), keys);
    SortMembers(le, CanonValues(le, entries));
  }

  /** Values that mean the same have one canonical form. */
  lemma {:induction false} MeaningDecidesCanon(le: Collation, x: Json, y: Json, keys: set<string>)
    requires Orders(le, keys) && WellFormed(x, keys) && WellFormed(y, keys)
    requires Meaning(x) == Meaning(y)
    ensures Canon(le, x) == Canon(le, y)
    decreases x
  {
    match x
    case Arr(items) =>
      MeaningsAt(items);
      MeaningsAt(y.items);
      forall i | 0 <= i < |items|
        ensures Canon(le, items[i]) == Canon(le, y.items[i])
      {
        MeaningDecidesCanon(le, items[i], y.items[i], keys);
      }
      assert CanonItems(le, items) == CanonItems(le, y.items);
    case Obj(entries) =>
      forall i, j | 0 <= i < |entries| && 0 <= j < |y.entries| && entries[i].key == y.entries[j].key
        ensures Canon(le, entries[i].value) == Canon(le, y.entries[j].value)
      {
        FieldAt(entries, i);
        FieldAt(y.entries, j);
        MeaningDecidesCanon(le, entries[i].value, y.entries[j].value, keys);
      }
      FieldsHaveKeys(entries);
      FieldsHaveKeys(y.entries);
      SameMembers(le, entries, y.entries);
      CanonIsSorted(le, entries, keys);
      CanonIsSorted(le, y.entries, keys);
      SortedIsUnique(le, Sort(le, CanonValues(le, entries)), Sort(le, CanonValues(le, y.entries)), keys);
    case _ =>
  }

  lemma SameMembers(le: Collation, xs: seq<Entry<Json>>, ys: seq<Entry<Json>>)
    requires KeySet(xs) == KeySet(ys)
    requires forall i, j :: 0 <= i < |xs| && 0 <= j < |ys| && xs[i].key == ys[j].key ==>
                              Canon(le, xs[i].value) == Canon(le, ys[j].value)
    ensures forall e :: e in CanonValues(le, xs) <==> e in CanonValues(le, ys)
  {
    hide Canon, KeySet;
    forall e
      ensures e in CanonValues(le, xs) <==> e in CanonValues(le, ys)
    {
      if e in CanonValues(le, xs) {
        var i :| 0 <= i < |xs| && CanonValues(le, xs)[i] == e;
        KeyAt(xs, i);
        var j := IndexOfKey(ys, xs[i].key);
        assert CanonValues(le, ys)[j] == e;
      }
      if e in CanonValues(le, ys) {
        var j :| 0 <= j < |ys| && CanonValues(le, ys)[j] == e;
        KeyAt(ys, j);
        var i := IndexOfKey(xs, ys[j].key);
        assert CanonValues(le, xs)[i] == e;
      }
    }
  }

  /** The canonical form of a value means what the value means, and it prints unambiguously. */
  lemma {:induction false} CanonKeepsMeaning(le: Collation, x: Json, keys: set<string>)
    requires Orders(le, keys) && WellFormed(x, keys)
    ensures Meaning(Canon(le, x)) == Meaning(x) && Printable(Canon(le, x))
    decreases x
  {
    match x
    case Arr(items) =>
      MeaningsAt(items);
      MeaningsAt(CanonItems(le, items));
      forall i | 0 <= i < |items|
        ensures Meaning(Canon(le, items[i])) == Meaning(items[i]) && Printable(Canon(le, items[i]))
      {
        CanonKeepsMeaning(le, items[i], keys);
      }
      assert Meanings(CanonItems(le, items)) == Meanings(items);
    case Obj(entries) =>
      forall i | 0 <= i < |entries|
        ensures Meaning(Canon(le, entries[i].value)) == Meaning(entries[i].value)
        ensures Printable(Canon(le, entries[i].value))
      {
        CanonKeepsMeaning(le, entries[i].value, keys);
      }
      SortedFields(le, entries, keys);
      SortedIsPrintable(le, entries, keys);
    case _ =>
  }

  /** Where a sorted entry comes from. */
  lemma SortedEntryAt(le: Collation, entries: seq<Entry<Json>>, keys: set<string>, j: nat) returns (i: nat)
    requires Orders(le, keys) && WellFormed(Obj(entries), keys)
    requires j < |Sort(le, CanonValues(le, entries))|
    ensures i < |entries|
    ensures Sort(le, CanonValues(le, entries))[j] == Entry(entries[i].key, Canon(le, entries[i].value))
  {
    hide Sort, Canon, Orders;
    var values := CanonValues(le, entries);
    CanonIsSorted(le, entries, keys);
    assert Sort(le, values)[j] in values;
    i :| 0 <= i < |values| && values[i] == Sort(le, values)[j];
  }

  /** Where an entry goes. */
  lemma EntryIsSorted(le: Collation, entries: seq<Entry<Json>>, keys: set<string>, i: nat) returns (j: nat)
    requires Orders(le, keys) && WellFormed(Obj(entries), keys) && i < |entries|
    ensures j < |Sort(le, CanonValues(le, entries))|
    ensures Sort(le, CanonValues(le, entries))[j] == Entry(entries[i].key, Canon(le, entries[i].value))
  {
    hide Sort, Canon, Orders;
    var values := CanonValues(le, entries);
    CanonIsSorted(le, entries, keys);
    assert values[i] in Sort(le, values);
    j :| 0 <= j < |Sort(le, values)| && Sort(le, values)[j] == values[i];
  }

  /** Fields are decided by which keys map to which meanings. */
  lemma FieldsAgree(xs: seq<Entry<Json>>, ys: seq<Entry<Json>>)
    requires DistinctKeys(xs) && DistinctKeys(ys) && KeySet(xs) == KeySet(ys)
    requires forall i, j :: 0 <= i < |xs| && 0 <= j < |ys| && xs[i].key == ys[j].key ==>
                              Meaning(xs[i].value) == Meaning(ys[j].value)
    ensures Fields(xs) == Fields(ys)
  {
    hide Meaning, Fields, KeySet;
    FieldsHaveKeys(xs);
    FieldsHaveKeys(ys);
    forall k | k in Fields(xs)
      ensures Fields(xs)[k] == Fields(ys)[k]
    {
      var i := IndexOfKey(xs, k);
      var j := IndexOfKey(ys, k);
      FieldAt(xs, i);
      FieldAt(ys, j);
    }
  }

  lemma SortedKeys(le: Collation, entries: seq<Entry<Json>>, keys: set<string>)
    requires Orders(le, keys) && WellFormed(Obj(entries), keys)
    ensures KeySet(Sort(le, CanonValues(le, entries))) == KeySet(entries)
  {
    hide Sort, Canon, Orders, KeySet;
    var sorted := Sort(le, CanonValues(le, entries));
    forall k
      ensures k in KeySet(sorted) <==> k in KeySet(entries)
    {
      if k in KeySet(sorted) {
        var j := IndexOfKey(sorted, k);
        var i := SortedEntryAt(le, entries, keys, j);
        KeyAt(entries, i);
      }
      if k in KeySet(entries) {
        var i := IndexOfKey(entries, k);
        var j := EntryIsSorted(le, entries, keys, i);
        KeyAt(sorted, j);
      }
    }
  }

  lemma SortedFields(le: Collation, entries: seq<Entry<Json>>, keys: set<string>)
    requires Orders(le, keys) && WellFormed(Obj(entries), keys)
    requires forall i :: 0 <= i < |entries| ==> Meaning(Canon(le, entries[i].value)) == Meaning(entries[i].value)
    ensures Fields(Sort(le, CanonValues(le, entries))) == Fields(entries)
  {
    hide Sort, CanonValues, Orders, Canon, Meaning, Fields, KeySet;
    var sorted := Sort(le, CanonValues(le, entries));
    SortedKeys(le, entries, keys);
    CanonIsSorted(le, entries, keys);
    forall j, i | 0 <= j < |sorted| && 0 <= i < |entries| && sorted[j].key == entries[i].key
      ensures Meaning(sorted[j].value) == Meaning(entries[i].value)
    {
      var i' := SortedEntryAt(le, entries, keys, j);
      assert i' == i;
    }
    FieldsAgree(sorted, entries);
  }

  lemma SortedIsPrintable(le: Collation, entries: seq<Entry<Json>>, keys: set<string>)
    requires Orders(le, keys) && WellFormed(Obj(entries), keys)
    requires forall i :: 0 <= i < |entries| ==> Printable(Canon(le, entries[i].value))
    ensures Printable(Obj(Sort(le, CanonValues(le, entries))))
  {
    hide Sort, Canon, Orders;
    var sorted := Sort(le, CanonValues(le, entries));
    forall j | 0 <= j < |sorted|
      ensures '\"' !in sorted[j].key && Printable(sorted[j].value)
    {
      var i := SortedEntryAt(le, entries, keys, j);
    }
  }

  /** Two well-formed values have one text exactly when they mean the same. */
  lemma TextIffMeaning(le: Collation, x: Json, y: Json, keys: set<string>)
    requires Orders(le, keys) && WellFormed(x, keys) && WellFormed(y, keys)
    ensures Stringify(le, x) == Stringify(le, y) <==> Meaning(x) == Meaning(y)
  {
    StringifyIsPrint(le, x, keys);
    StringifyIsPrint(le, y, keys);
    if Meaning(x) == Meaning(y) {
      MeaningDecidesCanon(le, x, y, keys);
    }
    if Stringify(le, x) == Stringify(le, y) {
      CanonKeepsMeaning(le, x, keys);
      CanonKeepsMeaning(le, y, keys);
      assert Print(Canon(le, x)) + "" == Print(Canon(le, y)) + "";
      PrintsEnd(Canon(le, x), Canon(le, y), "", "");
    }
  }

  /** The order in which an object's entries were inserted does not show in the text. */
  lemma InsertionOrderIsInvisible(le: Collation, xs: seq<Entry<Json>>, ys: seq<Entry<Json>>, keys: set<string>)
    requires Orders(le, keys) && WellFormed(Obj(xs), keys) && WellFormed(Obj(ys), keys)
    requires forall e :: e in xs <==> e in ys
    ensures Stringify(le, Obj(xs)) == Stringify(le, Obj(ys))
  {
    SameKeys(xs, ys);
    SameKeys(ys, xs);
    assert forall i :: 0 <= i < |xs| ==> xs[i] in ys;
    FieldsAgree(xs, ys);
    TextIffMeaning(le, Obj(xs), Obj(ys), keys);
  }

  lemma SameKeys(xs: seq<Entry<Json>>, ys: seq<Entry<Json>>)
    requires forall e :: e in xs ==> e in ys
    ensures KeySet(xs) <= KeySet(ys)
  {
    forall k | k in KeySet(xs)
      ensures k in KeySet(ys)
    {
      var i := IndexOfKey(xs, k);
      assert xs[i] in ys;
      var j :| 0 <= j < |ys| && ys[j] == xs[i];
      KeyAt(ys, j);
    }
  }

  // ----- Values outside these results -----

  /** Where two different keys tie in the collation, the insertion order does show. */
  lemma TiedKeysKeepInsertionOrder(le: Collation, k: string, l: string)
    requires le(k, l) && le(l, k) && k != l && '\"' !in k && '\"' !in l
    ensures var x, y := [Entry(k, Null), Entry(l, Null)], [Entry(l, Null), Entry(k, Null)];
            Meaning(Obj(x)) == Meaning(Obj(y)) && Stringify(le, Obj(x)) != Stringify(le, Obj(y))
  {
    var x, y := [Entry(k, Null), Entry(l, Null)], [Entry(l, Null), Entry(k, Null)];
    FieldsAgree(x, y) by {
      assert y[1] == x[0] && y[0] == x[1];
      KeysOfTwo(x[0], x[1]);
      KeysOfTwo(y[0], y[1]);
    }
    TiedText(le, k, l);
    TiedText(le, l, k);
    if Stringify(le, Obj(x)) == Stringify(le, Obj(y)) {
      var p, q := ":null,\"" + l + "\":null}", ":null,\"" + k + "\":null}";
      DropPrefix("{\"", k + ("\"" + p), l + ("\"" + q));
      KeysEnd(k, l, p, q);
    }
  }

  lemma KeysOfTwo(e: Entry<Json>, f: Entry<Json>)
    ensures KeySet([e, f]) == {e.key, f.key}
  {
    assert [e, f][1..] == [f];
    assert [f][1..] == [];
    assert KeySet([f]) == {f.key};
  }

  lemma TiedText(le: Collation, k: string, l: string)
    requires le(k, l)
    ensures Stringify(le, Obj([Entry(k, Null), Entry(l, Null)])) == "{\"" + (k + ("\"" + (":null,\"" + l + "\":null}")))
  {
    TiedTexts(le, k, l);
    TiedSort(le, Entry(k, "null"), Entry(l, "null"));
    JoinOfTwo(Entry(k, "null"), Entry(l, "null"));
  }

  lemma TiedTexts(le: Collation, k: string, l: string)
    ensures EntryTexts(le, [Entry(k, Null), Entry(l, Null)]) == [Entry(k, "null"), Entry(l, "null")]
  {}

  lemma TiedSort(le: Collation, e: Entry<string>, f: Entry<string>)
    requires le(e.key, f.key)
    ensures Sort(le, [e, f]) == [e, f]
  {
    assert [e, f][1..] == [f];
    assert [f][1..] == [];
    assert Sort(le, [f]) == [f];
  }

  lemma JoinOfTwo(e: Entry<string>, f: Entry<string>)
    ensures Join(Quoted([e, f])) == "\"" + e.key + "\":" + e.value + ("," + ("\"" + f.key + "\":" + f.value))
  {
    assert [e, f][1..] == [f];
    assert [f][1..] == [];
    var a, b := "\"" + e.key + "\":" + e.value, "\"" + f.key + "\":" + f.value;
    assert Quoted([f]) == [b];
    assert Quoted([e, f]) == [a, b];
    assert [a, b][1..] == [b];
    assert [b][1..] == [];
    assert Tail([b]) == "," + b;
  }
}
