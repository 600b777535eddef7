/**
  The texts that cache keys are hashed from: the colon-joined question behind a couple route,
  and the canonical JSON behind a single route.  Each is shown to identify what it was built
  from.
  */
module CacheKeys {
  import opened Common
  import opened Calendar
  import opened Digits
  import opened StableStringify
  import opened CanonicalText

  // ----- The printed instant -----

  /** A number padded with zeros to a width. */
  function Pad(n: nat, width: nat): (s: string)
    ensures AllDigits(s) && s != []
  {
    Zeros(if |Decimal(n)| < width then width - |Decimal(n)| else 0) + Decimal(n)
  }

  function Zeros(k: nat): (s: string)
    ensures |s| == k && AllDigits(s)
  {
    if k == 0 then "" else Zeros(k - 1) + "0"
  }

  lemma {:induction false} NumberOfPadded(k: nat, s: string)
    requires AllDigits(s)
    ensures Number(Zeros(k) + s) == Number(s)
    decreases |s|, k
  {
    if s == "" {
      if k > 0 {
        assert (Zeros(k) + s)[..|Zeros(k) + s| - 1] == Zeros(k - 1) + "";
        NumberOfPadded(k - 1, "");
      }
    } else {
      var front := s[..|s| - 1];
      assert (Zeros(k) + s)[..|Zeros(k) + s| - 1] == Zeros(k) + front;
      NumberOfPadded(k, front);
    }
  }

  lemma NumberOfPad(n: nat, width: nat)
    ensures Number(Pad(n, width)) == n
  {
    NumberOfPadded(if |Decimal(n)| < width then width - |Decimal(n)| else 0, Decimal(n));
    NumberOfDecimal(n);
  }

  /** Four digits, or a sign and six digits outside the years 0 to 9999. */
  function IsoYear(y: int): string
  {
    if 0 <= y <= 9999 then Pad(y, 4) else if y < 0 then "-" + Pad(-y, 6) else "+" + Pad(y, 6)
  }

  lemma IsoYearIsInjective(y: int, z: int)
    requires IsoYear(y) == IsoYear(z)
    ensures y == z
  {
    var s, t := IsoYear(y), IsoYear(z);
    assert IsDigit(s[0]) <==> 0 <= y <= 9999;
    assert IsDigit(t[0]) <==> 0 <= z <= 9999;
    var rest := s[1..];
    if 0 <= y <= 9999 {
      NumberOfPad(y, 4);
      NumberOfPad(z, 4);
    } else {
      assert y < 0 <==> s[0] == '-';
      assert z < 0 <==> t[0] == '-';
      assert rest == Pad(if y < 0 then -y else y, 6) && rest == Pad(if z < 0 then -z else z, 6);
      NumberOfPad(if y < 0 then -y else y, 6);
      NumberOfPad(if z < 0 then -z else z, 6);
    }
  }

  /** The three colon-free stretches of a printed instant. */
  function IsoHour(f: DateFields): string
    requires ValidFields(f)
  {
    HourText(IsoYear(f.year), Pad2(f.month + 1), Pad2(f.date), Pad2(f.hour))
  }

  function IsoSeconds(f: DateFields): string
    requires ValidFields(f)
  {
    Pad2(f.second) + "." + Pad(f.ms, 3) + "Z"
  }

  /** An instant as it prints in UTC with milliseconds. */
  function IsoText(t: int): string
  {
    FieldsAreValid(t);
    var f := FieldsOf(t);
    IsoHour(f) + ":" + Pad2(f.minute) + ":" + IsoSeconds(f)
  }

  lemma Pad2IsInjective(m: nat, n: nat)
    requires m < 100 && n < 100 && Pad2(m) == Pad2(n)
    ensures m == n
  {}

  function HourText(year: string, month: string, date: string, hour: string): string
  {
    year + "-" + month + "-" + date + "T" + hour
  }

  lemma HourTextIsInjective(y: string, m: string, d: string, h: string, y': string, m': string, d': string, h': string)
    requires |m| == |d| == |h| == |m'| == |d'| == |h'| == 2
    requires HourText(y, m, d, h) == HourText(y', m', d', h')
    ensures y == y' && m == m' && d == d' && h == h'
  {
    var s := HourText(y, m, d, h);
    var n := |s|;
    assert s[..n - 9] == y && s[..n - 9] == y';
    assert s[n - 8..n - 6] == m && s[n - 8..n - 6] == m';
    assert s[n - 5..n - 3] == d && s[n - 5..n - 3] == d';
    assert s[n - 2..] == h && s[n - 2..] == h';
  }

  lemma HourNumbersDiffer(y: int, m: nat, d: nat, h: nat, y': int, m': nat, d': nat, h': nat)
    requires m < 100 && d < 100 && h < 100 && m' < 100 && d' < 100 && h' < 100
    requires HourText(IsoYear(y), Pad2(m), Pad2(d), Pad2(h)) == HourText(IsoYear(y'), Pad2(m'), Pad2(d'), Pad2(h'))
    ensures y == y' && m == m' && d == d' && h == h'
  {
    hide Pad2, IsoYear, HourText;
    HourTextIsInjective(
      IsoYear(y), Pad2(m), Pad2(d), Pad2(h), IsoYear(y'), Pad2(m'), Pad2(d'), Pad2(h'));
    IsoYearIsInjective(y, y');
    Pad2IsInjective(m, m');
    Pad2IsInjective(d, d');
    Pad2IsInjective(h, h');
  }

  lemma IsoHourIsInjective(f: DateFields, g: DateFields)
    requires ValidFields(f) && ValidFields(g) && IsoHour(f) == IsoHour(g)
    ensures f.year == g.year && f.month == g.month && f.date == g.date && f.hour == g.hour
  {
    hide Pad2, IsoYear, HourText, IsDate;
    HourNumbersDiffer(f.year, f.month + 1, f.date, f.hour, g.year, g.month + 1, g.date, g.hour);
  }

  lemma IsoSecondsIsInjective(f: DateFields, g: DateFields)
    requires ValidFields(f) && ValidFields(g) && IsoSeconds(f) == IsoSeconds(g)
    ensures f.second == g.second && f.ms == g.ms
  {
    var s, n := IsoSeconds(f), |IsoSeconds(f)|;
    assert s[..2] == Pad2(f.second) && s[..2] == Pad2(g.second);
    assert s[3..n - 1] == Pad(f.ms, 3) && s[3..n - 1] == Pad(g.ms, 3);
    Pad2IsInjective(f.second, g.second);
    NumberOfPad(f.ms, 3);
    NumberOfPad(g.ms, 3);
  }

  // ----- Reading an instant -----

  /** The number at these places of a text, if digits stand there. */
  function NumberAt(s: string, from: nat, to: nat): Option<nat>
    requires from <= to <= |s|
  {
    if AllDigits(s[from..to]) then Some(Number(s[from..to])) else None
  }

  function Signed(sign: char, size: Option<nat>): Option<int>
  {
    if size.None? then None else Some(if sign == '-' then 0 - size.value else size.value)
  }

  /** A year of four digits, or of a sign and at least six. */
  function ReadYear(y: string): Option<int>
  {
    if |y| == 4 then Signed('+', NumberAt(y, 0, 4))
    else if |y| >= 7 && (y[0] == '+' || y[0] == '-') then Signed(y[0], NumberAt(y, 1, |y|))
    else None
  }

  /** The instant that a date, a "T", a time with milliseconds and a "Z" stand for, fields counted from the end. */
  function ReadIso(s: string): Option<int>
  {
    var n := |s|;
    if n < 24 || s[n - 1] != 'Z' || s[n - 5] != '.' || s[n - 8] != ':' || s[n - 11] != ':' || s[n - 14] != 'T'
       || s[n - 17] != '-' || s[n - 20] != '-' then None
    else
      var year, month, date := ReadYear(s[..n - 20]), NumberAt(s, n - 19, n - 17), NumberAt(s, n - 16, n - 14);
      var hour, minute := NumberAt(s, n - 13, n - 11), NumberAt(s, n - 10, n - 8);
      var second, ms := NumberAt(s, n - 7, n - 5), NumberAt(s, n - 4, n - 1);
      if year.None? || month.None? || date.None? || hour.None? || minute.None? || second.None? || ms.None? then None
      else
        Some(MakeDay(year.value, month.value as int - 1, date.value) * MS_PER_DAY
             + TimeOfDay(hour.value, minute.value, second.value, ms.value))
  }

  lemma ReadYearOfText(y: int)
    ensures ReadYear(IsoYear(y)) == Some(y)
  {
    var s := IsoYear(y);
    if 0 <= y <= 9999 {
      PadLength(y, 4);
      NumberOfPad(y, 4);
      assert s[0..4] == s;
    } else {
      var size: nat := if y < 0 then -y else y;
      PadLength(size, 6);
      NumberOfPad(size, 6);
      assert s[1..|s|] == Pad(size, 6);
    }
  }

  lemma PadLength(n: nat, width: nat)
    ensures |Pad(n, width)| >= width
    ensures (width == 4 && n <= 9999) || (width == 3 && n <= 999) ==> |Pad(n, width)| == width
  {
    DecimalLength(n);
    hide Decimal;
  }

  /** The places of the fields in a printed instant. */
  lemma IsoPlaces(f: DateFields, s: string)
    requires ValidFields(f) && s == IsoHour(f) + ":" + Pad2(f.minute) + ":" + IsoSeconds(f)
    ensures var n := |s|;
            && n >= 24 && s[n - 1] == 'Z' && s[n - 5] == '.' && s[n - 8] == s[n - 11] == ':' && s[n - 14] == 'T'
            && s[n - 17] == s[n - 20] == '-' && s[..n - 20] == IsoYear(f.year)
            && s[n - 19..n - 17] == Pad2(f.month + 1) && s[n - 16..n - 14] == Pad2(f.date)
            && s[n - 13..n - 11] == Pad2(f.hour) && s[n - 10..n - 8] == Pad2(f.minute)
            && s[n - 7..n - 5] == Pad2(f.second) && s[n - 4..n - 1] == Pad(f.ms, 3)
  {
    hide Pad2, Pad, IsoYear, IsDate;
    PadLength(f.ms, 3);
    YearIsLong(f.year);
    var n := |s|;
    assert s[..n - 20] == IsoYear(f.year);
    assert s[n - 19..n - 17] == Pad2(f.month + 1);
    assert s[n - 16..n - 14] == Pad2(f.date);
    assert s[n - 13..n - 11] == Pad2(f.hour);
    assert s[n - 10..n - 8] == Pad2(f.minute);
    assert s[n - 7..n - 5] == Pad2(f.second);
    assert s[n - 4..n - 1] == Pad(f.ms, 3);
  }

  lemma YearIsLong(y: int)
    ensures |IsoYear(y)| >= 4
  {
    PadLength(if y < 0 then -y else y, 4);
    PadLength(if y < 0 then -y else y, 6);
    hide Pad;
  }

  /** Reading a printed instant gives the instant. */
  lemma ReadIsoOfText(t: int)
    ensures ReadIso(IsoText(t)) == Some(t)
  {
    hide FieldsOf, Pad2, Pad, ReadYear, IsoYear, Number, MakeDay, TimeOfDay, IsoHour, IsoSeconds, IsDate;
    FieldsAreValid(t);
    MakeOfFields(t);
    var f := FieldsOf(t);
    IsoPlaces(f, IsoText(t));
    ReadYearOfText(f.year);
    NumberOfPad2(f.month + 1);
    NumberOfPad2(f.date);
    NumberOfPad2(f.hour);
    NumberOfPad2(f.minute);
    NumberOfPad2(f.second);
    NumberOfPad(f.ms, 3);
    hide IsoText, ValidFields, AllDigits;
  }

  // ----- Joining by colons -----

  predicate ColonFree(s: string)
  {
    forall i :: 0 <= i < |s| ==> s[i] != ':'
  }

  function JoinColon(parts: seq<string>): string
  {
    if parts == [] then "" else if |parts| == 1 then parts[0] else parts[0] + ":" + JoinColon(parts[1..])
  }

  /** Lists of one length whose parts contain no colon join differently if they differ. */
  lemma {:induction false} JoinColonIsInjective(p: seq<string>, q: seq<string>)
    requires |p| == |q|
    requires forall i :: 0 <= i < |p| ==> ColonFree(p[i]) && ColonFree(q[i])
    requires JoinColon(p) == JoinColon(q)
    ensures p == q
  {
    if |p| > 1 {
      var v, w := ":" + JoinColon(p[1..]), ":" + JoinColon(q[1..]);
      assert p[0] + v == JoinColon(p) && q[0] + w == JoinColon(q);
      UpToStop(p[0], q[0], v, w, {':'});
      DropPrefix(":", JoinColon(p[1..]), JoinColon(q[1..]));
      JoinColonIsInjective(p[1..], q[1..]);
    }
  }

  // ----- The couple-route key -----

  /** What a couple route is asked for; coordinates are given by the texts their numbers print as. */
  datatype Question = Question(
    eventId: string, appointmentAt: int,
    myLat: string, myLng: string, partnerLat: string, partnerLng: string, placeLat: string, placeLng: string)

  predicate Plain(q: Question)
  {
    && ColonFree(q.eventId)
    && Numeral(q.myLat) && Numeral(q.myLng) && Numeral(q.partnerLat) && Numeral(q.partnerLng)
    && Numeral(q.placeLat) && Numeral(q.placeLng)
  }

  function CoupleKey(q: Question): string
  {
    JoinColon([q.eventId, IsoText(q.appointmentAt), q.myLat, q.myLng, q.partnerLat, q.partnerLng, q.placeLat,
               q.placeLng])
  }

  /** The key's parts once the printed instant is split at its own two colons. */
  ghost function CoupleKeyParts(q: Question): seq<string>
  {
    FieldsAreValid(q.appointmentAt);
    var f := FieldsOf(q.appointmentAt);
    [q.eventId, IsoHour(f), Pad2(f.minute), IsoSeconds(f),
     q.myLat, q.myLng, q.partnerLat, q.partnerLng, q.placeLat, q.placeLng]
  }

  lemma JoinOfTwoParts(a: string, rest: seq<string>)
    requires rest != []
    ensures JoinColon([a] + rest) == a + ":" + JoinColon(rest)
  {}

  /** Colons inside the second part are as good as colons between parts. */
  lemma SplitSecondPart(e: string, a: string, b: string, c: string, rest: seq<string>)
    requires rest != []
    ensures JoinColon([e] + ([a + ":" + b + ":" + c] + rest)) == JoinColon([e] + ([a] + ([b] + ([c] + rest))))
  {
    JoinOfTwoParts(e, [a + ":" + b + ":" + c] + rest);
    JoinOfTwoParts(a + ":" + b + ":" + c, rest);
    JoinOfTwoParts(e, [a] + ([b] + ([c] + rest)));
    JoinOfTwoParts(a, [b] + ([c] + rest));
    JoinOfTwoParts(b, [c] + rest);
    JoinOfTwoParts(c, rest);
    JoinRegroups(a, b, c, JoinColon(rest));
  }

  lemma CoupleKeyIsItsParts(q: Question)
    ensures CoupleKey(q) == JoinColon(CoupleKeyParts(q))
  {
    FieldsAreValid(q.appointmentAt);
    hide JoinColon, IsoHour, IsoSeconds, Pad2, FieldsOf;
    var f := FieldsOf(q.appointmentAt);
    var rest := [q.myLat, q.myLng, q.partnerLat, q.partnerLng, q.placeLat, q.placeLng];
    var a, b, c := IsoHour(f), Pad2(f.minute), IsoSeconds(f);
    SplitSecondPart(q.eventId, a, b, c, rest);
    assert [q.eventId] + ([a] + ([b] + ([c] + rest))) == CoupleKeyParts(q);
    assert [q.eventId] + ([IsoText(q.appointmentAt)] + rest)
        == [q.eventId, IsoText(q.appointmentAt), q.myLat, q.myLng, q.partnerLat, q.partnerLng, q.placeLat, q.placeLng];
  }

  lemma JoinRegroups(a: string, b: string, c: string, rest: string)
    ensures a + ":" + b + ":" + c + ":" + rest == a + ":" + (b + ":" + (c + ":" + rest))
  {}

  lemma PartsAreColonFree(q: Question)
    requires Plain(q)
    ensures forall i :: 0 <= i < 10 ==> ColonFree(CoupleKeyParts(q)[i])
  {
    FieldsAreValid(q.appointmentAt);
    var f := FieldsOf(q.appointmentAt);
    DigitsAreColonFree(f);
  }

  lemma DigitsAreColonFree(f: DateFields)
    requires ValidFields(f)
    ensures ColonFree(IsoHour(f)) && ColonFree(Pad2(f.minute)) && ColonFree(IsoSeconds(f))
  {}

  /** Different questions have different keys. */
  lemma CoupleKeyIdentifiesQuestion(p: Question, q: Question)
    requires Plain(p) && Plain(q) && CoupleKey(p) == CoupleKey(q)
    ensures p == q
  {
    CoupleKeyIsItsParts(p);
    CoupleKeyIsItsParts(q);
    PartsAreColonFree(p);
    PartsAreColonFree(q);
    var ps, qs := CoupleKeyParts(p), CoupleKeyParts(q);
    JoinColonIsInjective(ps, qs);
    FieldsAreValid(p.appointmentAt);
    FieldsAreValid(q.appointmentAt);
    var f, g := FieldsOf(p.appointmentAt), FieldsOf(q.appointmentAt);
    assert ps[1] == qs[1] && ps[2] == qs[2] && ps[3] == qs[3];
    IsoHourIsInjective(f, g);
    Pad2IsInjective(f.minute, g.minute);
    IsoSecondsIsInjective(f, g);
    assert f == g;
    MakeOfFields(p.appointmentAt);
    MakeOfFields(q.appointmentAt);
    assert ps[0] == qs[0] && ps[4] == qs[4] && ps[5] == qs[5] && ps[6] == qs[6];
    assert ps[7] == qs[7] && ps[8] == qs[8] && ps[9] == qs[9];
  }

  // ----- The single-route key -----

  /** The end points of a route, as the texts sent to the provider. */
  datatype Trip = Trip(startX: string, startY: string, endX: string, endY: string)

  function IntText(n: int): string
  {
    if n < 0 then "-" + Decimal(-n) else Decimal(n)
  }

  function PayloadJson(trip: Trip): Json
  {
    Obj([Entry("startX", Str(trip.startX)), Entry("startY", Str(trip.startY)),
         Entry("endX", Str(trip.endX)), Entry("endY", Str(trip.endY))])
  }

  function ExtraJson(requested: Option<nat>): Json
  {
    Obj([Entry("bucketMinutes", if requested.Some? then Num(IntText(requested.value)) else Undefined)])
  }

  /**
    What is hashed for a route: the payload without its time, the other arguments without
    theirs, and the bucket.  `requested` is the bucket size the caller asked for, if any.
    */
  function RouteKeyJson(trip: Trip, requested: Option<nat>, bucketStart: int, minutes: nat): Json
  {
    Obj([
      Entry("payload", PayloadJson(trip)),
      Entry("extraKeyData", ExtraJson(requested)),
      Entry("bucketStartMs", Num(IntText(bucketStart))),
      Entry("bucketMinutes", Num(IntText(minutes)))
    ])
  }

  function RouteKeyNames(): set<string>
  {
    {"payload", "extraKeyData", "bucketStartMs", "bucketMinutes", "startX", "startY", "endX", "endY"}
  }

  lemma IntTextIsInjective(m: int, n: int)
    requires IntText(m) == IntText(n)
    ensures m == n
  {
    var s, t := IntText(m), IntText(n);
    assert (m < 0 <==> s[0] == '-') && (n < 0 <==> t[0] == '-');
    var rest := s[1..];
    if m < 0 {
      assert rest == Decimal(-m) && rest == Decimal(-n);
      DecimalIsInjective(-m, -n);
    } else {
      DecimalIsInjective(m, n);
    }
  }

  lemma IntTextIsNumeral(n: int)
    ensures Numeral(IntText(n))
  {}

  lemma PartsAreWellFormed(trip: Trip, requested: Option<nat>)
    ensures WellFormed(PayloadJson(trip), RouteKeyNames())
    ensures WellFormed(ExtraJson(requested), RouteKeyNames())
  {
    if requested.Some? {
      IntTextIsNumeral(requested.value);
    }
  }

  lemma FourEntriesAreWellFormed(es: seq<Entry<Json>>, keys: set<string>)
    requires |es| == 4 && DistinctKeys(es)
    requires es[0].key in keys && es[1].key in keys && es[2].key in keys && es[3].key in keys
    requires '\"' !in es[0].key && '\"' !in es[1].key && '\"' !in es[2].key && '\"' !in es[3].key
    requires WellFormed(es[0].value, keys) && WellFormed(es[1].value, keys)
    requires WellFormed(es[2].value, keys) && WellFormed(es[3].value, keys)
    ensures WellFormed(Obj(es), keys)
  {}

  lemma RouteKeyNamesDiffer(trip: Trip, requested: Option<nat>, bucketStart: int, minutes: nat)
    ensures var es := RouteKeyJson(trip, requested, bucketStart, minutes).entries;
            DistinctKeys(es) && forall i :: 0 <= i < 4 ==> es[i].key in RouteKeyNames() && '\"' !in es[i].key
  {
    hide PayloadJson, ExtraJson, IntText;
    var a, b, c, d := "payload", "extraKeyData", "bucketStartMs", "bucketMinutes";
    assert |a| == 7 && |b| == 12 && |c| == 13 && |d| == 13 && c[6] == 'S' && d[6] == 'M';
  }

  lemma RouteKeyIsWellFormed(trip: Trip, requested: Option<nat>, bucketStart: int, minutes: nat)
    ensures WellFormed(RouteKeyJson(trip, requested, bucketStart, minutes), RouteKeyNames())
  {
    RouteKeyNamesDiffer(trip, requested, bucketStart, minutes);
    PartsAreWellFormed(trip, requested);
    IntTextIsNumeral(bucketStart);
    IntTextIsNumeral(minutes);
    hide PayloadJson, ExtraJson, IntText, RouteKeyNames, Numeral;
    FourEntriesAreWellFormed(RouteKeyJson(trip, requested, bucketStart, minutes).entries, RouteKeyNames());
  }

  lemma PayloadIdentifiesTrip(t: Trip, u: Trip)
    requires Meaning(PayloadJson(t)) == Meaning(PayloadJson(u))
    ensures t == u
  {
    var xs, ys := PayloadJson(t).entries, PayloadJson(u).entries;
    SameFieldsAt(xs, ys, 0);
    SameFieldsAt(xs, ys, 1);
    SameFieldsAt(xs, ys, 2);
    SameFieldsAt(xs, ys, 3);
  }

  lemma ExtraIdentifiesSize(t: Option<nat>, u: Option<nat>)
    requires Meaning(ExtraJson(t)) == Meaning(ExtraJson(u))
    ensures t == u
  {
    SameFieldsAt(ExtraJson(t).entries, ExtraJson(u).entries, 0);
    if t.Some? {
      IntTextIsInjective(t.value, u.value);
    }
  }

  /** Equal texts mean equal end points, equal bucket sizes and one bucket. */
  lemma RouteKeyIdentifiesBucket(
      le: Collation,
      t: Trip, requestedT: Option<nat>, startT: int, minutesT: nat,
      u: Trip, requestedU: Option<nat>, startU: int, minutesU: nat)
    requires Orders(le, RouteKeyNames())
    requires Stringify(le, RouteKeyJson(t, requestedT, startT, minutesT))
          == Stringify(le, RouteKeyJson(u, requestedU, startU, minutesU))
    ensures t == u && requestedT == requestedU && startT == startU && minutesT == minutesU
  {
    hide PayloadJson, ExtraJson, Stringify, IntText, StableStringify.Fields;
    var x, y := RouteKeyJson(t, requestedT, startT, minutesT), RouteKeyJson(u, requestedU, startU, minutesU);
    RouteKeyIsWellFormed(t, requestedT, startT, minutesT);
    RouteKeyIsWellFormed(u, requestedU, startU, minutesU);
    TextIffMeaning(le, x, y, RouteKeyNames());
    SameFieldsAt(x.entries, y.entries, 0);
    SameFieldsAt(x.entries, y.entries, 1);
    SameFieldsAt(x.entries, y.entries, 2);
    SameFieldsAt(x.entries, y.entries, 3);
    PayloadIdentifiesTrip(t, u);
    ExtraIdentifiesSize(requestedT, requestedU);
    IntTextIsInjective(startT, startU);
    IntTextIsInjective(minutesT, minutesU);
  }

  /** Objects with one meaning agree at every key they list in one place. */
  lemma SameFieldsAt(xs: seq<Entry<Json>>, ys: seq<Entry<Json>>, i: nat)
    requires DistinctKeys(xs) && DistinctKeys(ys) && Fields(xs) == Fields(ys)
    requires i < |xs| && i < |ys| && xs[i].key == ys[i].key
    ensures Meaning(xs[i].value) == Meaning(ys[i].value)
  {
    FieldAt(xs, i);
    FieldAt(ys, i);
  }
}
