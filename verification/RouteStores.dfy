/**
  The stores behind couple routes: one Redis instance that holds couple routes and single
  routes under hashed keys, the table of couple-route rows, and the answers the transit
  provider has given.  Store calls may fail; the program then goes on without them.
  */
module RouteStores {
  import opened Common
  import opened RouteOverlap
  import opened StableStringify
  import opened CanonicalText
  import opened CacheKeys
  import opened TmapDateTime

  const MS_PER_SECOND: int := 1000
  const REDIS_TTL: int := 3600 * MS_PER_SECOND
  const DB_TTL: int := 24 * 3600 * MS_PER_SECOND

  /** A coordinate as its number prints. */
  type Coord = s: string | Numeral(s) witness "0"

  /** The digest function, the collation of key names, the cache settings and the geography. */
  datatype Setup = Setup(
    hash: string -> string, collation: Collation, minutes: int, ttlMin: int, ttlMax: int, geo: Geography)

  /** No two texts share a digest, and the collation orders the names inside route keys. */
  ghost predicate ValidSetup(s: Setup)
  {
    (forall x, y :: s.hash(x) == s.hash(y) ==> x == y) && Orders(s.collation, RouteKeyNames())
  }

  /** There are such settings: a digest that is the text itself, and keys in code-unit order. */
  lemma SomeSetupIsValid(geo: Geography)
    ensures ValidSetup(Setup((x: string) => x, CodeUnits, 5, 60, 120, geo))
  {
    CodeUnitsOrder(RouteKeyNames());
  }

  datatype Itinerary = Itinerary(totalTime: int, transferCount: int, legs: seq<Leg>)

  /** The first itinerary of an answer: absent, null, or there. */
  datatype First = NoItinerary | NullItinerary | First(itinerary: Itinerary)

  /** What the provider answers; `truthy` is false for bodies such as null, 0 and "". */
  datatype Body = Body(truthy: bool, first: First)

  datatype Meeting = Meeting(name: string, lat: Coordinate, lng: Coordinate, partnerDeparture: string)

  /** A couple route: with a meeting station, or without one for individual travel. */
  datatype Response = Response(
    meeting: Option<Meeting>, departure: string, totalTime: int, transferCount: int, legs: seq<Leg>, cachedAt: int)

  datatype Error =
    | EventNotFound | NoPlace | NoAppointment | NotAMember | NoHome | NoPartnerHome
    | BadConfiguration | BadBucket | BadArrival | ProviderFailed | NoRouteFound | Crashed

  /** One answer of the provider: what was asked and when, what came back and when. */
  datatype Answer = Answer(trip: Trip, arrival: Option<string>, asked: int, body: Body, at: int)

  datatype Cached = CoupleRoute(response: Response) | SingleRoute(body: Body)

  datatype Slot = Slot(value: Cached, expiry: int)

  datatype Row = Row(eventId: string, userId: string, response: Response, expiresAt: int)

  datatype Stores = Stores(now: int, redis: map<string, Slot>, rows: map<string, Row>, answers: set<Answer>)

  function Live(st: Stores, key: string): Option<Cached>
  {
    if key in st.redis && st.now < st.redis[key].expiry then Some(st.redis[key].value) else None
  }

  function Put(st: Stores, key: string, value: Cached, ttl: int): Stores
  {
    st.(redis := st.redis[key := Slot(value, st.now + ttl)])
  }

  // ----- Keys -----

  /** What a single route is cached under: its end points and its time bucket. */
  datatype Ask = Ask(trip: Trip, requested: Option<nat>, minutes: nat, start: int)

  function OuterKey(s: Setup, q: Question): string
  {
    "transit:couple-route:" + s.hash(CoupleKey(q))
  }

  function InnerKey(s: Setup, ask: Ask): string
  {
    "transit:route:bucket:" + (IntText(ask.start) + (":" + s.hash(AskText(s, ask))))
  }

  function AskText(s: Setup, ask: Ask): string
  {
    Stringify(s.collation, RouteKeyJson(ask.trip, ask.requested, ask.start, ask.minutes))
  }

  lemma OuterKeyIdentifies(s: Setup, p: Question, q: Question)
    requires ValidSetup(s) && Plain(p) && Plain(q) && OuterKey(s, p) == OuterKey(s, q)
    ensures p == q
  {
    hide CoupleKey, Plain, Orders;
    DropPrefix("transit:couple-route:", s.hash(CoupleKey(p)), s.hash(CoupleKey(q)));
    CoupleKeyIdentifiesQuestion(p, q);
  }

  lemma InnerKeyIdentifies(s: Setup, a: Ask, b: Ask)
    requires ValidSetup(s) && InnerKey(s, a) == InnerKey(s, b)
    ensures a == b
  {
    hide AskText, IntText, Orders;
    var v, w := ":" + s.hash(AskText(s, a)), ":" + s.hash(AskText(s, b));
    DropPrefix("transit:route:bucket:", IntText(a.start) + v, IntText(b.start) + w);
    IntTextHasNoColon(a.start);
    IntTextHasNoColon(b.start);
    UpToStop(IntText(a.start), IntText(b.start), v, w, {':'});
    DropPrefix(":", s.hash(AskText(s, a)), s.hash(AskText(s, b)));
    AskTextIdentifies(s, a, b);
  }

  lemma AskTextIdentifies(s: Setup, a: Ask, b: Ask)
    requires ValidSetup(s) && AskText(s, a) == AskText(s, b)
    ensures a == b
  {
    RouteKeyIdentifiesBucket(s.collation,
                             a.trip, a.requested, a.start, a.minutes, b.trip, b.requested, b.start, b.minutes);
  }

  lemma IntTextHasNoColon(n: int)
    ensures forall i :: 0 <= i < |IntText(n)| ==> IntText(n)[i] !in {':'}
  {}

  /** Couple routes and single routes never share a key. */
  lemma KeysAreApart(s: Setup, q: Question, ask: Ask)
    ensures OuterKey(s, q) != InnerKey(s, ask)
  {
    assert OuterKey(s, q)[8] == 'c' && InnerKey(s, ask)[8] == 'r';
  }

  // ----- Single routes -----

  function Resolve(s: Setup, requested: Option<nat>): Result<nat, Error>
  {
    match requested
    case None => if s.minutes < 1 then Failure(BadConfiguration) else Success(s.minutes)
    case Some(n) => if n < 1 then Failure(BadBucket) else Success(n)
  }

  /** The time a question is about: the arrival time it names, or the present. */
  function BaseTime(now: int, arrival: Option<string>): Result<int, Error>
  {
    match arrival
    case None => Success(now)
    case Some(text) => (match ParseTmapDateTime(text) case Some(t) => Success(t) case None => Failure(BadArrival))
  }

  function AskOf(s: Setup, now: int, trip: Trip, arrival: Option<string>, requested: Option<nat>)
    : (r: Result<Ask, Error>)
    ensures r.Success? ==> r.value.minutes >= 1
  {
    match Resolve(s, requested)
    case Failure(e) => Failure(e)
    case Success(minutes) =>
      match BaseTime(now, arrival)
      case Failure(e) => Failure(e)
      case Success(t) => Success(Ask(trip, requested, minutes, BucketStart(t, minutes)))
  }

  datatype Reply = NoReply | Reply(body: Body)

  /** What the environment does during one fetch. */
  datatype Luck = Luck(readFails: bool, reply: Reply, writeFails: bool, ttl: int)

  function TtlMin(s: Setup): int { Max(s.ttlMin, 1) }

  function TtlMax(s: Setup): int { Max(s.ttlMax, TtlMin(s)) }

  /** The lifetime drawn for a random number in [0, 1). */
  function DrawnTtl(s: Setup, random: real): int
  {
    (random * (TtlMax(s) - TtlMin(s) + 1) as real).Floor + TtlMin(s)
  }

  predicate FairTtl(s: Setup, luck: Luck)
  {
    TtlMin(s) <= luck.ttl <= TtlMax(s)
  }

  lemma ShareIsBelow(r: real, n: int)
    requires 0.0 <= r < 1.0 && n >= 1
    ensures 0 <= (r * n as real).Floor < n
  {
    var x := n as real;
    assert (1.0 - r) * x > 0.0;
    assert r * x == x - (1.0 - r) * x;
    assert r * x >= 0.0;
    assert 0.0 <= r * x < x;
  }

  /** The lifetimes a draw can give are those from the larger of the lower bound and 1 to the upper bound or that. */
  lemma DrawIsFair(s: Setup, luck: Luck)
    ensures FairTtl(s, luck) <==> exists r: real :: 0.0 <= r < 1.0 && luck.ttl == DrawnTtl(s, r)
    ensures TtlMin(s) == (if s.ttlMin >= 1 then s.ttlMin else 1)
    ensures TtlMax(s) == (if s.ttlMax >= TtlMin(s) then s.ttlMax else TtlMin(s))
  {
    var n := TtlMax(s) - TtlMin(s) + 1;
    if FairTtl(s, luck) {
      var k := luck.ttl - TtlMin(s);
      var r := k as real / n as real;
      assert r * n as real == k as real;
      assert 0.0 <= r < 1.0 && luck.ttl == DrawnTtl(s, r);
    }
    forall r: real | 0.0 <= r < 1.0 && luck.ttl == DrawnTtl(s, r)
      ensures FairTtl(s, luck)
    {
      ShareIsBelow(r, n);
    }
  }

  /** A single route through its cache; a body that is not truthy is never served from it. */
  function Fetch(s: Setup, st: Stores, trip: Trip, arrival: Option<string>, requested: Option<nat>, luck: Luck)
    : (Stores, Result<Body, Error>)
  {
    match AskOf(s, st.now, trip, arrival, requested)
    case Failure(e) => (st, Failure(e))
    case Success(ask) =>
      var cached := if luck.readFails then None else Live(st, InnerKey(s, ask));
      if cached.Some? && cached.value.SingleRoute? && cached.value.body.truthy then (st, Success(cached.value.body))
      else
        match luck.reply
        case NoReply => (st, Failure(ProviderFailed))
        case Reply(body) =>
          var heard := st.(answers := st.answers + {Answer(trip, arrival, st.now, body, st.now)});
          (if luck.writeFails then heard else Put(heard, InnerKey(s, ask), SingleRoute(body), luck.ttl * MS_PER_SECOND),
           Success(body))
  }

  /** A truthy body that was stored is served, without the provider, for as long as its lifetime lasts. */
  lemma StoredBodyIsServed(s: Setup, st: Stores, trip: Trip, arrival: Option<string>, requested: Option<nat>,
                           body: Body, luck: Luck, later: int, again: Luck)
    requires AskOf(s, st.now, trip, arrival, requested).Success?
    requires AskOf(s, later, trip, arrival, requested) == AskOf(s, st.now, trip, arrival, requested)
    requires luck.readFails && luck.reply == Reply(body) && !luck.writeFails && body.truthy && !again.readFails
    requires st.now <= later < st.now + 1000 * luck.ttl
    ensures var (stored, first) := Fetch(s, st, trip, arrival, requested, luck);
            && first == Success(body)
            && var aged := stored.(now := later);
               Fetch(s, aged, trip, arrival, requested, again) == (aged, Success(body))
  {
    hide AskOf, InnerKey;
  }

  /** A body that is not truthy comes only from the provider, and the provider is heard at most once. */
  lemma FetchHearsOnce(s: Setup, st: Stores, trip: Trip, arrival: Option<string>, requested: Option<nat>, luck: Luck)
    ensures var (after, r) := Fetch(s, st, trip, arrival, requested, luck);
            && (after.answers == st.answers
                || (luck.reply.Reply? && r == Success(luck.reply.body)
                    && after.answers == st.answers + {Answer(trip, arrival, st.now, luck.reply.body, st.now)}))
            && (r.Success? && !r.value.truthy ==> luck.reply == Reply(r.value))
  {
    hide AskOf, InnerKey;
  }

  // ----- Couple routes -----

  function MyTrip(q: Question): Trip
  {
    Trip(q.myLng, q.myLat, q.placeLng, q.placeLat)
  }

  function PartnerTrip(q: Question): Trip
  {
    Trip(q.partnerLng, q.partnerLat, q.placeLng, q.placeLat)
  }

  function Departure(q: Question, totalTime: int): string
  {
    IsoText(q.appointmentAt - totalTime * MS_PER_SECOND)
  }

  function Extract(body: Body): Result<Itinerary, Error>
  {
    match body.first
    case NoItinerary => Failure(NoRouteFound)
    case NullItinerary => Failure(Crashed)
    case First(itinerary) => Success(itinerary)
  }

  /** The couple route made of two provider answers. */
  function Compose(s: Setup, q: Question, mine: Body, partners: Body, now: int): Result<Response, Error>
  {
    match Extract(mine)
    case Failure(e) => Failure(e)
    case Success(my) =>
      match Extract(partners)
      case Failure(e) => Failure(e)
      case Success(their) =>
        var meeting :=
          match Meetup(s.geo, Extracted(s.geo, my.legs), Extracted(s.geo, their.legs))
          case Some(m) => Some(Meeting(m.station.name, m.station.lat, m.station.lng, Departure(q, their.totalTime)))
          case None => None;
        Success(Response(meeting, Departure(q, my.totalTime), my.totalTime, my.transferCount, my.legs, now))
  }

  // ----- What the stores hold -----

  /** The answer is for this trip, and the time it was asked for lies in this bucket. */
  predicate Fits(a: Answer, ask: Ask)
    requires ask.minutes >= 1
  {
    && a.trip == ask.trip
    && BaseTime(a.asked, a.arrival).Success?
    && BucketStart(BaseTime(a.asked, a.arrival).value, ask.minutes) == ask.start
  }

  /** The body was answered for this question at or after `from`. */
  ghost predicate Answered(answers: set<Answer>, ask: Ask, body: Body, from: int)
    requires ask.minutes >= 1
  {
    exists a :: a in answers && Fits(a, ask) && a.body == body && from <= a.at
  }

  /** What a couple's question asks the provider for one trip; the present does not matter. */
  function TripAsk(s: Setup, q: Question, trip: Trip): (r: Result<Ask, Error>)
    ensures r.Success? ==> r.value.minutes >= 1
    ensures forall now :: r == AskOf(s, now, trip, Some(FormatTmapDateTime(q.appointmentAt)), None)
  {
    AskOf(s, 0, trip, Some(FormatTmapDateTime(q.appointmentAt)), None)
  }

  /** How old the answer behind a single route can get while Redis holds it. */
  function InnerTtl(s: Setup): int
  {
    TtlMax(s) * MS_PER_SECOND
  }

  /**
    The route is composed of answers for the question's two trips, fresh enough when it was
    made.  Here and below, `lag` is the longest a request may take from its start to its end.
    */
  ghost predicate Composed(s: Setup, lag: nat, answers: set<Answer>, q: Question, r: Response)
  {
    && TripAsk(s, q, MyTrip(q)).Success?
    && TripAsk(s, q, PartnerTrip(q)).Success?
    && exists mine, partners ::
         && Compose(s, q, mine, partners, r.cachedAt) == Success(r)
         && Answered(answers, TripAsk(s, q, MyTrip(q)).value, mine, r.cachedAt - InnerTtl(s) - 2 * lag + 1)
         && Answered(answers, TripAsk(s, q, PartnerTrip(q)).value, partners, r.cachedAt - InnerTtl(s) - 2 * lag + 1)
  }

  ghost predicate SingleSound(s: Setup, lag: nat, answers: set<Answer>, ask: Ask, slot: Slot)
    requires ask.minutes >= 1
  {
    slot.value.SingleRoute? && Answered(answers, ask, slot.value.body, slot.expiry - InnerTtl(s) - lag)
  }

  ghost predicate CoupleSound(s: Setup, lag: nat, answers: set<Answer>, q: Question, slot: Slot)
  {
    && slot.value.CoupleRoute?
    && Composed(s, lag, answers, q, slot.value.response)
    && slot.expiry <= slot.value.response.cachedAt + DB_TTL + REDIS_TTL + 2 * lag
  }

  ghost predicate RowSound(s: Setup, lag: nat, answers: set<Answer>, q: Question, row: Row)
  {
    && Composed(s, lag, answers, q, row.response)
    && row.eventId == q.eventId
    && row.expiresAt <= row.response.cachedAt + DB_TTL + lag
  }

  /** Every entry, whoever left it and whether or not it was invalidated, is right for its key. */
  ghost predicate Sound(s: Setup, lag: nat, st: Stores)
  {
    && (forall ask: Ask :: ask.minutes >= 1 && InnerKey(s, ask) in st.redis ==>
          SingleSound(s, lag, st.answers, ask, st.redis[InnerKey(s, ask)]))
    && (forall q: Question :: Plain(q) && OuterKey(s, q) in st.redis ==>
          CoupleSound(s, lag, st.answers, q, st.redis[OuterKey(s, q)]))
    && (forall q: Question :: Plain(q) && OuterKey(s, q) in st.rows ==>
          RowSound(s, lag, st.answers, q, st.rows[OuterKey(s, q)]))
  }

  lemma AnsweredGrows(answers: set<Answer>, more: set<Answer>, ask: Ask, body: Body, from: int, later: int)
    requires ask.minutes >= 1 && answers <= more && later <= from && Answered(answers, ask, body, from)
    ensures Answered(more, ask, body, later)
  {}

  lemma ComposedGrows(s: Setup, lag: nat, answers: set<Answer>, more: set<Answer>, q: Question, r: Response)
    requires answers <= more && Composed(s, lag, answers, q, r)
    ensures Composed(s, lag, more, q, r)
  {
    hide Answered, Compose;
    var x, y := TripAsk(s, q, MyTrip(q)).value, TripAsk(s, q, PartnerTrip(q)).value;
    var from := r.cachedAt - InnerTtl(s) - 2 * lag + 1;
    var mine, partners :|
      && Compose(s, q, mine, partners, r.cachedAt) == Success(r)
      && Answered(answers, x, mine, from)
      && Answered(answers, y, partners, from);
    AnsweredGrows(answers, more, x, mine, from, from);
    AnsweredGrows(answers, more, y, partners, from, from);
  }

  /** More answers and fewer entries keep every entry right. */
  lemma SoundShrinks(s: Setup, lag: nat, st: Stores, after: Stores)
    requires Sound(s, lag, st) && st.answers <= after.answers
    requires forall k :: k in after.redis ==> k in st.redis && after.redis[k] == st.redis[k]
    requires forall k :: k in after.rows ==> k in st.rows && after.rows[k] == st.rows[k]
    ensures Sound(s, lag, after)
  {
    hide Composed, InnerKey, OuterKey, Plain, Answered;
    forall ask: Ask | ask.minutes >= 1 && InnerKey(s, ask) in after.redis
      ensures SingleSound(s, lag, after.answers, ask, after.redis[InnerKey(s, ask)])
    {
      var slot := st.redis[InnerKey(s, ask)];
      var from := slot.expiry - InnerTtl(s) - lag;
      AnsweredGrows(st.answers, after.answers, ask, slot.value.body, from, from);
    }
    forall q: Question | Plain(q) && OuterKey(s, q) in after.redis
      ensures CoupleSound(s, lag, after.answers, q, after.redis[OuterKey(s, q)])
    {
      ComposedGrows(s, lag, st.answers, after.answers, q, st.redis[OuterKey(s, q)].value.response);
    }
    forall q: Question | Plain(q) && OuterKey(s, q) in after.rows
      ensures RowSound(s, lag, after.answers, q, after.rows[OuterKey(s, q)])
    {
      ComposedGrows(s, lag, st.answers, after.answers, q, st.rows[OuterKey(s, q)].response);
    }
  }

  lemma PutSingleKeepsSound(s: Setup, lag: nat, st: Stores, ask: Ask, slot: Slot)
    requires ValidSetup(s) && Sound(s, lag, st) && ask.minutes >= 1 && SingleSound(s, lag, st.answers, ask, slot)
    ensures Sound(s, lag, st.(redis := st.redis[InnerKey(s, ask) := slot]))
  {
    hide Composed, InnerKey, OuterKey, Plain, SingleSound, CoupleSound, RowSound, ValidSetup;
    var after := st.(redis := st.redis[InnerKey(s, ask) := slot]);
    forall other: Ask | other.minutes >= 1 && InnerKey(s, other) in after.redis
      ensures SingleSound(s, lag, after.answers, other, after.redis[InnerKey(s, other)])
    {
      if InnerKey(s, other) == InnerKey(s, ask) {
        InnerKeyIdentifies(s, other, ask);
      }
    }
    forall q: Question | Plain(q) && OuterKey(s, q) in after.redis
      ensures CoupleSound(s, lag, after.answers, q, after.redis[OuterKey(s, q)])
    {
      KeysAreApart(s, q, ask);
    }
  }

  lemma PutCoupleKeepsSound(s: Setup, lag: nat, st: Stores, q: Question, slot: Slot)
    requires ValidSetup(s) && Sound(s, lag, st) && Plain(q) && CoupleSound(s, lag, st.answers, q, slot)
    ensures Sound(s, lag, st.(redis := st.redis[OuterKey(s, q) := slot]))
  {
    hide Composed, InnerKey, OuterKey, Plain, SingleSound, CoupleSound, RowSound, ValidSetup;
    var after := st.(redis := st.redis[OuterKey(s, q) := slot]);
    forall p: Question | Plain(p) && OuterKey(s, p) in after.redis
      ensures CoupleSound(s, lag, after.answers, p, after.redis[OuterKey(s, p)])
    {
      if OuterKey(s, p) == OuterKey(s, q) {
        OuterKeyIdentifies(s, p, q);
      }
    }
    forall ask: Ask | ask.minutes >= 1 && InnerKey(s, ask) in after.redis
      ensures SingleSound(s, lag, after.answers, ask, after.redis[InnerKey(s, ask)])
    {
      KeysAreApart(s, q, ask);
    }
  }

  lemma PutRowKeepsSound(s: Setup, lag: nat, st: Stores, q: Question, row: Row)
    requires ValidSetup(s) && Sound(s, lag, st) && Plain(q) && RowSound(s, lag, st.answers, q, row)
    ensures Sound(s, lag, st.(rows := st.rows[OuterKey(s, q) := row]))
  {
    hide Composed, InnerKey, OuterKey, Plain, SingleSound, CoupleSound, RowSound, ValidSetup;
    var after := st.(rows := st.rows[OuterKey(s, q) := row]);
    forall p: Question | Plain(p) && OuterKey(s, p) in after.rows
      ensures RowSound(s, lag, after.answers, p, after.rows[OuterKey(s, p)])
    {
      if OuterKey(s, p) == OuterKey(s, q) {
        OuterKeyIdentifies(s, p, q);
      }
    }
  }

  /** The right result of a fetch: the question's own error, a provider failure, or a recent answer. */
  ghost predicate GoodBody(answers: set<Answer>, asked: Result<Ask, Error>, r: Result<Body, Error>, from: int)
    requires asked.Success? ==> asked.value.minutes >= 1
  {
    match asked
    case Failure(e) => r == Failure(e)
    case Success(ask) =>
      match r
      case Failure(e) => e == ProviderFailed
      case Success(body) => Answered(answers, ask, body, from)
  }

  /** The cache is no help with this question: its read fails, or it holds no live body that counts as true. */
  predicate Unserved(s: Setup, st: Stores, ask: Ask, luck: Luck)
  {
    luck.readFails
    || match Live(st, InnerKey(s, ask))
       case Some(SingleRoute(body)) => !body.truthy
       case _ => true
  }

  /** A fetch reports a provider failure exactly when the provider was needed and gave no reply. */
  lemma FetchFailsIffSilent(s: Setup, st: Stores, trip: Trip, arrival: Option<string>, requested: Option<nat>,
                            luck: Luck)
    ensures var asked := AskOf(s, st.now, trip, arrival, requested);
            Fetch(s, st, trip, arrival, requested, luck).1 == Failure(ProviderFailed) <==>
              asked.Success? && luck.reply.NoReply? && Unserved(s, st, asked.value, luck)
  {
    hide InnerKey, BucketStart, ParseTmapDateTime;
  }

  lemma FetchedIsGood(s: Setup, lag: nat, st: Stores, trip: Trip, arrival: Option<string>, requested: Option<nat>,
                      luck: Luck)
    requires Sound(s, lag, st)
    ensures var (after, r) := Fetch(s, st, trip, arrival, requested, luck);
            && GoodBody(after.answers, AskOf(s, st.now, trip, arrival, requested), r, st.now - InnerTtl(s) - lag + 1)
            && (r == Failure(ProviderFailed) ==> luck.reply.NoReply?)
  {
    hide Composed, InnerKey, OuterKey, Plain, CoupleSound, RowSound, BucketStart;
    match AskOf(s, st.now, trip, arrival, requested)
    case Failure(_) =>
    case Success(ask) =>
      var (after, r) := Fetch(s, st, trip, arrival, requested, luck);
      var cached := if luck.readFails then None else Live(st, InnerKey(s, ask));
      if cached.Some? && cached.value.SingleRoute? && cached.value.body.truthy {
        var slot := st.redis[InnerKey(s, ask)];
        AnsweredGrows(st.answers, st.answers, ask, r.value, slot.expiry - InnerTtl(s) - lag,
                      st.now - InnerTtl(s) - lag + 1);
      } else if r.Success? {
        assert Answer(trip, arrival, st.now, r.value, st.now) in after.answers;
      }
  }

  lemma FetchKeepsSound(s: Setup, lag: nat, st: Stores, trip: Trip, arrival: Option<string>, requested: Option<nat>,
                        luck: Luck)
    requires ValidSetup(s) && Sound(s, lag, st) && FairTtl(s, luck)
    ensures Sound(s, lag, Fetch(s, st, trip, arrival, requested, luck).0)
  {
    hide Composed, InnerKey, OuterKey, Plain, CoupleSound, RowSound, BucketStart, ValidSetup, Sound;
    var (after, r) := Fetch(s, st, trip, arrival, requested, luck);
    if after != st {
      var ask := AskOf(s, st.now, trip, arrival, requested).value;
      var body := luck.reply.body;
      var answer := Answer(trip, arrival, st.now, body, st.now);
      var heard := st.(answers := st.answers + {answer});
      SoundShrinks(s, lag, st, heard);
      assert answer in heard.answers;
      if !luck.writeFails {
        var slot := Slot(SingleRoute(body), st.now + luck.ttl * MS_PER_SECOND);
        assert SingleSound(s, lag, heard.answers, ask, slot);
        PutSingleKeepsSound(s, lag, heard, ask, slot);
      }
    }
  }

  /** A fetch touches no couple route. */
  lemma FetchLeavesCouples(s: Setup, st: Stores, trip: Trip, arrival: Option<string>, requested: Option<nat>,
                           luck: Luck, q: Question)
    ensures var after := Fetch(s, st, trip, arrival, requested, luck).0;
            && after.now == st.now && after.rows == st.rows && st.answers <= after.answers
            && (OuterKey(s, q) in after.redis <==> OuterKey(s, q) in st.redis)
            && (OuterKey(s, q) in st.redis ==> after.redis[OuterKey(s, q)] == st.redis[OuterKey(s, q)])
  {
    hide InnerKey, OuterKey, AskOf;
    match AskOf(s, st.now, trip, arrival, requested)
    case Failure(_) =>
    case Success(ask) => KeysAreApart(s, q, ask);
  }
}
