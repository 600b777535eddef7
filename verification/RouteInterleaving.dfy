/**
  Couple routes when requests overlap: every store call, provider call and read of the tables
  is a step of its own, steps of any number of requests interleave, and edits may change the
  tables and drop cache entries between any two of them.  A request returns or stops within `lag`;
  once it has, any time may pass.
  */
module RouteInterleaving {
  import opened Common
  import opened CacheKeys
  import opened TmapDateTime
  import opened RouteStores
  import opened CoupleRoutes

  /** One fetch under way: before its cache read, before its call, before its cache write, done. */
  datatype Leg = ToRead | ToCall | ToWrite(body: Body) | Got(result: Result<Body, Error>)

  datatype Flight =
    | Arrived(eventId: string, userId: string, force: bool)
    | HasEvent(eventId: string, userId: string, force: bool, event: Event)
    | ReadsRedis(q: Question, userId: string)
    | ReadsRow(q: Question, userId: string)
    | Refills(q: Question, userId: string, data: Response)
    | Fetches(q: Question, userId: string, mine: Leg, partners: Leg)
    | SavesRedis(q: Question, userId: string, data: Response)
    | SavesRow(q: Question, userId: string, data: Response)
    | Single(trip: Trip, arrival: Option<string>, requested: Option<nat>, asked: int, leg: Leg)
    | Ended(about: Option<Question>, outcome: Result<Response, Error>)

  /** The request has returned: a direct route request with its one fetch, an analysis with its outcome. */
  predicate Over(f: Flight)
  {
    f.Ended? || (f.Single? && f.leg.Got?)
  }

  /** A step's luck: whether its store call fails, which fetch moves, what the provider says. */
  datatype Turn = Turn(fails: bool, mine: bool, reply: Reply, ttl: int)

  predicate Fair(s: Setup, t: Turn)
  {
    TtlMin(s) <= t.ttl <= TtlMax(s)
  }

  // ----- Steps -----

  function StepLeg(s: Setup, st: Stores, ask: Ask, arrival: Option<string>, asked: int, leg: Leg, t: Turn)
    : (Stores, Leg)
  {
    match leg
    case ToRead =>
      var cached := if t.fails then None else Live(st, InnerKey(s, ask));
      (st, if cached.Some? && cached.value.SingleRoute? && cached.value.body.truthy
           then Got(Success(cached.value.body)) else ToCall)
    case ToCall =>
      (match t.reply
       case NoReply => (st, Got(Failure(ProviderFailed)))
       case Reply(body) => (st.(answers := st.answers + {Answer(ask.trip, arrival, asked, body, st.now)}),
                            ToWrite(body)))
    case ToWrite(body) =>
      (if t.fails then st else Put(st, InnerKey(s, ask), SingleRoute(body), t.ttl * MS_PER_SECOND), Got(Success(body)))
    case Got(_) => (st, leg)
  }

  /** A fetch begins by working out its bucket, which may fail at once. */
  function FirstLeg(asked: Result<Ask, Error>): Leg
  {
    if asked.Failure? then Got(Failure(asked.error)) else ToRead
  }

  function StartFetches(s: Setup, q: Question, userId: string): Flight
  {
    Fetches(q, userId, FirstLeg(TripAsk(s, q, MyTrip(q))), FirstLeg(TripAsk(s, q, PartnerTrip(q))))
  }

  function StepFetches(s: Setup, st: Stores, f: Flight, t: Turn): (Stores, Flight)
    requires f.Fetches?
  {
    var arrival := Some(FormatTmapDateTime(f.q.appointmentAt));
    if f.mine.Got? && f.partners.Got? then
      match Combine(s, f.q, f.mine.result, f.partners.result, st.now)
      case Failure(e) => (st, Ended(Some(f.q), Failure(e)))
      case Success(r) => (st, SavesRedis(f.q, f.userId, r))
    else if t.mine && TripAsk(s, f.q, MyTrip(f.q)).Success? then
      var (after, leg) := StepLeg(s, st, TripAsk(s, f.q, MyTrip(f.q)).value, arrival, st.now, f.mine, t);
      (after, f.(mine := leg))
    else if !t.mine && TripAsk(s, f.q, PartnerTrip(f.q)).Success? then
      var (after, leg) := StepLeg(s, st, TripAsk(s, f.q, PartnerTrip(f.q)).value, arrival, st.now, f.partners, t);
      (after, f.(partners := leg))
    else (st, f)
  }

  function Step(s: Setup, w: World, f: Flight, t: Turn): (Stores, Flight)
  {
    var st := w.stores;
    match f
    case Arrived(e, u, force) =>
      (st, if e !in w.events then Ended(None, Failure(EventNotFound)) else HasEvent(e, u, force, w.events[e]))
    case HasEvent(e, u, force, event) =>
      (st, match AskAbout(w, e, event, u)
           case Failure(error) => Ended(None, Failure(error))
           case Success(q) => if force then StartFetches(s, q, u) else ReadsRedis(q, u))
    case ReadsRedis(q, u) =>
      var cached := if t.fails then None else Live(st, OuterKey(s, q));
      (st,
       if cached.Some? && cached.value.CoupleRoute? then Ended(Some(q), Success(cached.value.response))
       else ReadsRow(q, u))
    case ReadsRow(q, u) =>
      var k := OuterKey(s, q);
      (st, if !t.fails && k in st.rows && st.rows[k].eventId == q.eventId && st.rows[k].userId == u
              && st.now < st.rows[k].expiresAt
           then Refills(q, u, st.rows[k].response) else StartFetches(s, q, u))
    case Refills(q, _, data) =>
      (if t.fails then st else Put(st, OuterKey(s, q), CoupleRoute(data), REDIS_TTL), Ended(Some(q), Success(data)))
    case Fetches(_, _, _, _) => StepFetches(s, st, f, t)
    case SavesRedis(q, u, data) =>
      (if t.fails then st else Put(st, OuterKey(s, q), CoupleRoute(data), REDIS_TTL), SavesRow(q, u, data))
    case SavesRow(q, u, data) =>
      var k := OuterKey(s, q);
      var row := if k in st.rows then st.rows[k].(response := data, expiresAt := st.now + DB_TTL)
                 else Row(q.eventId, u, data, st.now + DB_TTL);
      (if t.fails || q.eventId !in w.events then st else st.(rows := st.rows[k := row]), Ended(Some(q), Success(data)))
    case Single(trip, arrival, requested, asked, leg) =>
      (match AskOf(s, asked, trip, arrival, requested)
       case Failure(_) => (st, f)
       case Success(ask) =>
         var (after, next) := StepLeg(s, st, ask, arrival, asked, leg, t);
         (after, f.(leg := next)))
    case Ended(_, _) => (st, f)
  }

  // ----- What a request knows -----

  /** What is known of a fetch that belongs to a request started at `started`. */
  ghost predicate LegKnown(s: Setup, lag: nat, answers: set<Answer>, asked: Result<Ask, Error>, leg: Leg, started: int)
    requires asked.Success? ==> asked.value.minutes >= 1
  {
    match asked
    case Failure(e) => leg == Got(Failure(e))
    case Success(ask) =>
      match leg
      case ToWrite(body) => Answered(answers, ask, body, started)
      case Got(r) => GoodBody(answers, asked, r, started - InnerTtl(s) - lag + 1)
      case _ => true
  }

  /** From when on an answer may be served to a request started at `started`. */
  function Earliest(s: Setup, lag: nat, started: int): int
  {
    started - DB_TTL - REDIS_TTL - InnerTtl(s) - 4 * lag + 1
  }

  ghost predicate Known(s: Setup, lag: nat, answers: set<Answer>, f: Flight, started: int)
  {
    match f
    case Arrived(_, _, _) => true
    case HasEvent(e, _, _, _) => ColonFree(e)
    case ReadsRedis(q, _) => Plain(q)
    case ReadsRow(q, _) => Plain(q)
    case Refills(q, _, data) => Plain(q) && Composed(s, lag, answers, q, data) && started < data.cachedAt + DB_TTL + lag
    case Fetches(q, _, mine, partners) =>
      && Plain(q)
      && LegKnown(s, lag, answers, TripAsk(s, q, MyTrip(q)), mine, started)
      && LegKnown(s, lag, answers, TripAsk(s, q, PartnerTrip(q)), partners, started)
    case SavesRedis(q, _, data) => Plain(q) && Composed(s, lag, answers, q, data) && started <= data.cachedAt
    case SavesRow(q, _, data) => Plain(q) && Composed(s, lag, answers, q, data) && started <= data.cachedAt
    case Single(trip, arrival, requested, asked, leg) =>
      LegKnown(s, lag, answers, AskOf(s, asked, trip, arrival, requested), leg, started)
    case Ended(None, r) => r.Failure?
    case Ended(Some(q), r) => Uncached(s, answers, q, r, Earliest(s, lag, started))
  }

  /** Ids of events contain no colon. */
  ghost predicate PlainIds(w: World)
  {
    forall e :: e in w.events ==> ColonFree(e)
  }

  // ----- One step keeps what is stored and what is known -----

  lemma LegKeeps(s: Setup, lag: nat, st: Stores, ask: Ask, arrival: Option<string>, asked: int, leg: Leg, t: Turn,
                 started: int)
    requires ValidSetup(s) && Sound(s, lag, st) && Fair(s, t) && started <= st.now <= started + lag
    requires ask.minutes >= 1 && Fits(Answer(ask.trip, arrival, asked, Body(true, NoItinerary), 0), ask)
    requires LegKnown(s, lag, st.answers, Success(ask), leg, started)
    ensures var (after, next) := StepLeg(s, st, ask, arrival, asked, leg, t);
            && Sound(s, lag, after) && LegKnown(s, lag, after.answers, Success(ask), next, started)
            && st.answers <= after.answers
  {
    hide Composed, InnerKey, OuterKey, Plain, CoupleSound, RowSound, BucketStart, ValidSetup;
    match leg
    case ToRead =>
      var k := InnerKey(s, ask);
      if !t.fails && k in st.redis && st.now < st.redis[k].expiry {
        var slot := st.redis[k];
        AnsweredGrows(st.answers, st.answers, ask, slot.value.body, slot.expiry - InnerTtl(s) - lag,
                      started - InnerTtl(s) - lag + 1);
      }
    case ToCall =>
      if t.reply.Reply? {
        var answer := Answer(ask.trip, arrival, asked, t.reply.body, st.now);
        var heard := st.(answers := st.answers + {answer});
        assert answer in heard.answers && Fits(answer, ask);
        SoundShrinks(s, lag, st, heard);
      }
    case ToWrite(body) =>
      var slot := Slot(SingleRoute(body), st.now + t.ttl * MS_PER_SECOND);
      AnsweredGrows(st.answers, st.answers, ask, body, started, slot.expiry - InnerTtl(s) - lag);
      AnsweredGrows(st.answers, st.answers, ask, body, started, started - InnerTtl(s) - lag + 1);
      if !t.fails {
        PutSingleKeepsSound(s, lag, st, ask, slot);
      }
    case Got(_) =>
  }

  lemma LegKnownGrows(s: Setup, lag: nat, answers: set<Answer>, more: set<Answer>, asked: Result<Ask, Error>, leg: Leg,
                      started: int)
    requires answers <= more && (asked.Success? ==> asked.value.minutes >= 1)
    requires LegKnown(s, lag, answers, asked, leg, started)
    ensures LegKnown(s, lag, more, asked, leg, started)
  {}

  lemma UncachedGrows(s: Setup, answers: set<Answer>, more: set<Answer>, q: Question, r: Result<Response, Error>,
                      from: int)
    requires answers <= more && Uncached(s, answers, q, r, from)
    ensures Uncached(s, more, q, r, from)
  {
    hide Answered, Compose, TripAsk, MyTrip, PartnerTrip;
    TripsFailAlike(s, q);
    if TripAsk(s, q, MyTrip(q)).Success? && r != Failure(ProviderFailed) {
      var x, y := TripAsk(s, q, MyTrip(q)).value, TripAsk(s, q, PartnerTrip(q)).value;
      var mine, partners, now :|
        && r == Compose(s, q, mine, partners, now)
        && Answered(answers, x, mine, from) && Answered(answers, y, partners, from);
      AnsweredGrows(answers, more, x, mine, from, from);
      AnsweredGrows(answers, more, y, partners, from, from);
    }
  }

  /** What is known stays known as the provider answers more. */
  lemma KnownGrows(s: Setup, lag: nat, answers: set<Answer>, more: set<Answer>, f: Flight, started: int)
    requires answers <= more && Known(s, lag, answers, f, started)
    ensures Known(s, lag, more, f, started)
  {
    hide Composed, LegKnown, Uncached, TripAsk, AskOf, Plain;
    match f
    case Refills(q, _, data) => ComposedGrows(s, lag, answers, more, q, data);
    case Fetches(q, _, mine, partners) =>
      LegKnownGrows(s, lag, answers, more, TripAsk(s, q, MyTrip(q)), mine, started);
      LegKnownGrows(s, lag, answers, more, TripAsk(s, q, PartnerTrip(q)), partners, started);
    case SavesRedis(q, _, data) => ComposedGrows(s, lag, answers, more, q, data);
    case SavesRow(q, _, data) => ComposedGrows(s, lag, answers, more, q, data);
    case Single(trip, arrival, requested, asked, leg) =>
      LegKnownGrows(s, lag, answers, more, AskOf(s, asked, trip, arrival, requested), leg, started);
    case Ended(Some(q), r) => UncachedGrows(s, answers, more, q, r, Earliest(s, lag, started));
    case _ =>
  }

  /** What a step must keep. */
  ghost predicate StepGood(s: Setup, lag: nat, st: Stores, after: Stores, f: Flight, started: int)
  {
    Sound(s, lag, after) && st.answers <= after.answers && Known(s, lag, after.answers, f, started)
  }

  lemma StartIsKnown(s: Setup, lag: nat, answers: set<Answer>, q: Question, userId: string, started: int)
    requires Plain(q)
    ensures Known(s, lag, answers, StartFetches(s, q, userId), started)
  {}

  lemma AskFits(s: Setup, now: int, trip: Trip, arrival: Option<string>, requested: Option<nat>)
    requires AskOf(s, now, trip, arrival, requested).Success?
    ensures var ask := AskOf(s, now, trip, arrival, requested).value;
            ask.trip == trip && Fits(Answer(trip, arrival, now, Body(true, NoItinerary), 0), ask)
  {}

  lemma LegIsGood(s: Setup, lag: nat, answers: set<Answer>, asked: Result<Ask, Error>, leg: Leg, started: int,
                  from: int)
    requires asked.Success? ==> asked.value.minutes >= 1
    requires LegKnown(s, lag, answers, asked, leg, started) && leg.Got? && from <= started - InnerTtl(s) - lag + 1
    ensures GoodBody(answers, asked, leg.result, from)
  {}

  lemma CombineKeeps(s: Setup, lag: nat, st: Stores, f: Flight, t: Turn, started: int)
    requires Sound(s, lag, st) && f.Fetches? && Known(s, lag, st.answers, f, started)
    requires started <= st.now <= started + lag && f.mine.Got? && f.partners.Got?
    ensures var (after, next) := StepFetches(s, st, f, t); StepGood(s, lag, st, after, next, started)
  {
    hide Sound, TripAsk, GoodBody, Combine, Uncached, Composed, LegKnown, Plain, FormatTmapDateTime, StepLeg;
    var q, from := f.q, st.now - InnerTtl(s) - 2 * lag + 1;
    LegIsGood(s, lag, st.answers, TripAsk(s, q, MyTrip(q)), f.mine, started, from);
    LegIsGood(s, lag, st.answers, TripAsk(s, q, PartnerTrip(q)), f.partners, started, from);
    CombineIsUncached(s, lag, st.answers, q, f.mine.result, f.partners.result, st.now, from);
    UncachedWeakens(s, st.answers, q, Combine(s, q, f.mine.result, f.partners.result, st.now), from,
                    Earliest(s, lag, started));
  }

  lemma FetchesKeep(s: Setup, lag: nat, st: Stores, f: Flight, t: Turn, started: int)
    requires ValidSetup(s) && Sound(s, lag, st) && Fair(s, t) && f.Fetches? && Known(s, lag, st.answers, f, started)
    requires started <= st.now <= started + lag
    ensures var (after, next) := StepFetches(s, st, f, t); StepGood(s, lag, st, after, next, started)
  {
    if f.mine.Got? && f.partners.Got? {
      CombineKeeps(s, lag, st, f, t, started);
    } else {
      var trip := if t.mine then MyTrip(f.q) else PartnerTrip(f.q);
      var leg := if t.mine then f.mine else f.partners;
      if TripAsk(s, f.q, trip).Success? {
        MoveLeg(s, lag, st, f, trip, leg, t, started);
      }
    }
  }

  lemma MoveLeg(s: Setup, lag: nat, st: Stores, f: Flight, trip: Trip, leg: Leg, t: Turn, started: int)
    requires ValidSetup(s) && Sound(s, lag, st) && Fair(s, t) && f.Fetches? && Known(s, lag, st.answers, f, started)
    requires started <= st.now <= started + lag && !(f.mine.Got? && f.partners.Got?)
    requires trip == if t.mine then MyTrip(f.q) else PartnerTrip(f.q)
    requires leg == if t.mine then f.mine else f.partners
    requires TripAsk(s, f.q, trip).Success?
    ensures var (after, next) := StepFetches(s, st, f, t); StepGood(s, lag, st, after, next, started)
  {
    var arrival := Some(FormatTmapDateTime(f.q.appointmentAt));
    var ask := TripAsk(s, f.q, trip).value;
    assert TripAsk(s, f.q, trip) == AskOf(s, st.now, trip, arrival, None);
    AskFits(s, st.now, trip, arrival, None);
    LegKeeps(s, lag, st, ask, arrival, st.now, leg, t, started);
    var (after, _) := StepLeg(s, st, ask, arrival, st.now, leg, t);
    hide TripAsk, AskOf, Sound, ValidSetup, StepLeg, Fits, FormatTmapDateTime, Plain;
    LegKnownGrows(s, lag, st.answers, after.answers, TripAsk(s, f.q, MyTrip(f.q)), f.mine, started);
    LegKnownGrows(s, lag, st.answers, after.answers, TripAsk(s, f.q, PartnerTrip(f.q)), f.partners, started);
    hide LegKnown;
  }

  lemma ReadRedisKeeps(s: Setup, lag: nat, w: World, q: Question, userId: string, t: Turn, started: int)
    requires Sound(s, lag, w.stores) && Plain(q) && started <= w.stores.now
    ensures var (after, next) := Step(s, w, ReadsRedis(q, userId), t); StepGood(s, lag, w.stores, after, next, started)
  {
    hide Composed, OuterKey, InnerKey, Plain, SingleSound, RowSound, Uncached;
    var st, k := w.stores, OuterKey(s, q);
    if !t.fails && k in st.redis && st.now < st.redis[k].expiry {
      ComposedIsUncached(s, lag, st.answers, q, st.redis[k].value.response, Earliest(s, lag, started));
    }
  }

  lemma ReadRowKeeps(s: Setup, lag: nat, w: World, q: Question, userId: string, t: Turn, started: int)
    requires Sound(s, lag, w.stores) && Plain(q) && started <= w.stores.now
    ensures var (after, next) := Step(s, w, ReadsRow(q, userId), t); StepGood(s, lag, w.stores, after, next, started)
  {
    hide Composed, OuterKey, InnerKey, Plain, SingleSound, CoupleSound;
    StartIsKnown(s, lag, w.stores.answers, q, userId, started);
    hide StartFetches, LegKnown;
  }

  lemma RefillKeeps(s: Setup, lag: nat, w: World, q: Question, userId: string, data: Response, t: Turn, started: int)
    requires ValidSetup(s) && Sound(s, lag, w.stores) && w.stores.now <= started + lag
    requires Known(s, lag, w.stores.answers, Refills(q, userId, data), started)
    ensures var (after, next) := Step(s, w, Refills(q, userId, data), t);
            StepGood(s, lag, w.stores, after, next, started)
  {
    hide Composed, OuterKey, InnerKey, Plain, SingleSound, RowSound, Sound, ValidSetup, Uncached;
    PutCoupleKeepsSound(s, lag, w.stores, q, Slot(CoupleRoute(data), w.stores.now + REDIS_TTL));
    ComposedIsUncached(s, lag, w.stores.answers, q, data, Earliest(s, lag, started));
  }

  lemma SaveRedisKeeps(s: Setup, lag: nat, w: World, q: Question, userId: string, data: Response, t: Turn, started: int)
    requires ValidSetup(s) && Sound(s, lag, w.stores) && w.stores.now <= started + lag
    requires Known(s, lag, w.stores.answers, SavesRedis(q, userId, data), started)
    ensures var (after, next) := Step(s, w, SavesRedis(q, userId, data), t);
            StepGood(s, lag, w.stores, after, next, started)
  {
    hide Composed, OuterKey, InnerKey, Plain, SingleSound, RowSound, Sound, ValidSetup, Uncached;
    PutCoupleKeepsSound(s, lag, w.stores, q, Slot(CoupleRoute(data), w.stores.now + REDIS_TTL));
  }

  lemma RowIsOwn(s: Setup, lag: nat, st: Stores, q: Question)
    requires Sound(s, lag, st) && Plain(q)
    ensures OuterKey(s, q) in st.rows ==> st.rows[OuterKey(s, q)].eventId == q.eventId
  {
    hide Composed, OuterKey, InnerKey, Plain, SingleSound, CoupleSound;
  }

  lemma SaveRowKeeps(s: Setup, lag: nat, w: World, q: Question, userId: string, data: Response, t: Turn, started: int)
    requires ValidSetup(s) && Sound(s, lag, w.stores) && w.stores.now <= started + lag
    requires Known(s, lag, w.stores.answers, SavesRow(q, userId, data), started)
    ensures var (after, next) := Step(s, w, SavesRow(q, userId, data), t);
            StepGood(s, lag, w.stores, after, next, started)
  {
    hide Composed, OuterKey, InnerKey, Plain, SingleSound, CoupleSound, Sound, ValidSetup, Uncached;
    var st, k := w.stores, OuterKey(s, q);
    RowIsOwn(s, lag, st, q);
    PutRowKeepsSound(s, lag, st, q, if k in st.rows then st.rows[k].(response := data, expiresAt := st.now + DB_TTL)
                                    else Row(q.eventId, userId, data, st.now + DB_TTL));
    ComposedIsUncached(s, lag, st.answers, q, data, Earliest(s, lag, started));
  }

  lemma ReadTablesKeeps(s: Setup, lag: nat, w: World, f: Flight, t: Turn, started: int)
    requires Sound(s, lag, w.stores) && PlainIds(w) && (f.Arrived? || f.HasEvent?)
    requires Known(s, lag, w.stores.answers, f, started)
    ensures var (after, next) := Step(s, w, f, t); StepGood(s, lag, w.stores, after, next, started)
  {
    hide Sound, ColonFree;
    if f.HasEvent? && AskAbout(w, f.eventId, f.event, f.userId).Success? {
      var q := AskAbout(w, f.eventId, f.event, f.userId).value;
      assert Plain(q);
      StartIsKnown(s, lag, w.stores.answers, q, f.userId, started);
      hide StartFetches, AskAbout, LegKnown;
    }
  }

  lemma SingleKeeps(s: Setup, lag: nat, w: World, f: Flight, t: Turn, started: int)
    requires ValidSetup(s) && Sound(s, lag, w.stores) && Fair(s, t) && f.Single?
    requires started <= w.stores.now <= started + lag && Known(s, lag, w.stores.answers, f, started)
    ensures var (after, next) := Step(s, w, f, t); StepGood(s, lag, w.stores, after, next, started)
  {
    var asked := AskOf(s, f.asked, f.trip, f.arrival, f.requested);
    if asked.Success? {
      AskFits(s, f.asked, f.trip, f.arrival, f.requested);
      hide AskOf, Sound, ValidSetup, StepLeg, Fits;
      LegKeeps(s, lag, w.stores, asked.value, f.arrival, f.asked, f.leg, t, started);
      hide LegKnown;
    }
  }

  lemma StepKeeps(s: Setup, lag: nat, w: World, f: Flight, t: Turn, started: int)
    requires ValidSetup(s) && Sound(s, lag, w.stores) && PlainIds(w) && Fair(s, t)
    requires started <= w.stores.now && (!Over(f) ==> w.stores.now <= started + lag)
    requires Known(s, lag, w.stores.answers, f, started)
    ensures var (after, next) := Step(s, w, f, t); StepGood(s, lag, w.stores, after, next, started)
  {
    match f
    case Arrived(_, _, _) => ReadTablesKeeps(s, lag, w, f, t, started);
    case HasEvent(_, _, _, _) => ReadTablesKeeps(s, lag, w, f, t, started);
    case ReadsRedis(q, u) => ReadRedisKeeps(s, lag, w, q, u, t, started);
    case ReadsRow(q, u) => ReadRowKeeps(s, lag, w, q, u, t, started);
    case Refills(q, u, data) => RefillKeeps(s, lag, w, q, u, data, t, started);
    case Fetches(_, _, _, _) => FetchesKeep(s, lag, w.stores, f, t, started);
    case SavesRedis(q, u, data) => SaveRedisKeeps(s, lag, w, q, u, data, t, started);
    case SavesRow(q, u, data) => SaveRowKeeps(s, lag, w, q, u, data, t, started);
    case Single(_, _, _, _, _) =>
      if Over(f) {
        StepTakesNoTime(s, w, f, t);
      } else {
        SingleKeeps(s, lag, w, f, t, started);
      }
    case Ended(_, _) =>
  }

  // ----- All requests together -----

  datatype Running = Running(flight: Flight, started: int)

  datatype System = System(world: World, flights: map<nat, Running>)

  datatype Move =
    | Begin(id: nat, eventId: string, userId: string, force: bool)
    | BeginSingle(id: nat, trip: Trip, arrival: Option<string>, requested: Option<nat>)
    | Advance(id: nat, turn: Turn)
    | Edit(events: map<string, Event>, couples: map<string, (string, string)>, homes: map<string, Place>)
    | Quit(id: nat)
    | Drop(redisKeys: set<string>, rowKeys: set<string>)
    | Pass(ms: nat)

  /**
    Anything may happen between two steps of a request, but not for longer than it may take;
    a request may also stop anywhere.
    */
  ghost predicate May(s: Setup, lag: nat, y: System, e: Move)
  {
    match e
    case Begin(id, _, _, _) => id !in y.flights
    case BeginSingle(id, _, _, _) => id !in y.flights
    case Advance(id, t) => id in y.flights && Fair(s, t)
    case Edit(events, _, _) => forall i :: i in events ==> ColonFree(i)
    case Quit(_) => true
    case Drop(_, _) => true
    case Pass(ms) =>
      forall id :: id in y.flights && !Over(y.flights[id].flight) ==>
        y.world.stores.now + ms <= y.flights[id].started + lag
  }

  function Next(s: Setup, y: System, e: Move): System
    requires e.Advance? ==> e.id in y.flights
  {
    var st := y.world.stores;
    match e
    case Begin(id, eventId, userId, force) =>
      y.(flights := y.flights[id := Running(Arrived(eventId, userId, force), st.now)])
    case BeginSingle(id, trip, arrival, requested) =>
      var leg := FirstLeg(AskOf(s, st.now, trip, arrival, requested));
      y.(flights := y.flights[id := Running(Single(trip, arrival, requested, st.now, leg), st.now)])
    case Advance(id, t) =>
      var running := y.flights[id];
      var (after, next) := Step(s, y.world, running.flight, t);
      System(y.world.(stores := after), y.flights[id := running.(flight := next)])
    case Edit(events, couples, homes) => y.(world := y.world.(events := events, couples := couples, homes := homes))
    case Quit(id) => y.(flights := y.flights - {id})
    case Drop(redisKeys, rowKeys) =>
      y.(world := y.world.(stores := st.(redis := st.redis - redisKeys, rows := st.rows - rowKeys)))
    case Pass(ms) => y.(world := y.world.(stores := st.(now := st.now + ms)))
  }

  ghost predicate Exec(s: Setup, lag: nat, ys: seq<System>, es: seq<Move>)
  {
    && |ys| == |es| + 1
    && ys[0] == System(Empty(ys[0].world.stores.now), map[])
    && forall n {:trigger es[n]} :: 0 <= n < |es| ==> May(s, lag, ys[n], es[n]) && ys[n + 1] == Next(s, ys[n], es[n])
  }

  ghost predicate RunningKnown(s: Setup, lag: nat, st: Stores, r: Running)
  {
    && Known(s, lag, st.answers, r.flight, r.started)
    && r.started <= st.now && (!Over(r.flight) ==> st.now <= r.started + lag)
  }

  ghost predicate SystemInv(s: Setup, lag: nat, y: System)
  {
    && Sound(s, lag, y.world.stores) && PlainIds(y.world)
    && forall id :: id in y.flights ==> RunningKnown(s, lag, y.world.stores, y.flights[id])
  }

  lemma AdvanceKeeps(s: Setup, lag: nat, y: System, id: nat, t: Turn)
    requires ValidSetup(s) && SystemInv(s, lag, y) && id in y.flights && Fair(s, t)
    ensures SystemInv(s, lag, Next(s, y, Advance(id, t)))
  {
    hide Sound, Known, Step, ValidSetup, PlainIds;
    var running := y.flights[id];
    assert RunningKnown(s, lag, y.world.stores, running);
    StepKeeps(s, lag, y.world, running.flight, t, running.started);
    StepTakesNoTime(s, y.world, running.flight, t);
    var after := Next(s, y, Advance(id, t));
    SameTables(y.world, after.world);
    forall other | other in after.flights
      ensures RunningKnown(s, lag, after.world.stores, after.flights[other])
    {
      if other != id {
        assert RunningKnown(s, lag, y.world.stores, y.flights[other]);
        KnownGrows(s, lag, y.world.stores.answers, after.world.stores.answers, y.flights[other].flight,
                   y.flights[other].started);
      }
    }
  }

  lemma SameTables(w: World, after: World)
    requires PlainIds(w) && after.events == w.events
    ensures PlainIds(after)
  {}

  lemma StepTakesNoTime(s: Setup, w: World, f: Flight, t: Turn)
    ensures Step(s, w, f, t).0.now == w.stores.now
    ensures Over(f) ==> Step(s, w, f, t) == (w.stores, f)
  {
    hide AskOf, TripAsk, OuterKey, InnerKey, Combine, AskAbout, FormatTmapDateTime;
  }

  lemma BeginKeeps(s: Setup, lag: nat, y: System, id: nat, f: Flight)
    requires SystemInv(s, lag, y) && Known(s, lag, y.world.stores.answers, f, y.world.stores.now)
    ensures SystemInv(s, lag, y.(flights := y.flights[id := Running(f, y.world.stores.now)]))
  {}

  lemma FirstLegIsKnown(s: Setup, lag: nat, answers: set<Answer>, asked: Result<Ask, Error>, started: int)
    requires asked.Success? ==> asked.value.minutes >= 1
    ensures LegKnown(s, lag, answers, asked, FirstLeg(asked), started)
  {}

  lemma RestKeeps(s: Setup, lag: nat, y: System, e: Move)
    requires SystemInv(s, lag, y) && May(s, lag, y, e) && (e.Edit? || e.Quit? || e.Drop? || e.Pass?)
    ensures SystemInv(s, lag, Next(s, y, e))
  {}

  lemma NextKeeps(s: Setup, lag: nat, y: System, e: Move)
    requires ValidSetup(s) && SystemInv(s, lag, y) && May(s, lag, y, e)
    ensures SystemInv(s, lag, Next(s, y, e))
  {
    match e
    case Begin(id, eventId, userId, force) => BeginKeeps(s, lag, y, id, Arrived(eventId, userId, force));
    case BeginSingle(id, trip, arrival, requested) =>
      var now := y.world.stores.now;
      var asked := AskOf(s, now, trip, arrival, requested);
      FirstLegIsKnown(s, lag, y.world.stores.answers, asked, now);
      hide AskOf, LegKnown, SystemInv, FirstLeg;
      BeginKeeps(s, lag, y, id, Single(trip, arrival, requested, now, FirstLeg(asked)));
    case Advance(id, t) => AdvanceKeeps(s, lag, y, id, t);
    case _ => RestKeeps(s, lag, y, e);
  }

  lemma EmptyIsGood(s: Setup, lag: nat, now: int)
    ensures SystemInv(s, lag, System(Empty(now), map[]))
  {}

  lemma {:induction false} ExecKeepsInv(s: Setup, lag: nat, ys: seq<System>, es: seq<Move>, n: nat)
    requires ValidSetup(s) && Exec(s, lag, ys, es) && n <= |es|
    ensures SystemInv(s, lag, ys[n])
  {
    hide Next, SystemInv, ValidSetup;
    if n == 0 {
      EmptyIsGood(s, lag, ys[0].world.stores.now);
    } else {
      ExecKeepsInv(s, lag, ys, es, n - 1);
      assert ys[n - 1 + 1] == Next(s, ys[n - 1], es[n - 1]);
      NextKeeps(s, lag, ys[n - 1], es[n - 1]);
    }
  }

  // ----- Which request a flight answers -----

  function QuestionIn(f: Flight): Option<Question>
  {
    match f
    case ReadsRedis(q, _) => Some(q)
    case ReadsRow(q, _) => Some(q)
    case Refills(q, _, _) => Some(q)
    case Fetches(q, _, _, _) => Some(q)
    case SavesRedis(q, _, _) => Some(q)
    case SavesRow(q, _, _) => Some(q)
    case Ended(about, _) => about
    case _ => None
  }

  /** The event and the user a request under way is about. */
  function Caller(f: Flight): Option<(string, string)>
  {
    match f
    case Arrived(e, u, _) => Some((e, u))
    case HasEvent(e, u, _, _) => Some((e, u))
    case ReadsRedis(q, u) => Some((q.eventId, u))
    case ReadsRow(q, u) => Some((q.eventId, u))
    case Refills(q, u, _) => Some((q.eventId, u))
    case Fetches(q, u, _, _) => Some((q.eventId, u))
    case SavesRedis(q, u, _) => Some((q.eventId, u))
    case SavesRow(q, u, _) => Some((q.eventId, u))
    case _ => None
  }

  lemma StepCaller(s: Setup, w: World, f: Flight, t: Turn)
    ensures var next := Step(s, w, f, t).1;
            && (Caller(next).Some? ==> Caller(next) == Caller(f))
            && (next.Ended? && !f.Ended? ==> Caller(f).Some?)
            && (QuestionIn(next).Some? && Caller(f).Some? ==> QuestionIn(next).value.eventId == Caller(f).value.0)
  {
    hide AskOf, TripAsk, OuterKey, InnerKey, Combine, FormatTmapDateTime, StepLeg;
  }

  lemma StepQuestion(s: Setup, w: World, f: Flight, t: Turn)
    ensures var next := Step(s, w, f, t).1;
            && (next.HasEvent? ==>
                  f == next || (f.Arrived? && next.eventId in w.events && next.event == w.events[next.eventId]))
            && (QuestionIn(next).Some? ==>
                  || QuestionIn(next) == QuestionIn(f)
                  || (f.HasEvent? && AskAbout(w, f.eventId, f.event, f.userId) == Success(QuestionIn(next).value)))
            && (next.Ended? && next.about.None? ==>
                  || next == f
                  || (f.Arrived? && f.eventId !in w.events && next.outcome == Failure(EventNotFound))
                  || (f.HasEvent? && AskAbout(w, f.eventId, f.event, f.userId).Failure?
                      && next.outcome == Failure(AskAbout(w, f.eventId, f.event, f.userId).error)))
  {
    hide AskOf, TripAsk, OuterKey, InnerKey, Combine, AskAbout, FormatTmapDateTime, StepLeg;
  }

  /** The request has been under way, or its answer known, since it was made by move b. */
  ghost predicate Lives(ys: seq<System>, b: nat, n: nat, id: nat)
  {
    forall m :: b < m <= n && m < |ys| ==> id in ys[m].flights
  }

  /** A request under way was made earlier, by this user and about this event. */
  lemma {:induction false} RequestWasMade(s: Setup, lag: nat, ys: seq<System>, es: seq<Move>, n: nat, id: nat)
    returns (b: nat, force: bool)
    requires Exec(s, lag, ys, es) && n <= |es| && id in ys[n].flights && Caller(ys[n].flights[id].flight).Some?
    ensures var (eventId, userId) := Caller(ys[n].flights[id].flight).value;
            b < n && es[b] == Begin(id, eventId, userId, force) && Lives(ys, b, n, id)
    decreases n
  {
    hide Step;
    var y, e := ys[n - 1], es[n - 1];
    assert ys[n - 1 + 1] == Next(s, y, e);
    if e.Begin? && e.id == id {
      b, force := n - 1, e.force;
    } else {
      if e.Advance? && e.id == id {
        StepCaller(s, y.world, y.flights[id].flight, e.turn);
      }
      b, force := RequestWasMade(s, lag, ys, es, n - 1, id);
    }
  }

  /** The event a request holds was read after the request was made. */
  lemma {:induction false} EventWasRead(s: Setup, lag: nat, ys: seq<System>, es: seq<Move>, n: nat, id: nat)
    returns (b: nat, force: bool, j: nat)
    requires Exec(s, lag, ys, es) && n <= |es| && id in ys[n].flights && ys[n].flights[id].flight.HasEvent?
    ensures var f := ys[n].flights[id].flight;
            && b < j < n && es[b] == Begin(id, f.eventId, f.userId, force) && Lives(ys, b, n, id)
            && f.eventId in ys[j].world.events && ys[j].world.events[f.eventId] == f.event
    decreases n
  {
    hide Step;
    var y, e := ys[n - 1], es[n - 1];
    assert ys[n - 1 + 1] == Next(s, y, e);
    if e.Advance? && e.id == id && y.flights[id].flight.Arrived? {
      StepQuestion(s, y.world, y.flights[id].flight, e.turn);
      StepCaller(s, y.world, y.flights[id].flight, e.turn);
      b, force := RequestWasMade(s, lag, ys, es, n - 1, id);
      j := n - 1;
    } else {
      if e.Advance? && e.id == id {
        StepQuestion(s, y.world, y.flights[id].flight, e.turn);
      }
      b, force, j := EventWasRead(s, lag, ys, es, n - 1, id);
    }
  }

  /**
    The request was made by move `b`; after it, the event was read in state `j`; after that, in
    state `k`, members and homes were read, and what was asked then came out as `asked`.
    */
  ghost predicate ReadFor(ys: seq<System>, es: seq<Move>, n: nat, id: nat, b: nat, j: nat, k: nat,
                          eventId: string, userId: string, force: bool, asked: Result<Question, Error>)
    requires n <= |es| < |ys|
  {
    && b < j < k < n && es[b] == Begin(id, eventId, userId, force) && Lives(ys, b, n, id)
    && eventId in ys[j].world.events
    && asked == AskAbout(ys[k].world, eventId, ys[j].world.events[eventId], userId)
  }

  /** The question a request works on is its own, about what it read after it was made. */
  lemma {:induction false} QuestionWasRead(s: Setup, lag: nat, ys: seq<System>, es: seq<Move>, n: nat, id: nat)
    returns (b: nat, j: nat, k: nat, eventId: string, userId: string, force: bool)
    requires Exec(s, lag, ys, es) && n <= |es| && id in ys[n].flights && QuestionIn(ys[n].flights[id].flight).Some?
    ensures var f := ys[n].flights[id].flight;
            && ReadFor(ys, es, n, id, b, j, k, eventId, userId, force, Success(QuestionIn(f).value))
            && QuestionIn(f).value.eventId == eventId
            && (Caller(f).Some? ==> Caller(f).value == (eventId, userId))
    decreases n
  {
    hide Step, AskAbout;
    var y, e := ys[n - 1], es[n - 1];
    assert ys[n - 1 + 1] == Next(s, y, e);
    if e.Advance? && e.id == id {
      var f := y.flights[id].flight;
      StepQuestion(s, y.world, f, e.turn);
      StepCaller(s, y.world, f, e.turn);
      if f.HasEvent? {
        b, force, j := EventWasRead(s, lag, ys, es, n - 1, id);
        k, eventId, userId := n - 1, f.eventId, f.userId;
      } else {
        b, j, k, eventId, userId, force := QuestionWasRead(s, lag, ys, es, n - 1, id);
      }
    } else {
      b, j, k, eventId, userId, force := QuestionWasRead(s, lag, ys, es, n - 1, id);
    }
  }

  /** A request that ended without a question met one of its own checks. */
  lemma {:induction false} RejectionWasRead(s: Setup, lag: nat, ys: seq<System>, es: seq<Move>, n: nat, id: nat)
    returns (b: nat, j: nat, k: nat, eventId: string, userId: string, force: bool)
    requires Exec(s, lag, ys, es) && n <= |es| && id in ys[n].flights
    requires ys[n].flights[id].flight.Ended? && ys[n].flights[id].flight.about.None?
    ensures var r := ys[n].flights[id].flight.outcome;
            && r.Failure?
            && (|| ReadFor(ys, es, n, id, b, j, k, eventId, userId, force, Failure(r.error))
                || (r.error == EventNotFound && b < j < n && es[b] == Begin(id, eventId, userId, force)
                    && Lives(ys, b, n, id) && eventId !in ys[j].world.events))
    decreases n
  {
    hide Step, AskAbout;
    var y, e := ys[n - 1], es[n - 1];
    assert ys[n - 1 + 1] == Next(s, y, e);
    if e.Advance? && e.id == id && !y.flights[id].flight.Ended? {
      var f := y.flights[id].flight;
      StepQuestion(s, y.world, f, e.turn);
      if f.HasEvent? {
        b, force, j := EventWasRead(s, lag, ys, es, n - 1, id);
        k, eventId, userId := n - 1, f.eventId, f.userId;
      } else {
        b, force := RequestWasMade(s, lag, ys, es, n - 1, id);
        j, k, eventId, userId := n - 1, n - 1, f.eventId, f.userId;
      }
    } else {
      if e.Advance? && e.id == id {
        StepQuestion(s, y.world, y.flights[id].flight, e.turn);
      }
      b, j, k, eventId, userId, force := RejectionWasRead(s, lag, ys, es, n - 1, id);
    }
  }

  // ----- Provider failures are the provider's -----

  function LegError(leg: Leg): Option<Error>
  {
    if leg.Got? && leg.result.Failure? then Some(leg.result.error) else None
  }

  /** The flight holds a provider failure. */
  predicate HoldsFailure(f: Flight)
  {
    match f
    case Fetches(_, _, mine, partners) =>
      LegError(mine) == Some(ProviderFailed) || LegError(partners) == Some(ProviderFailed)
    case Single(_, _, _, _, leg) => LegError(leg) == Some(ProviderFailed)
    case Ended(_, r) => r == Failure(ProviderFailed)
    case _ => false
  }

  lemma AsksDoNotFail(s: Setup, now: int, trip: Trip, arrival: Option<string>, requested: Option<nat>)
    ensures AskOf(s, now, trip, arrival, requested) != Failure(ProviderFailed)
  {
    hide ParseTmapDateTime, BucketStart;
  }

  /** The step is a call to the provider that gets no reply. */
  predicate Unanswered(f: Flight, t: Turn)
  {
    && t.reply.NoReply?
    && match f
       case Fetches(_, _, mine, partners) => (if t.mine then mine else partners) == ToCall
       case Single(_, _, _, _, leg) => leg == ToCall
       case _ => false
  }

  lemma LegFailure(s: Setup, st: Stores, ask: Ask, arrival: Option<string>, asked: int, leg: Leg, t: Turn)
    ensures LegError(StepLeg(s, st, ask, arrival, asked, leg, t).1) == Some(ProviderFailed) ==>
              LegError(leg) == Some(ProviderFailed) || (leg == ToCall && t.reply.NoReply?)
  {
    hide InnerKey;
  }

  lemma CombineFailure(s: Setup, q: Question, mine: Result<Body, Error>, partners: Result<Body, Error>, now: int)
    ensures Combine(s, q, mine, partners, now) == Failure(ProviderFailed) ==>
              mine == Failure(ProviderFailed) || partners == Failure(ProviderFailed)
  {}

  lemma FetchesFailure(s: Setup, st: Stores, f: Flight, t: Turn)
    requires f.Fetches? && HoldsFailure(StepFetches(s, st, f, t).1)
    ensures HoldsFailure(f) || Unanswered(f, t)
  {
    hide TripAsk, FormatTmapDateTime, StepLeg, Combine;
    var arrival := Some(FormatTmapDateTime(f.q.appointmentAt));
    var trip := if t.mine then MyTrip(f.q) else PartnerTrip(f.q);
    if f.mine.Got? && f.partners.Got? {
      CombineFailure(s, f.q, f.mine.result, f.partners.result, st.now);
    } else if TripAsk(s, f.q, trip).Success? {
      LegFailure(s, st, TripAsk(s, f.q, trip).value, arrival, st.now, if t.mine then f.mine else f.partners, t);
    }
  }

  lemma ChecksDoNotFail(w: World, eventId: string, event: Event, userId: string)
    ensures AskAbout(w, eventId, event, userId) != Failure(ProviderFailed)
  {}

  lemma StepFailure(s: Setup, w: World, f: Flight, t: Turn)
    requires HoldsFailure(Step(s, w, f, t).1)
    ensures HoldsFailure(f) || Unanswered(f, t)
  {
    hide AskOf, TripAsk, OuterKey, InnerKey, FormatTmapDateTime, StartFetches, StepFetches, StepLeg, AskAbout;
    match f
    case HasEvent(e, u, _, event) =>
      ChecksDoNotFail(w, e, event, u);
      if AskAbout(w, e, event, u).Success? {
        QuestionsDoNotFail(s, AskAbout(w, e, event, u).value, u);
      }
    case ReadsRow(q, u) => QuestionsDoNotFail(s, q, u);
    case Fetches(_, _, _, _) => FetchesFailure(s, w.stores, f, t);
    case Single(trip, arrival, requested, asked, leg) =>
      if AskOf(s, asked, trip, arrival, requested).Success? {
        LegFailure(s, w.stores, AskOf(s, asked, trip, arrival, requested).value, arrival, asked, leg, t);
      }
    case _ =>
  }

  lemma QuestionsDoNotFail(s: Setup, q: Question, userId: string)
    ensures !HoldsFailure(StartFetches(s, q, userId))
  {
    var arrival := Some(FormatTmapDateTime(q.appointmentAt));
    AsksDoNotFail(s, 0, MyTrip(q), arrival, None);
    AsksDoNotFail(s, 0, PartnerTrip(q), arrival, None);
    hide AskOf, FormatTmapDateTime;
  }

  /** A request that reports a provider failure made a step to which the provider gave no reply. */
  lemma {:induction false} FailureWasSilence(s: Setup, lag: nat, ys: seq<System>, es: seq<Move>, n: nat, id: nat)
    returns (m: nat)
    requires Exec(s, lag, ys, es) && n <= |es| && id in ys[n].flights && HoldsFailure(ys[n].flights[id].flight)
    ensures m < n && es[m].Advance? && es[m].id == id && Unanswered(ys[m].flights[id].flight, es[m].turn)
    decreases n
  {
    hide Step, AskOf;
    var y, e := ys[n - 1], es[n - 1];
    assert ys[n - 1 + 1] == Next(s, y, e);
    if e.Advance? && e.id == id {
      StepFailure(s, y.world, y.flights[id].flight, e.turn);
      if Unanswered(y.flights[id].flight, e.turn) {
        m := n - 1;
      } else {
        m := FailureWasSilence(s, lag, ys, es, n - 1, id);
      }
    } else {
      if e.BeginSingle? {
        AsksDoNotFail(s, y.world.stores.now, e.trip, e.arrival, e.requested);
      }
      m := FailureWasSilence(s, lag, ys, es, n - 1, id);
    }
  }

  // ----- Forced requests -----

  /** From when on an answer may be served to a forced request started at `started`. */
  function Freshest(s: Setup, lag: nat, started: int): int
  {
    started - InnerTtl(s) - 2 * lag + 1
  }

  /** A forced request does not look at the couple-route layers, and ends with a route of fresh answers. */
  ghost predicate Forced(s: Setup, lag: nat, answers: set<Answer>, f: Flight, started: int)
  {
    match f
    case Arrived(_, _, force) => force
    case HasEvent(_, _, force, _) => force
    case Fetches(_, _, _, _) => true
    case SavesRedis(_, _, _) => true
    case SavesRow(_, _, _) => true
    case Ended(None, _) => true
    case Ended(Some(q), r) => Uncached(s, answers, q, r, Freshest(s, lag, started))
    case _ => false
  }

  lemma CombineIsFresh(s: Setup, lag: nat, st: Stores, f: Flight, t: Turn, started: int)
    requires f.Fetches? && Known(s, lag, st.answers, f, started)
    requires started <= st.now <= started + lag && f.mine.Got? && f.partners.Got?
    ensures Forced(s, lag, st.answers, StepFetches(s, st, f, t).1, started)
  {
    hide TripAsk, GoodBody, Combine, Uncached, Composed, LegKnown, Plain, FormatTmapDateTime, StepLeg;
    var q, from := f.q, st.now - InnerTtl(s) - 2 * lag + 1;
    LegIsGood(s, lag, st.answers, TripAsk(s, q, MyTrip(q)), f.mine, started, from);
    LegIsGood(s, lag, st.answers, TripAsk(s, q, PartnerTrip(q)), f.partners, started, from);
    CombineIsUncached(s, lag, st.answers, q, f.mine.result, f.partners.result, st.now, from);
    UncachedWeakens(s, st.answers, q, Combine(s, q, f.mine.result, f.partners.result, st.now), from,
                    Freshest(s, lag, started));
  }

  lemma StepStaysForced(s: Setup, lag: nat, w: World, f: Flight, t: Turn, started: int)
    requires started <= w.stores.now && (!Over(f) ==> w.stores.now <= started + lag)
    requires Known(s, lag, w.stores.answers, f, started) && Forced(s, lag, w.stores.answers, f, started)
    ensures var (after, next) := Step(s, w, f, t);
            w.stores.answers <= after.answers ==> Forced(s, lag, after.answers, next, started)
  {
    hide Uncached, Composed, LegKnown, Plain, TripAsk, OuterKey, InnerKey, AskAbout, Combine, FormatTmapDateTime;
    hide StepLeg;
    match f
    case Fetches(_, _, mine, partners) =>
      if mine.Got? && partners.Got? {
        CombineIsFresh(s, lag, w.stores, f, t, started);
      }
    case SavesRow(q, _, data) =>
      ComposedIsUncached(s, lag, w.stores.answers, q, data, Freshest(s, lag, started));
    case _ =>
  }

  lemma ForcedGrows(s: Setup, lag: nat, answers: set<Answer>, more: set<Answer>, f: Flight, started: int)
    requires Forced(s, lag, answers, f, started) && answers <= more
    ensures Forced(s, lag, more, f, started)
  {
    hide Uncached;
    match f
    case Ended(Some(q), r) => UncachedGrows(s, answers, more, q, r, Freshest(s, lag, started));
    case _ =>
  }

  lemma AnswersGrow(s: Setup, lag: nat, y: System, e: Move)
    requires ValidSetup(s) && SystemInv(s, lag, y) && May(s, lag, y, e)
    ensures y.world.stores.answers <= Next(s, y, e).world.stores.answers
  {
    hide Sound, Step, ValidSetup, Known, PlainIds;
    if e.Advance? {
      var r := y.flights[e.id];
      assert RunningKnown(s, lag, y.world.stores, r);
      StepKeeps(s, lag, y.world, r.flight, e.turn, r.started);
    }
  }

  /** As long as a forced request is there, it is as above. */
  lemma {:induction false} StaysForced(s: Setup, lag: nat, ys: seq<System>, es: seq<Move>, b: nat, n: nat, id: nat)
    requires ValidSetup(s) && Exec(s, lag, ys, es) && b < n <= |es| && Lives(ys, b, n, id)
    requires es[b].Begin? && es[b].id == id && es[b].force
    ensures Forced(s, lag, ys[n].world.stores.answers, ys[n].flights[id].flight, ys[n].flights[id].started)
    decreases n
  {
    hide SystemInv, Forced, Step, ValidSetup;
    var y, e := ys[n - 1], es[n - 1];
    assert ys[n - 1 + 1] == Next(s, y, e) && May(s, lag, y, e);
    if b == n - 1 {
      ArrivesForced(s, lag, ys[n].world.stores.answers, es[b], ys[n].flights[id].started);
    } else {
      StaysForced(s, lag, ys, es, b, n - 1, id);
      ExecKeepsInv(s, lag, ys, es, n - 1);
      AnswersGrow(s, lag, y, e);
      hide Exec, Lives;
      NextStaysForced(s, lag, y, e, id);
    }
  }

  lemma ArrivesForced(s: Setup, lag: nat, answers: set<Answer>, e: Move, started: int)
    requires e.Begin? && e.force
    ensures Forced(s, lag, answers, Arrived(e.eventId, e.userId, e.force), started)
  {}

  lemma NextStaysForced(s: Setup, lag: nat, y: System, e: Move, id: nat)
    requires SystemInv(s, lag, y) && May(s, lag, y, e) && id in y.flights && id in Next(s, y, e).flights
    requires Forced(s, lag, y.world.stores.answers, y.flights[id].flight, y.flights[id].started)
    requires y.world.stores.answers <= Next(s, y, e).world.stores.answers
    ensures var after := Next(s, y, e);
            Forced(s, lag, after.world.stores.answers, after.flights[id].flight, after.flights[id].started)
  {
    hide Sound, Known, Forced, Step, PlainIds;
    var r := y.flights[id];
    if e.Advance? && e.id == id {
      assert RunningKnown(s, lag, y.world.stores, r);
      StepStaysForced(s, lag, y.world, r.flight, e.turn, r.started);
    } else {
      ForcedGrows(s, lag, y.world.stores.answers, Next(s, y, e).world.stores.answers, r.flight, r.started);
    }
  }

  // ----- Every interleaving -----

  /**
    However the steps of any requests interleave with each other, with edits, with lost cache
    entries and with failing stores: an analysis that has ended answers the request it was
    started for.  After that request was made it read the request's event, and after that the
    members and homes; what it returned is the error or the route of the uncached computation
    for these, from answers in the question's time bucket whose age is bounded, by the inner
    lifetime alone where a refresh was forced.  A provider failure is reported only if the
    provider gave this request no reply.
    */
  lemma OverlappingAnalysesAreUncached(s: Setup, lag: nat, ys: seq<System>, es: seq<Move>, n: nat, id: nat)
    returns (b: nat, j: nat, k: nat, eventId: string, userId: string, force: bool)
    requires ValidSetup(s) && Exec(s, lag, ys, es) && n <= |es|
    requires id in ys[n].flights && ys[n].flights[id].flight.Ended?
    ensures var f := ys[n].flights[id].flight;
            && b < n && es[b] == Begin(id, eventId, userId, force)
            && match f.about
               case None =>
                 && f.outcome.Failure?
                 && (|| ReadFor(ys, es, n, id, b, j, k, eventId, userId, force, Failure(f.outcome.error))
                     || (f.outcome.error == EventNotFound && b < j < n && eventId !in ys[j].world.events))
               case Some(q) =>
                 && q.eventId == eventId
                 && ReadFor(ys, es, n, id, b, j, k, eventId, userId, force, Success(q))
                 && Uncached(s, ys[n].world.stores.answers, q, f.outcome, Earliest(s, lag, ys[n].flights[id].started))
                 && (force ==> Uncached(s, ys[n].world.stores.answers, q, f.outcome,
                                        Freshest(s, lag, ys[n].flights[id].started)))
    ensures ys[n].flights[id].flight.outcome == Failure(ProviderFailed) ==>
              exists m :: 0 <= m < n && es[m].Advance? && es[m].id == id
                          && id in ys[m].flights && Unanswered(ys[m].flights[id].flight, es[m].turn)
  {
    ExecKeepsInv(s, lag, ys, es, n);
    hide Exec, Sound, Uncached, AskAbout, PlainIds;
    assert RunningKnown(s, lag, ys[n].world.stores, ys[n].flights[id]);
    if ys[n].flights[id].flight.about.Some? {
      b, j, k, eventId, userId, force := QuestionWasRead(s, lag, ys, es, n, id);
      if force {
        StaysForced(s, lag, ys, es, b, n, id);
      }
    } else {
      b, j, k, eventId, userId, force := RejectionWasRead(s, lag, ys, es, n, id);
    }
    if ys[n].flights[id].flight.outcome == Failure(ProviderFailed) {
      var m := FailureWasSilence(s, lag, ys, es, n, id);
    }
  }

  /**
    An analysis that has not yet saved its route when the event is edited saves it afterwards
    under the key of what it had read, whatever the edit changed and dropped: in both layers, or
    in Redis alone where the event was removed.
    */
  lemma LateSaveOutlivesEdit(s: Setup, y: System, id: nat, edit: Move, drop: Move, t: Turn, u: Turn)
    requires id in y.flights && y.flights[id].flight.SavesRedis? && !t.fails && !u.fails && edit.Edit? && drop.Drop?
    ensures var q := y.flights[id].flight.q;
            var dropped := Next(s, Next(s, y, edit), drop);
            var saved := Next(s, Next(s, dropped, Advance(id, t)), Advance(id, u)).world.stores;
            && OuterKey(s, q) in saved.redis
            && (q.eventId in edit.events ==> OuterKey(s, q) in saved.rows)
  {
    hide OuterKey, StepFetches, AskAbout, StepLeg, AskOf;
  }
}
