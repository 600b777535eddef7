/**
  Couple routes through their two cache layers, the edits that invalidate them, and what holds
  of every run of requests: a cached answer is one the uncached computation gives for the
  event, homes and place as they are now, it is of bounded age, and, as long as no store call
  fails, an edit leaves nothing behind.

  Requests run one at a time, at one instant each.
  */
module CoupleRoutes {
  import opened Common
  import opened CacheKeys
  import opened TmapDateTime
  import opened RouteStores

  datatype Place = Place(lat: Option<Coord>, lng: Option<Coord>)

  datatype Event = Event(coupleId: string, place: Place, appointmentAt: Option<int>)

  /**
    The rows the caches depend on.  A couple has two members; `used` holds every event id ever
    given out.
    */
  datatype World = World(
    stores: Stores, events: map<string, Event>, couples: map<string, (string, string)>, homes: map<string, Place>,
    used: set<string>)

  /** Which store calls of one request fail, and what the environment answers. */
  datatype Chance = Chance(
    readFails: bool, rowReadFails: bool, refillFails: bool, writeFails: bool, rowWriteFails: bool,
    mine: Luck, partners: Luck)

  /** Which store calls of one invalidation fail. */
  datatype Mishap = Mishap(findFails: bool, dropFails: bool, deleteFails: bool)

  // ----- The question a request asks -----

  /** A coordinate counts as missing when it is null or zero. */
  predicate Missing(c: Option<Coord>)
  {
    c.None? || c.value == "0"
  }

  predicate HasHome(w: World, userId: string)
  {
    userId in w.homes && !Missing(w.homes[userId].lat) && !Missing(w.homes[userId].lng)
  }

  function QuestionOf(w: World, eventId: string, userId: string): Result<Question, Error>
  {
    if eventId !in w.events then Failure(EventNotFound) else AskAbout(w, eventId, w.events[eventId], userId)
  }

  /** The question about an event as it was read, with members and homes as they are. */
  function AskAbout(w: World, eventId: string, event: Event, userId: string): Result<Question, Error>
  {
    if Missing(event.place.lat) || Missing(event.place.lng) then Failure(NoPlace)
    else if event.appointmentAt.None? then Failure(NoAppointment)
    else if event.coupleId !in w.couples then Failure(NotAMember)
    else
      var (a, b) := w.couples[event.coupleId];
      if userId != a && userId != b then Failure(NotAMember)
      else
        var partner := if userId == a then b else a;
        if !HasHome(w, userId) then Failure(NoHome)
        else if !HasHome(w, partner) then Failure(NoPartnerHome)
        else
          Success(Question(
            eventId, event.appointmentAt.value,
            w.homes[userId].lat.value, w.homes[userId].lng.value,
            w.homes[partner].lat.value, w.homes[partner].lng.value,
            event.place.lat.value, event.place.lng.value))
  }

  // ----- Analysis -----

  function CheckCache(st: Stores, key: string, eventId: string, userId: string, c: Chance): (Stores, Option<Response>)
  {
    var cached := if c.readFails then None else Live(st, key);
    if cached.Some? && cached.value.CoupleRoute? then (st, Some(cached.value.response))
    else if !c.rowReadFails && key in st.rows && st.rows[key].eventId == eventId && st.rows[key].userId == userId
            && st.now < st.rows[key].expiresAt then
      var data := st.rows[key].response;
      (if c.refillFails then st else Put(st, key, CoupleRoute(data), REDIS_TTL), Some(data))
    else (st, None)
  }

  function SaveCache(st: Stores, key: string, eventId: string, userId: string, data: Response, c: Chance): Stores
  {
    var kept := if c.writeFails then st else Put(st, key, CoupleRoute(data), REDIS_TTL);
    if c.rowWriteFails then kept
    else
      var expiresAt := st.now + DB_TTL;
      var row := if key in st.rows then st.rows[key].(response := data, expiresAt := expiresAt)
                 else Row(eventId, userId, data, expiresAt);
      kept.(rows := kept.rows[key := row])
  }

  /** What was saved is served: from Redis for an hour, and to the row's own user from the row for a day. */
  lemma SavedRouteIsServed(st: Stores, key: string, eventId: string, userId: string, data: Response, c: Chance,
                           later: int, again: Chance)
    requires st.now <= later
    ensures var saved := SaveCache(st, key, eventId, userId, data, c).(now := later);
            && (!c.writeFails && !again.readFails && later < st.now + 3_600_000 ==>
                  CheckCache(saved, key, eventId, userId, again).1 == Some(data))
            && (!c.rowWriteFails && !again.rowReadFails && later < st.now + 86_400_000 && key !in st.rows
                && (again.readFails || key !in saved.redis) ==>
                  CheckCache(saved, key, eventId, userId, again).1 == Some(data))
  {}

  /** The two fetches behind one couple route. */
  function FetchBoth(s: Setup, st: Stores, q: Question, c: Chance): (Stores, Result<Body, Error>, Result<Body, Error>)
  {
    var arrival := Some(FormatTmapDateTime(q.appointmentAt));
    var (one, mine) := Fetch(s, st, MyTrip(q), arrival, None, c.mine);
    var (two, partners) := Fetch(s, one, PartnerTrip(q), arrival, None, c.partners);
    (two, mine, partners)
  }

  /** What two fetched bodies amount to. */
  function Combine(s: Setup, q: Question, mine: Result<Body, Error>, partners: Result<Body, Error>, now: int)
    : Result<Response, Error>
  {
    if mine.Failure? then Failure(mine.error)
    else if partners.Failure? then Failure(partners.error)
    else Compose(s, q, mine.value, partners.value, now)
  }

  /** A question answered without looking at the couple-route layers. */
  function Compute(s: Setup, st: Stores, q: Question, userId: string, c: Chance): (Stores, Result<Response, Error>)
  {
    var (fetched, mine, partners) := FetchBoth(s, st, q, c);
    match Combine(s, q, mine, partners, st.now)
    case Failure(e) => (fetched, Failure(e))
    case Success(r) => (SaveCache(fetched, OuterKey(s, q), q.eventId, userId, r, c), Success(r))
  }

  function AnswerTo(s: Setup, st: Stores, q: Question, userId: string, force: bool, c: Chance)
    : (Stores, Result<Response, Error>)
  {
    if force then Compute(s, st, q, userId, c)
    else
      var (checked, hit) := CheckCache(st, OuterKey(s, q), q.eventId, userId, c);
      if hit.Some? then (checked, Success(hit.value)) else Compute(s, checked, q, userId, c)
  }

  function Analyze(s: Setup, w: World, eventId: string, userId: string, force: bool, c: Chance)
    : (World, Result<Response, Error>)
  {
    match QuestionOf(w, eventId, userId)
    case Failure(e) => (w, Failure(e))
    case Success(q) =>
      var (after, r) := AnswerTo(s, w.stores, q, userId, force, c);
      (w.(stores := after), r)
  }

  // ----- Edits -----

  /** The keys of the rows that belong to these events. */
  function KeysOf(st: Stores, eventIds: set<string>): (keys: set<string>)
    ensures forall k :: k in keys <==> k in st.rows && st.rows[k].eventId in eventIds
  {
    set k | k in st.rows && st.rows[k].eventId in eventIds
  }

  function Invalidate(st: Stores, eventIds: set<string>, m: Mishap): Stores
  {
    var keys := KeysOf(st, eventIds);
    if m.findFails || keys == {} then st
    else
      var dropped := if m.dropFails then st else st.(redis := st.redis - keys);
      if m.deleteFails then dropped else dropped.(rows := dropped.rows - keys)
  }

  /** A field of a patch is absent, or present with a value that may be null. */
  type Patch<T> = Option<Option<T>>

  function Patched<T>(old_: Option<T>, patch: Patch<T>): Option<T>
  {
    if patch.Some? then patch.value else old_
  }

  datatype EventPatch = EventPatch(lat: Patch<Coord>, lng: Patch<Coord>, appointmentAt: Patch<int>)

  predicate MovesPlaceOrTime(p: EventPatch)
  {
    p.lat.Some? || p.lng.Some? || p.appointmentAt.Some?
  }

  predicate MemberOfEvent(w: World, eventId: string, userId: string)
  {
    && eventId in w.events
    && w.events[eventId].coupleId in w.couples
    && (w.couples[w.events[eventId].coupleId].0 == userId || w.couples[w.events[eventId].coupleId].1 == userId)
  }

  function UpdateEvent(w: World, eventId: string, userId: string, p: EventPatch, m: Mishap): World
  {
    if !MemberOfEvent(w, eventId, userId) then w
    else
      var event := w.events[eventId];
      var place := Place(Patched(event.place.lat, p.lat), Patched(event.place.lng, p.lng));
      var updated := event.(place := place, appointmentAt := Patched(event.appointmentAt, p.appointmentAt));
      w.(events := w.events[eventId := updated],
         stores := if MovesPlaceOrTime(p) then Invalidate(w.stores, {eventId}, m) else w.stores)
  }

  /** Deleting events deletes their rows with them. */
  function DeleteEvents(w: World, eventIds: set<string>): World
  {
    w.(events := w.events - eventIds, stores := w.stores.(rows := w.stores.rows - KeysOf(w.stores, eventIds)))
  }

  function RemoveEvent(w: World, eventId: string, userId: string, m: Mishap): World
  {
    if !MemberOfEvent(w, eventId, userId) then w
    else DeleteEvents(w.(stores := Invalidate(w.stores, {eventId}, m)), {eventId})
  }

  /** The events of the couples a user belongs to. */
  function EventsOf(w: World, userId: string): (ids: set<string>)
    ensures forall i :: i in ids <==> MemberOfEvent(w, i, userId)
  {
    set i | i in w.events && MemberOfEvent(w, i, userId)
  }

  datatype HomePatch = HomePatch(lat: Patch<Coord>, lng: Patch<Coord>)

  function UpdateMe(w: World, userId: string, p: HomePatch, m: Mishap): World
  {
    if userId !in w.homes then w
    else
      var home := Place(Patched(w.homes[userId].lat, p.lat), Patched(w.homes[userId].lng, p.lng));
      w.(homes := w.homes[userId := home],
         stores := if p.lat.Some? || p.lng.Some? then Invalidate(w.stores, EventsOf(w, userId), m) else w.stores)
  }

  // ----- Runs -----

  datatype Op =
    | DoAnalyze(eventId: string, userId: string, force: bool, chance: Chance)
    | DoRoute(trip: Trip, arrival: Option<string>, requested: Option<nat>, luck: Luck)
    | DoUpdateEvent(eventId: string, userId: string, eventPatch: EventPatch, mishap: Mishap)
    | DoRemoveEvent(eventId: string, userId: string, mishap: Mishap)
    | DoUpdateMe(userId: string, homePatch: HomePatch, mishap: Mishap)
    | DoCreateEvent(eventId: string, event: Event)
    | DoJoin(coupleId: string, a: string, b: string)
    | DoBreakUp(coupleId: string)
    | DoSignUp(userId: string)
    | DoWait(ms: nat)
    | DoForget(keys: set<string>)

  predicate Unattached(w: World, userId: string)
  {
    userId in w.homes && forall c :: c in w.couples ==> w.couples[c].0 != userId && w.couples[c].1 != userId
  }

  /** What the environment guarantees: fair lifetimes, fresh ids without colons, two free members. */
  predicate Allowed(s: Setup, w: World, op: Op)
  {
    match op
    case DoAnalyze(_, _, _, c) => FairTtl(s, c.mine) && FairTtl(s, c.partners)
    case DoRoute(_, _, _, luck) => FairTtl(s, luck)
    case DoCreateEvent(id, event) => id !in w.used && ColonFree(id) && event.coupleId in w.couples
    case DoJoin(c, a, b) => c !in w.couples && a != b && Unattached(w, a) && Unattached(w, b)
    case DoSignUp(u) => u !in w.homes
    case _ => true
  }

  function EventsOfCouple(w: World, coupleId: string): set<string>
  {
    set i | i in w.events && w.events[i].coupleId == coupleId
  }

  function Do(s: Setup, w: World, op: Op): World
  {
    match op
    case DoAnalyze(e, u, force, c) => Analyze(s, w, e, u, force, c).0
    case DoRoute(trip, arrival, requested, luck) =>
      w.(stores := Fetch(s, w.stores, trip, arrival, requested, luck).0)
    case DoUpdateEvent(e, u, p, m) => UpdateEvent(w, e, u, p, m)
    case DoRemoveEvent(e, u, m) => RemoveEvent(w, e, u, m)
    case DoUpdateMe(u, p, m) => UpdateMe(w, u, p, m)
    case DoCreateEvent(id, event) => w.(events := w.events[id := event], used := w.used + {id})
    case DoJoin(c, a, b) => w.(couples := w.couples[c := (a, b)])
    case DoBreakUp(c) => DeleteEvents(w, EventsOfCouple(w, c)).(couples := w.couples - {c})
    case DoSignUp(u) => w.(homes := w.homes[u := Place(None, None)])
    case DoWait(ms) => w.(stores := w.stores.(now := w.stores.now + ms))
    case DoForget(keys) => w.(stores := w.stores.(redis := w.stores.redis - keys))
  }

  function Empty(now: int): World
  {
    World(Stores(now, map[], map[], {}), map[], map[], map[], {})
  }

  ghost predicate Run(s: Setup, ws: seq<World>, ops: seq<Op>)
  {
    && |ws| == |ops| + 1
    && ws[0] == Empty(ws[0].stores.now)
    && forall n {:trigger ops[n]} :: 0 <= n < |ops| ==> Allowed(s, ws[n], ops[n]) && ws[n + 1] == Do(s, ws[n], ops[n])
  }

  // ----- Every entry is right -----

  /** Rows belong to live events, whose ids are used and contain no colon. */
  ghost predicate InOrder(w: World)
  {
    && (forall i :: i in w.events ==> i in w.used && ColonFree(i) && w.events[i].coupleId in w.couples)
    && (forall k :: k in w.stores.rows ==> w.stores.rows[k].eventId in w.events)
  }

  ghost predicate Inv(s: Setup, w: World)
  {
    Sound(s, 0, w.stores) && InOrder(w)
  }

  lemma QuestionIsPlain(w: World, eventId: string, userId: string)
    requires InOrder(w) && QuestionOf(w, eventId, userId).Success?
    ensures Plain(QuestionOf(w, eventId, userId).value) && QuestionOf(w, eventId, userId).value.eventId == eventId
  {}

  /**
    The result is one the uncached computation gives for this question: its own error, a
    provider failure, or what it makes of two answers in the question's bucket, given at or
    after `from`.
    */
  ghost predicate Uncached(s: Setup, answers: set<Answer>, q: Question, r: Result<Response, Error>, from: int)
  {
    match TripAsk(s, q, MyTrip(q))
    case Failure(e) => r == Failure(e)
    case Success(ask) =>
      || r == Failure(ProviderFailed)
      || exists mine, partners, now ::
           && r == Compose(s, q, mine, partners, now)
           && Answered(answers, ask, mine, from)
           && Answered(answers, TripAsk(s, q, PartnerTrip(q)).value, partners, from)
  }

  /** A cached couple route is composed of answers, and less than 25 hours old. */
  lemma HitIsComposed(s: Setup, st: Stores, q: Question, userId: string, c: Chance)
    requires Sound(s, 0, st) && Plain(q)
    ensures var (after, hit) := CheckCache(st, OuterKey(s, q), q.eventId, userId, c);
            hit.Some? ==>
              && Composed(s, 0, after.answers, q, hit.value)
              && st.now < hit.value.cachedAt + DB_TTL + REDIS_TTL
  {
    hide Composed, OuterKey, InnerKey, Plain, SingleSound;
  }

  /** A row served just before it expires is served from Redis for another hour: 25 hours are reached. */
  lemma RefillIsServedForAnotherHour(st: Stores, key: string, eventId: string, userId: string, c: Chance, later: Chance)
    requires key in st.rows && st.rows[key].eventId == eventId && st.rows[key].userId == userId
    requires st.rows[key].expiresAt == st.rows[key].response.cachedAt + DB_TTL && st.now == st.rows[key].expiresAt - 1
    requires Live(st, key).None? && !c.rowReadFails && !c.refillFails && !later.readFails
    ensures var refilled := CheckCache(st, key, eventId, userId, c).0;
            var waited := refilled.(now := refilled.now + REDIS_TTL - 1);
            && CheckCache(waited, key, eventId, userId, later).1 == Some(st.rows[key].response)
            && waited.now == st.rows[key].response.cachedAt + DB_TTL + REDIS_TTL - 2
  {}

  lemma FetchHits(s: Setup, st: Stores, trip: Trip, arrival: Option<string>, body: Body, luck: Luck)
    requires AskOf(s, st.now, trip, arrival, None).Success? && !luck.readFails && body.truthy
    requires Live(st, InnerKey(s, AskOf(s, st.now, trip, arrival, None).value)) == Some(SingleRoute(body))
    ensures Fetch(s, st, trip, arrival, None, luck) == (st, Success(body))
  {
    hide InnerKey, AskOf;
  }

  /** Both answers for a question are cached, and were given just within their lifetime. */
  ghost predicate LastMoment(s: Setup, st: Stores, q: Question, mine: Body, partners: Body, at: int)
  {
    var x, y := TripAsk(s, q, MyTrip(q)), TripAsk(s, q, PartnerTrip(q));
    && x.Success? && y.Success? && mine.truthy && partners.truthy && st.now == at + InnerTtl(s) - 1
    && Live(st, InnerKey(s, x.value)) == Some(SingleRoute(mine))
    && Live(st, InnerKey(s, y.value)) == Some(SingleRoute(partners))
    && st.redis[InnerKey(s, x.value)].expiry == at + InnerTtl(s) == st.redis[InnerKey(s, y.value)].expiry
  }

  predicate AllGoesWell(c: Chance)
  {
    && !c.readFails && !c.rowReadFails && !c.refillFails && !c.writeFails && !c.rowWriteFails
    && !c.mine.readFails && !c.partners.readFails
  }

  /**
    Answers given at `at`, composed in their last millisecond, saved, refilled in the row's last
    millisecond and served in the refill's last: the age bound is reached to two milliseconds.
    */
  lemma OldestAnswerIsServed(s: Setup, st: Stores, q: Question, userId: string, mine: Body, partners: Body, at: int,
                             c: Chance)
    requires LastMoment(s, st, q, mine, partners, at) && AllGoesWell(c) && OuterKey(s, q) !in st.rows
    requires Compose(s, q, mine, partners, st.now).Success?
    ensures var saved, route := Compute(s, st, q, userId, c).0, Compose(s, q, mine, partners, st.now).value;
            var (refilled, _) := CheckCache(saved.(now := st.now + DB_TTL - 1), OuterKey(s, q), q.eventId, userId, c);
            var last := refilled.(now := refilled.now + REDIS_TTL - 1);
            && CheckCache(last, OuterKey(s, q), q.eventId, userId, c).1 == Some(route)
            && Horizon(s, last.now) == at - 2
  {
    hide OuterKey, InnerKey, Compose, AskOf, Fetch, FormatTmapDateTime;
    var arrival := Some(FormatTmapDateTime(q.appointmentAt));
    FetchHits(s, st, MyTrip(q), arrival, mine, c.mine);
    FetchHits(s, st, PartnerTrip(q), arrival, partners, c.partners);
  }

  lemma CheckKeepsSound(s: Setup, st: Stores, q: Question, userId: string, c: Chance)
    requires ValidSetup(s) && Sound(s, 0, st) && Plain(q)
    ensures var after := CheckCache(st, OuterKey(s, q), q.eventId, userId, c).0;
            Sound(s, 0, after) && after.now == st.now && after.rows == st.rows && after.answers == st.answers
  {
    hide Composed, OuterKey, InnerKey, Plain, SingleSound, ValidSetup;
    var key := OuterKey(s, q);
    var after := CheckCache(st, key, q.eventId, userId, c).0;
    if after != st {
      PutCoupleKeepsSound(s, 0, st, q, Slot(CoupleRoute(st.rows[key].response), st.now + REDIS_TTL));
    }
  }

  lemma SaveKeepsSound(s: Setup, st: Stores, q: Question, userId: string, r: Response, c: Chance)
    requires ValidSetup(s) && Sound(s, 0, st) && Plain(q) && Composed(s, 0, st.answers, q, r) && r.cachedAt == st.now
    ensures Sound(s, 0, SaveCache(st, OuterKey(s, q), q.eventId, userId, r, c))
  {
    hide Composed, OuterKey, InnerKey, Plain, SingleSound, ValidSetup, Sound;
    var key := OuterKey(s, q);
    var kept := if c.writeFails then st else Put(st, key, CoupleRoute(r), REDIS_TTL);
    if !c.writeFails {
      PutCoupleKeepsSound(s, 0, st, q, Slot(CoupleRoute(r), st.now + REDIS_TTL));
    }
    if !c.rowWriteFails {
      var row := SaveCache(st, key, q.eventId, userId, r, c).rows[key];
      OldRowIsOwn(s, st, q);
      PutRowKeepsSound(s, 0, kept, q, row);
    }
  }

  /** A row under a question's key belongs to the question's event. */
  lemma OldRowIsOwn(s: Setup, st: Stores, q: Question)
    requires Sound(s, 0, st) && Plain(q)
    ensures OuterKey(s, q) in st.rows ==> st.rows[OuterKey(s, q)].eventId == q.eventId
  {}

  lemma FetchBothIsGood(s: Setup, st: Stores, q: Question, c: Chance)
    requires ValidSetup(s) && Sound(s, 0, st) && FairTtl(s, c.mine) && FairTtl(s, c.partners)
    ensures var (after, mine, partners) := FetchBoth(s, st, q, c);
            && Sound(s, 0, after) && after.now == st.now && after.rows == st.rows && st.answers <= after.answers
            && GoodBody(after.answers, TripAsk(s, q, MyTrip(q)), mine, st.now - InnerTtl(s) + 1)
            && GoodBody(after.answers, TripAsk(s, q, PartnerTrip(q)), partners, st.now - InnerTtl(s) + 1)
  {
    var arrival := Some(FormatTmapDateTime(q.appointmentAt));
    hide AskOf, Fetch, FormatTmapDateTime, Sound, ValidSetup, FairTtl, OuterKey, Answered;
    var (one, mine) := Fetch(s, st, MyTrip(q), arrival, None, c.mine);
    FetchedIsGood(s, 0, st, MyTrip(q), arrival, None, c.mine);
    FetchKeepsSound(s, 0, st, MyTrip(q), arrival, None, c.mine);
    FetchLeavesCouples(s, st, MyTrip(q), arrival, None, c.mine, q);
    FetchedIsGood(s, 0, one, PartnerTrip(q), arrival, None, c.partners);
    FetchKeepsSound(s, 0, one, PartnerTrip(q), arrival, None, c.partners);
    FetchLeavesCouples(s, one, PartnerTrip(q), arrival, None, c.partners, q);
    var (two, partners) := Fetch(s, one, PartnerTrip(q), arrival, None, c.partners);
    if mine.Success? && TripAsk(s, q, MyTrip(q)).Success? {
      var from := st.now - InnerTtl(s) + 1;
      AnsweredGrows(one.answers, two.answers, TripAsk(s, q, MyTrip(q)).value, mine.value, from, from);
    }
  }

  /** The two trips of a question fail alike. */
  lemma TripsFailAlike(s: Setup, q: Question)
    ensures TripAsk(s, q, MyTrip(q)).Failure? <==> TripAsk(s, q, PartnerTrip(q)).Failure?
    ensures TripAsk(s, q, MyTrip(q)).Failure? ==>
              TripAsk(s, q, MyTrip(q)).error == TripAsk(s, q, PartnerTrip(q)).error
  {}

  lemma ComposeStamps(s: Setup, q: Question, mine: Body, partners: Body, now: int)
    ensures Compose(s, q, mine, partners, now).Success? ==> Compose(s, q, mine, partners, now).value.cachedAt == now
  {}

  lemma CombineIsUncached(s: Setup, lag: nat, answers: set<Answer>, q: Question, mine: Result<Body, Error>,
                          partners: Result<Body, Error>, now: int, from: int)
    requires GoodBody(answers, TripAsk(s, q, MyTrip(q)), mine, from)
    requires GoodBody(answers, TripAsk(s, q, PartnerTrip(q)), partners, from)
    requires from == now - InnerTtl(s) - 2 * lag + 1
    ensures Uncached(s, answers, q, Combine(s, q, mine, partners, now), from)
    ensures Combine(s, q, mine, partners, now).Success? ==>
              var r := Combine(s, q, mine, partners, now).value;
              Composed(s, lag, answers, q, r) && r.cachedAt == now
  {
    TripsFailAlike(s, q);
    if mine.Success? && partners.Success? {
      ComposeStamps(s, q, mine.value, partners.value, now);
    }
    hide TripAsk, Answered, MyTrip, PartnerTrip, Compose;
  }

  lemma ComputeIsUncached(s: Setup, st: Stores, q: Question, userId: string, c: Chance)
    requires ValidSetup(s) && Sound(s, 0, st) && Plain(q) && FairTtl(s, c.mine) && FairTtl(s, c.partners)
    ensures var (after, r) := Compute(s, st, q, userId, c);
            && Sound(s, 0, after) && after.now == st.now
            && Uncached(s, after.answers, q, r, st.now - InnerTtl(s) + 1)
  {
    hide FetchBoth, Combine, Sound, ValidSetup, FairTtl, OuterKey, GoodBody, Uncached, Composed, Plain;
    var (fetched, mine, partners) := FetchBoth(s, st, q, c);
    FetchBothIsGood(s, st, q, c);
    CombineIsUncached(s, 0, fetched.answers, q, mine, partners, st.now, st.now - InnerTtl(s) + 1);
    var r := Combine(s, q, mine, partners, st.now);
    if r.Success? {
      SaveKeepsSound(s, fetched, q, userId, r.value, c);
    }
  }

  lemma ComposedIsUncached(s: Setup, lag: nat, answers: set<Answer>, q: Question, r: Response, from: int)
    requires Composed(s, lag, answers, q, r) && from <= r.cachedAt - InnerTtl(s) - 2 * lag + 1
    ensures Uncached(s, answers, q, Success(r), from)
  {
    hide Answered, Compose, TripAsk, MyTrip, PartnerTrip;
    var x, y := TripAsk(s, q, MyTrip(q)).value, TripAsk(s, q, PartnerTrip(q)).value;
    var since := r.cachedAt - InnerTtl(s) - 2 * lag + 1;
    var mine, partners :|
      && Compose(s, q, mine, partners, r.cachedAt) == Success(r)
      && Answered(answers, x, mine, since)
      && Answered(answers, y, partners, since);
    AnsweredGrows(answers, answers, x, mine, since, from);
    AnsweredGrows(answers, answers, y, partners, since, from);
  }

  lemma UncachedWeakens(s: Setup, answers: set<Answer>, q: Question, r: Result<Response, Error>, from: int, later: int)
    requires Uncached(s, answers, q, r, from) && later <= from
    ensures Uncached(s, answers, q, r, later)
  {
    hide Answered, Compose, TripAsk, MyTrip, PartnerTrip;
    TripsFailAlike(s, q);
    if TripAsk(s, q, MyTrip(q)).Success? && r != Failure(ProviderFailed) {
      var x, y := TripAsk(s, q, MyTrip(q)).value, TripAsk(s, q, PartnerTrip(q)).value;
      var mine, partners, now :|
        && r == Compose(s, q, mine, partners, now)
        && Answered(answers, x, mine, from) && Answered(answers, y, partners, from);
      AnsweredGrows(answers, answers, x, mine, from, later);
      AnsweredGrows(answers, answers, y, partners, from, later);
    }
  }

  /** The oldest moment from which an answer may still be served at `now`. */
  function Horizon(s: Setup, now: int): int
  {
    now - DB_TTL - REDIS_TTL - InnerTtl(s) + 1
  }

  lemma AnswerIsUncached(s: Setup, st: Stores, q: Question, userId: string, force: bool, c: Chance)
    requires ValidSetup(s) && Sound(s, 0, st) && Plain(q) && FairTtl(s, c.mine) && FairTtl(s, c.partners)
    ensures var (after, r) := AnswerTo(s, st, q, userId, force, c);
            && Sound(s, 0, after) && after.now == st.now
            && Uncached(s, after.answers, q, r, Horizon(s, st.now))
            && (force ==> Uncached(s, after.answers, q, r, st.now - InnerTtl(s) + 1))
  {
    hide Compute, CheckCache, Sound, ValidSetup, FairTtl, OuterKey, Uncached, Composed, Plain;
    var (after, r) := AnswerTo(s, st, q, userId, force, c);
    var (checked, hit) := CheckCache(st, OuterKey(s, q), q.eventId, userId, c);
    if !force {
      HitIsComposed(s, st, q, userId, c);
      CheckKeepsSound(s, st, q, userId, c);
    }
    if !force && hit.Some? {
      ComposedIsUncached(s, 0, checked.answers, q, hit.value, Horizon(s, st.now));
    } else {
      var from := if force then st else checked;
      ComputeIsUncached(s, from, q, userId, c);
      UncachedWeakens(s, after.answers, q, r, st.now - InnerTtl(s) + 1, Horizon(s, st.now));
    }
  }

  lemma InvalidateShrinks(s: Setup, st: Stores, eventIds: set<string>, m: Mishap)
    requires Sound(s, 0, st)
    ensures Sound(s, 0, Invalidate(st, eventIds, m))
  {}

  lemma DeleteKeepsSound(s: Setup, w: World, eventIds: set<string>)
    requires Sound(s, 0, w.stores)
    ensures Sound(s, 0, DeleteEvents(w, eventIds).stores)
  {}

  lemma DoKeepsSound(s: Setup, w: World, op: Op)
    requires ValidSetup(s) && Inv(s, w) && Allowed(s, w, op)
    ensures Sound(s, 0, Do(s, w, op).stores)
  {
    hide Sound, ValidSetup, FairTtl, Fetch, AnswerTo, QuestionOf, Invalidate, DeleteEvents, Plain, Uncached;
    match op
    case DoAnalyze(e, u, force, c) =>
      if QuestionOf(w, e, u).Success? {
        QuestionIsPlain(w, e, u);
        AnswerIsUncached(s, w.stores, QuestionOf(w, e, u).value, u, force, c);
      }
    case DoRoute(trip, arrival, requested, luck) => FetchKeepsSound(s, 0, w.stores, trip, arrival, requested, luck);
    case DoUpdateEvent(e, u, p, m) => InvalidateShrinks(s, w.stores, {e}, m);
    case DoRemoveEvent(e, u, m) =>
      InvalidateShrinks(s, w.stores, {e}, m);
      DeleteKeepsSound(s, w.(stores := Invalidate(w.stores, {e}, m)), {e});
    case DoUpdateMe(u, p, m) => InvalidateShrinks(s, w.stores, EventsOf(w, u), m);
    case DoBreakUp(c) => DeleteKeepsSound(s, w, EventsOfCouple(w, c));
    case DoWait(ms) => SoundShrinks(s, 0, w.stores, Do(s, w, op).stores);
    case DoForget(keys) => SoundShrinks(s, 0, w.stores, Do(s, w, op).stores);
    case _ =>
  }

  /** An analysis adds at most one row, which belongs to the event it was asked about. */
  lemma AnswerRows(s: Setup, st: Stores, q: Question, userId: string, force: bool, c: Chance, k: string)
    requires k in AnswerTo(s, st, q, userId, force, c).0.rows
    ensures var row := AnswerTo(s, st, q, userId, force, c).0.rows[k];
            row.eventId == if k in st.rows then st.rows[k].eventId else q.eventId
  {
    hide Fetch, OuterKey, Combine, MyTrip, PartnerTrip;
    var arrival := Some(FormatTmapDateTime(q.appointmentAt));
    var checked := if force then st else CheckCache(st, OuterKey(s, q), q.eventId, userId, c).0;
    var (one, mine) := Fetch(s, checked, MyTrip(q), arrival, None, c.mine);
    FetchLeavesCouples(s, checked, MyTrip(q), arrival, None, c.mine, q);
    FetchLeavesCouples(s, one, PartnerTrip(q), arrival, None, c.partners, q);
  }

  lemma AnalyzeKeepsOrder(s: Setup, w: World, eventId: string, userId: string, force: bool, c: Chance)
    requires InOrder(w)
    ensures InOrder(Analyze(s, w, eventId, userId, force, c).0)
  {
    hide AnswerTo, Plain, ColonFree;
    if QuestionOf(w, eventId, userId).Success? {
      QuestionIsPlain(w, eventId, userId);
      var q := QuestionOf(w, eventId, userId).value;
      var after := Analyze(s, w, eventId, userId, force, c).0;
      forall k | k in after.stores.rows
        ensures after.stores.rows[k].eventId in after.events
      {
        AnswerRows(s, w.stores, q, userId, force, c, k);
      }
    }
  }

  lemma InvalidateKeepsOrder(w: World, eventIds: set<string>, m: Mishap)
    requires InOrder(w)
    ensures InOrder(w.(stores := Invalidate(w.stores, eventIds, m)))
  {
    hide ColonFree;
  }

  lemma DeleteKeepsOrder(w: World, eventIds: set<string>)
    requires InOrder(w)
    ensures InOrder(DeleteEvents(w, eventIds))
  {
    hide ColonFree;
  }

  lemma DoKeepsOrder(s: Setup, w: World, op: Op)
    requires InOrder(w) && Allowed(s, w, op)
    ensures InOrder(Do(s, w, op))
  {
    hide FairTtl, ColonFree, Analyze, Invalidate, Fetch, OuterKey, Unattached;
    match op
    case DoAnalyze(e, u, force, c) => AnalyzeKeepsOrder(s, w, e, u, force, c);
    case DoRoute(trip, arrival, requested, luck) =>
      FetchLeavesCouples(s, w.stores, trip, arrival, requested, luck, Question("", 0, "", "", "", "", "", ""));
    case DoUpdateEvent(e, u, p, m) => InvalidateKeepsOrder(w, {e}, m);
    case DoRemoveEvent(e, u, m) =>
      InvalidateKeepsOrder(w, {e}, m);
      DeleteKeepsOrder(w.(stores := Invalidate(w.stores, {e}, m)), {e});
    case DoUpdateMe(u, p, m) => InvalidateKeepsOrder(w, EventsOf(w, u), m);
    case DoBreakUp(c) => DeleteKeepsOrder(w, EventsOfCouple(w, c));
    case _ =>
  }

  lemma EmptyIsInOrder(now: int)
    ensures InOrder(Empty(now))
  {}

  lemma {:induction false} RunKeepsInv(s: Setup, ws: seq<World>, ops: seq<Op>, n: nat)
    requires ValidSetup(s) && Run(s, ws, ops) && n <= |ops|
    ensures Inv(s, ws[n])
  {
    hide Do, InOrder, ValidSetup, Allowed, OuterKey, InnerKey, Plain;
    if n == 0 {
      EmptyIsInOrder(ws[0].stores.now);
    } else {
      hide Sound;
      RunKeepsInv(s, ws, ops, n - 1);
      assert ws[n - 1 + 1] == Do(s, ws[n - 1], ops[n - 1]);
      DoKeepsSound(s, ws[n - 1], ops[n - 1]);
      DoKeepsOrder(s, ws[n - 1], ops[n - 1]);
    }
  }

  // ----- What a caller sees -----

  /** An analysis reports a provider failure only if the cache had no route and a fetch got no reply. */
  lemma FailsOnlyIfSilent(s: Setup, st: Stores, q: Question, userId: string, force: bool, c: Chance)
    requires AnswerTo(s, st, q, userId, force, c).1 == Failure(ProviderFailed)
    ensures force || CheckCache(st, OuterKey(s, q), q.eventId, userId, c).1.None?
    ensures c.mine.reply.NoReply? || c.partners.reply.NoReply?
  {
    hide OuterKey, MyTrip, PartnerTrip, FormatTmapDateTime, Fetch;
    var arrival := Some(FormatTmapDateTime(q.appointmentAt));
    var from := if force then st else CheckCache(st, OuterKey(s, q), q.eventId, userId, c).0;
    FetchFailsIffSilent(s, from, MyTrip(q), arrival, None, c.mine);
    FetchFailsIffSilent(s, Fetch(s, from, MyTrip(q), arrival, None, c.mine).0, PartnerTrip(q), arrival, None,
                        c.partners);
  }

  /**
    After any run, with any failures, an analysis returns what the uncached computation gives
    for the event, homes and place as they are now, from answers younger than 25 hours plus
    the longest single-route lifetime.  With a forced refresh only the latter remains.
    */
  lemma AnalysisIsUncached(s: Setup, ws: seq<World>, ops: seq<Op>, n: nat,
                           eventId: string, userId: string, force: bool, c: Chance)
    requires ValidSetup(s) && Run(s, ws, ops) && n <= |ops| && FairTtl(s, c.mine) && FairTtl(s, c.partners)
    ensures var (after, r) := Analyze(s, ws[n], eventId, userId, force, c);
            match QuestionOf(ws[n], eventId, userId)
            case Failure(e) => r == Failure(e) && after == ws[n]
            case Success(q) =>
              && Uncached(s, after.stores.answers, q, r, Horizon(s, ws[n].stores.now))
              && (force ==> Uncached(s, after.stores.answers, q, r, ws[n].stores.now - InnerTtl(s) + 1))
              && (r == Failure(ProviderFailed) ==>
                    && (force || CheckCache(ws[n].stores, OuterKey(s, q), eventId, userId, c).1.None?)
                    && (c.mine.reply.NoReply? || c.partners.reply.NoReply?))
  {
    RunKeepsInv(s, ws, ops, n);
    hide Run, Sound, ValidSetup, FairTtl, AnswerTo, Uncached, QuestionOf, Plain, InOrder, OuterKey, CheckCache;
    if QuestionOf(ws[n], eventId, userId).Success? {
      var q := QuestionOf(ws[n], eventId, userId).value;
      QuestionIsPlain(ws[n], eventId, userId);
      AnswerIsUncached(s, ws[n].stores, q, userId, force, c);
      if AnswerTo(s, ws[n].stores, q, userId, force, c).1 == Failure(ProviderFailed) {
        FailsOnlyIfSilent(s, ws[n].stores, q, userId, force, c);
      }
    }
  }

  /** For appointments in the Korean years 1000 to 9999, the bucket asked about is the appointment's own. */
  lemma AskedBucketIsAppointments(s: Setup, q: Question, trip: Trip)
    requires 1000 <= KstFields(q.appointmentAt).year <= 9999 && s.minutes >= 1
    ensures TripAsk(s, q, trip) == Success(Ask(trip, None, s.minutes, BucketStart(q.appointmentAt, s.minutes)))
  {
    BucketOfPrintedTime(q.appointmentAt, s.minutes);
    hide FormatTmapDateTime, ParseTmapDateTime, BucketStart, KstFields;
  }
}
