/**
  The route services as objects that read and write the shared stores call by call.  Every
  method is tied to the function that says what the whole request does; requests keep every
  cached entry right, and an analysis returns what the uncached computation gives.
  */
module RouteService {
  import opened Common
  import opened RouteOverlap
  import opened CacheKeys
  import opened TmapDateTime
  import opened RouteStores
  import opened CoupleRoutes
  import opened RouteAnswers

  lemma InvalidateShrinksAll(st: Stores, eventIds: set<string>, m: Mishap)
    ensures forall s :: Sound(s, 0, st) ==> Sound(s, 0, CoupleRoutes.Invalidate(st, eventIds, m))
  {
    hide Sound, CoupleRoutes.Invalidate;
    forall s | Sound(s, 0, st)
      ensures Sound(s, 0, CoupleRoutes.Invalidate(st, eventIds, m))
    {
      InvalidateShrinks(s, st, eventIds, m);
    }
  }

  /** Redis, the couple-route rows and the provider, with the clock they share. */
  class StoreClient {
    var now: int
    var redis: map<string, Slot>
    var rows: map<string, Row>
    ghost var answers: set<Answer>

    ghost function View(): Stores
      reads this
    {
      Stores(now, redis, rows, answers)
    }

    /** Every entry of every layer is right under this setup. */
    ghost predicate ValidFor(s: Setup)
      reads this
    {
      ValidSetup(s) && Sound(s, 0, View())
    }

    constructor (now: int)
      ensures View() == Empty(now).stores
      ensures forall s :: ValidSetup(s) ==> ValidFor(s)
    {
      this.now := now;
      redis, rows, answers := map[], map[], {};
    }

    /** Redis drops entries at their expiry. */
    method Get(key: string) returns (value: Option<Cached>)
      ensures value == Live(View(), key)
    {
      value := if key in redis && now < redis[key].expiry then Some(redis[key].value) else None;
    }

    method SetEx(key: string, value: Cached, ttl: int)
      modifies this`redis
      ensures View() == Put(old(View()), key, value, ttl)
    {
      redis := redis[key := Slot(value, now + ttl)];
    }

    method UpsertRow(key: string, eventId: string, userId: string, data: Response)
      modifies this`rows
      ensures View() == old(View()).(rows := old(rows)[key :=
                          if key in old(rows) then old(rows)[key].(response := data, expiresAt := now + DB_TTL)
                          else Row(eventId, userId, data, now + DB_TTL)])
    {
      var expiresAt := now + DB_TTL;
      if key in rows {
        rows := rows[key := rows[key].(response := data, expiresAt := expiresAt)];
      } else {
        rows := rows[key := Row(eventId, userId, data, expiresAt)];
      }
    }

    method Invalidate(eventIds: set<string>, m: Mishap)
      modifies this`redis, this`rows
      ensures View() == CoupleRoutes.Invalidate(old(View()), eventIds, m)
      ensures forall s :: old(ValidFor(s)) ==> ValidFor(s)
    {
      InvalidateShrinksAll(View(), eventIds, m);
      hide Sound, ValidSetup;
      if m.findFails {
        return;
      }
      var keys := set k | k in rows && rows[k].eventId in eventIds;
      assert keys == KeysOf(View(), eventIds);
      if keys != {} {
        if !m.dropFails {
          redis := redis - keys;
        }
        if !m.deleteFails {
          rows := rows - keys;
        }
      }
    }
  }

  lemma FetchIsRight(s: Setup, st: Stores, trip: Trip, arrival: Option<string>, requested: Option<nat>, luck: Luck)
    ensures var (after, r) := Fetch(s, st, trip, arrival, requested, luck);
            ValidSetup(s) && Sound(s, 0, st) && FairTtl(s, luck) ==>
              && Sound(s, 0, after)
              && GoodBody(after.answers, AskOf(s, st.now, trip, arrival, requested), r, st.now - InnerTtl(s) + 1)
              && (r.Success? ==> IsFetched(s, after.answers, trip, arrival, requested, st.now, r.value))
    ensures Fetch(s, st, trip, arrival, requested, luck).1 == Failure(ProviderFailed) ==> luck.reply.NoReply?
  {
    hide Sound, ValidSetup, FairTtl, GoodBody, Fetch, AskOf, IsFetched;
    FetchFailsIffSilent(s, st, trip, arrival, requested, luck);
    if ValidSetup(s) && Sound(s, 0, st) && FairTtl(s, luck) {
      FetchedIsGood(s, 0, st, trip, arrival, requested, luck);
      FetchKeepsSound(s, 0, st, trip, arrival, requested, luck);
      var (after, r) := Fetch(s, st, trip, arrival, requested, luck);
      GoodBodyIsFetched(s, after.answers, trip, arrival, requested, st.now, r);
    }
  }

  class TransitService {
    const setup: Setup
    const client: StoreClient

    ghost predicate Valid()
      reads client
    {
      client.ValidFor(setup)
    }

    constructor (setup: Setup, client: StoreClient)
      ensures this.setup == setup && this.client == client
    {
      this.setup, this.client := setup, client;
    }

    method FetchWithCache(trip: Trip, arrival: Option<string>, requested: Option<nat>, luck: Luck)
      returns (r: Result<Body, Error>)
      modifies client`redis, client`answers
      ensures (client.View(), r) == Fetch(setup, old(client.View()), trip, arrival, requested, luck)
      ensures old(Valid()) && FairTtl(setup, luck) ==>
                Valid() && GoodBody(client.answers, AskOf(setup, client.now, trip, arrival, requested), r,
                                    client.now - InnerTtl(setup) + 1)
      ensures r == Failure(ProviderFailed) ==> luck.reply.NoReply?
      ensures old(Valid()) && FairTtl(setup, luck) && r.Success? ==>
                IsFetched(setup, client.answers, trip, arrival, requested, client.now, r.value)
      ensures r.Failure? ==> r.error == ProviderFailed || IsRefused(setup, arrival, requested, r.error)
      ensures client.answers == old(client.answers)
              || (luck.reply.Reply? && r == Success(luck.reply.body)
                  && client.answers
                     == old(client.answers) + {Answer(trip, arrival, client.now, luck.reply.body, client.now)})
      ensures r.Success? && !r.value.truthy ==> luck.reply == Reply(r.value)
    {
      hide Sound, ValidSetup, FairTtl, GoodBody, IsFetched, IsRefused, AskOf, InnerKey;
      FetchIsRight(setup, client.View(), trip, arrival, requested, luck);
      FetchRefuses(setup, client.View(), trip, arrival, requested, luck);
      var asked := AskOf(setup, client.now, trip, arrival, requested);
      if asked.Failure? {
        return Failure(asked.error);
      }
      var key := InnerKey(setup, asked.value);
      if !luck.readFails {
        var cached := client.Get(key);
        if cached.Some? && cached.value.SingleRoute? && cached.value.body.truthy {
          return Success(cached.value.body);
        }
      }
      if luck.reply.NoReply? {
        return Failure(ProviderFailed);
      }
      var body := luck.reply.body;
      client.answers := client.answers + {Answer(trip, arrival, client.now, body, client.now)};
      if !luck.writeFails {
        client.SetEx(key, SingleRoute(body), luck.ttl * MS_PER_SECOND);
      }
      r := Success(body);
    }
  }

  /** What the answer to a question promises: nothing cached shows, and only the provider's silence fails. */
  ghost predicate RightAnswer(s: Setup, st: Stores, after: Stores, q: Question, userId: string, force: bool, c: Chance,
                              r: Result<Response, Error>)
  {
    && Uncached(s, after.answers, q, r, Horizon(s, st.now))
    && (force ==> Uncached(s, after.answers, q, r, st.now - InnerTtl(s) + 1))
    && (r == Failure(ProviderFailed) ==>
          && (force || CheckCache(st, OuterKey(s, q), q.eventId, userId, c).1.None?)
          && (c.mine.reply.NoReply? || c.partners.reply.NoReply?))
  }

  /** What the analysis promises: the event and homes are the current ones, and the answer is right. */
  ghost predicate Right(s: Setup, w: World, after: World, eventId: string, userId: string, force: bool,
                        c: Chance, r: Result<Response, Error>)
  {
    match QuestionOf(w, eventId, userId)
    case Failure(e) => r == Failure(e) && after == w
    case Success(q) => q.eventId == eventId && RightAnswer(s, w.stores, after.stores, q, userId, force, c, r)
  }

  lemma AnswerIsRight(s: Setup, st: Stores, q: Question, userId: string, force: bool, c: Chance)
    requires ValidSetup(s) && Sound(s, 0, st) && Plain(q) && FairTtl(s, c.mine) && FairTtl(s, c.partners)
    ensures RightAnswer(s, st, AnswerTo(s, st, q, userId, force, c).0, q, userId, force, c,
                        AnswerTo(s, st, q, userId, force, c).1)
  {
    hide Sound, ValidSetup, FairTtl, AnswerTo, Uncached, Plain, OuterKey, CheckCache;
    AnswerIsUncached(s, st, q, userId, force, c);
    if AnswerTo(s, st, q, userId, force, c).1 == Failure(ProviderFailed) {
      FailsOnlyIfSilent(s, st, q, userId, force, c);
    }
  }

  lemma AnalysisIsRight(s: Setup, w: World, eventId: string, userId: string, force: bool, c: Chance)
    requires ValidSetup(s) && Inv(s, w) && FairTtl(s, c.mine) && FairTtl(s, c.partners)
    ensures var (after, r) := CoupleRoutes.Analyze(s, w, eventId, userId, force, c);
            Inv(s, after) && Right(s, w, after, eventId, userId, force, c, r)
  {
    DoIsValid(s, w, DoAnalyze(eventId, userId, force, c));
    hide Sound, ValidSetup, FairTtl, AnswerTo, RightAnswer, QuestionOf, Plain, InOrder;
    if QuestionOf(w, eventId, userId).Success? {
      QuestionIsPlain(w, eventId, userId);
      AnswerIsRight(s, w.stores, QuestionOf(w, eventId, userId).value, userId, force, c);
    }
  }

  /** The analysis is right, and tells a route that answers give or explains why there is none. */
  ghost predicate IsAnswered(s: Setup, w: World, after: World, eventId: string, userId: string, force: bool, c: Chance,
                             r: Result<Response, Error>)
  {
    && Right(s, w, after, eventId, userId, force, c, r)
    && match r
       case Success(route) => Tells(s, w, after.stores.answers, eventId, userId, force, route)
       case Failure(e) => Explains(w, eventId, userId, e)
  }

  lemma AnalysisIsAnswered(s: Setup, w: World, eventId: string, userId: string, force: bool, c: Chance)
    requires ValidSetup(s) && Inv(s, w) && FairTtl(s, c.mine) && FairTtl(s, c.partners)
    ensures var (after, r) := CoupleRoutes.Analyze(s, w, eventId, userId, force, c);
            Inv(s, after) && IsAnswered(s, w, after, eventId, userId, force, c, r)
  {
    hide Inv, ValidSetup, FairTtl, Right, Tells, Explains, CoupleRoutes.Analyze;
    AnalysisIsRight(s, w, eventId, userId, force, c);
    var (after, r) := CoupleRoutes.Analyze(s, w, eventId, userId, force, c);
    RightTells(s, w, after, eventId, userId, force, c, r);
  }

  lemma AnalyzeAnswers(s: Setup, w: World, eventId: string, userId: string, force: bool, c: Chance)
    ensures CoupleRoutes.Analyze(s, w, eventId, userId, force, c)
         == match QuestionOf(w, eventId, userId)
            case Failure(e) => (w, Failure(e))
            case Success(q) =>
              (w.(stores := AnswerTo(s, w.stores, q, userId, force, c).0), AnswerTo(s, w.stores, q, userId, force, c).1)
  {
    hide QuestionOf, AnswerTo;
  }

  lemma DoIsValid(s: Setup, w: World, op: Op)
    requires ValidSetup(s) && Inv(s, w) && Allowed(s, w, op)
    ensures Inv(s, Do(s, w, op))
  {
    hide Sound, InOrder, ValidSetup, Do, Allowed;
    DoKeepsSound(s, w, op);
    DoKeepsOrder(s, w, op);
  }

  /** Redis has the response under the key, or the user's own unexpired row for the event has. */
  ghost predicate IsCached(st: Stores, key: string, eventId: string, userId: string, response: Response)
  {
    || (key in st.redis && st.now < st.redis[key].expiry && st.redis[key].value == CoupleRoute(response))
    || (key in st.rows && st.rows[key].response == response && st.rows[key].eventId == eventId
        && st.rows[key].userId == userId && st.now < st.rows[key].expiresAt)
  }

  /** Neither layer has it, as far as it could be read. */
  ghost predicate IsMissed(st: Stores, key: string, eventId: string, userId: string, c: Chance)
  {
    && (c.readFails || key !in st.redis || st.now >= st.redis[key].expiry || !st.redis[key].value.CoupleRoute?)
    && (c.rowReadFails || key !in st.rows || st.rows[key].eventId != eventId || st.rows[key].userId != userId
        || st.now >= st.rows[key].expiresAt)
  }

  /** What does not fail is stored, in Redis for an hour and as a row for a day; a row keeps its event and its user. */
  ghost predicate IsSaved(st: Stores, after: Stores, key: string, eventId: string, userId: string, data: Response,
                          c: Chance)
  {
    && (c.writeFails ==> after.redis == st.redis) && (c.rowWriteFails ==> after.rows == st.rows)
    && (!c.writeFails ==> key in after.redis && after.redis[key] == Slot(CoupleRoute(data), st.now + 3_600_000))
    && (!c.rowWriteFails ==>
          && key in after.rows && after.rows[key].response == data && after.rows[key].expiresAt == st.now + 86_400_000
          && after.rows[key].eventId == (if key in st.rows then st.rows[key].eventId else eventId)
          && after.rows[key].userId == (if key in st.rows then st.rows[key].userId else userId))
    && (forall k :: k != key ==> (k in after.redis <==> k in st.redis) && (k in after.rows <==> k in st.rows))
  }

  /** The user is one of the two members of the event's couple. */
  ghost predicate IsPartner(events: map<string, Event>, couples: map<string, (string, string)>, eventId: string,
                            userId: string)
  {
    && eventId in events && events[eventId].coupleId in couples
    && (couples[events[eventId].coupleId].0 == userId || couples[events[eventId].coupleId].1 == userId)
  }

  /** What a patch leaves out stays, what it names changes, to null too. */
  ghost predicate IsPatched<T>(was: Option<T>, patch: Patch<T>, now: Option<T>)
  {
    now == match patch case None => was case Some(value) => value
  }

  ghost predicate Rescheduled(events: map<string, Event>, after: map<string, Event>, eventId: string, p: EventPatch)
  {
    && after.Keys == events.Keys && eventId in events && after[eventId].coupleId == events[eventId].coupleId
    && IsPatched(events[eventId].place.lat, p.lat, after[eventId].place.lat)
    && IsPatched(events[eventId].place.lng, p.lng, after[eventId].place.lng)
    && IsPatched(events[eventId].appointmentAt, p.appointmentAt, after[eventId].appointmentAt)
    && forall e :: e in events && e != eventId ==> after[e] == events[e]
  }

  /** Where an analysis is right, it tells a route that answers give, or explains why there is none. */
  lemma RightTells(s: Setup, w: World, after: World, eventId: string, userId: string, force: bool, c: Chance,
                   r: Result<Response, Error>)
    requires Right(s, w, after, eventId, userId, force, c, r)
    ensures r.Success? ==> Tells(s, w, after.stores.answers, eventId, userId, force, r.value)
    ensures r.Failure? ==> Explains(w, eventId, userId, r.error)
  {
    hide Uncached, Tells, Explains, CheckCache, OuterKey, Horizon, InnerTtl;
    match QuestionOf(w, eventId, userId)
    case Failure(e) => QuestionExplains(w, eventId, userId);
    case Success(q) =>
      var from := if force then w.stores.now - InnerTtl(s) + 1 else Horizon(s, w.stores.now);
      match r
      case Success(route) => UncachedTells(s, w, after.stores.answers, eventId, userId, force, q, route, from);
      case Failure(e) => UncachedExplains(s, w, after.stores.answers, eventId, userId, q, e, from);
  }

  class CoupleRouteService {
    const transit: TransitService

    var events: map<string, Event>
    var couples: map<string, (string, string)>
    var homes: map<string, Place>
    ghost var used: set<string>

    ghost function View(): World
      reads this, transit.client
    {
      World(transit.client.View(), events, couples, homes, used)
    }

    /** Every cached entry is right, and rows belong to live events. */
    ghost predicate Valid()
      reads this, transit.client
    {
      ValidSetup(transit.setup) && Inv(transit.setup, View())
    }

    constructor (transit: TransitService)
      requires transit.Valid() && transit.client.rows == map[]
      ensures Valid() && this.transit == transit
      ensures View() == World(transit.client.View(), map[], map[], map[], {})
    {
      this.transit := transit;
      events, couples, homes, used := map[], map[], map[], {};
    }

    method CheckCache(key: string, eventId: string, userId: string, c: Chance) returns (hit: Option<Response>)
      modifies transit.client`redis
      ensures (transit.client.View(), hit)
           == CoupleRoutes.CheckCache(old(transit.client.View()), key, eventId, userId, c)
      ensures match hit
              case Some(route) => IsCached(old(transit.client.View()), key, eventId, userId, route)
              case None => IsMissed(old(transit.client.View()), key, eventId, userId, c)
    {
      var client := transit.client;
      if !c.readFails {
        var redisData := client.Get(key);
        if redisData.Some? && redisData.value.CoupleRoute? {
          return Some(redisData.value.response);
        }
      }
      if !c.rowReadFails && key in client.rows {
        var row := client.rows[key];
        if row.eventId == eventId && row.userId == userId && client.now < row.expiresAt {
          if !c.refillFails {
            client.SetEx(key, CoupleRoute(row.response), REDIS_TTL);
          }
          return Some(row.response);
        }
      }
      hit := None;
    }

    method SaveCache(key: string, eventId: string, userId: string, data: Response, c: Chance)
      modifies transit.client`redis, transit.client`rows
      ensures transit.client.View()
           == CoupleRoutes.SaveCache(old(transit.client.View()), key, eventId, userId, data, c)
      ensures IsSaved(old(transit.client.View()), transit.client.View(), key, eventId, userId, data, c)
    {
      if !c.writeFails {
        transit.client.SetEx(key, CoupleRoute(data), REDIS_TTL);
      }
      if !c.rowWriteFails {
        transit.client.UpsertRow(key, eventId, userId, data);
      }
    }

    /** Joins two routes through the station loops. */
    method BuildResult(q: Question, mine: Body, partners: Body) returns (r: Result<Response, Error>)
      ensures r == Compose(transit.setup, q, mine, partners, transit.client.now)
      ensures ComesTo(transit.setup.geo, q.appointmentAt, mine, partners, transit.client.now, r)
    {
      ComposeComesTo(transit.setup, q, mine, partners, transit.client.now);
      hide ComesTo;
      var my := Extract(mine);
      if my.Failure? {
        return Failure(my.error);
      }
      var their := Extract(partners);
      if their.Failure? {
        return Failure(their.error);
      }
      var geo := transit.setup.geo;
      var myStations := ExtractStations(geo, my.value.legs);
      var partnerStations := ExtractStations(geo, their.value.legs);
      var overlap := FindOverlapStations(geo, myStations, partnerStations);
      var meetup := FindMeetupStation(overlap);
      var meeting := None;
      if meetup.Some? {
        var station := meetup.value.station;
        meeting := Some(Meeting(station.name, station.lat, station.lng, Departure(q, their.value.totalTime)));
      }
      r := Success(Response(
        meeting, Departure(q, my.value.totalTime), my.value.totalTime, my.value.transferCount, my.value.legs,
        transit.client.now));
    }

    /** The checks of an analysis, in order, and what they read. */
    method ReadQuestion(eventId: string, userId: string) returns (r: Result<Question, Error>)
      ensures r == QuestionOf(View(), eventId, userId)
    {
      if eventId !in events {
        return Failure(EventNotFound);
      }
      var event := events[eventId];
      if Missing(event.place.lat) || Missing(event.place.lng) {
        return Failure(NoPlace);
      }
      if event.appointmentAt.None? {
        return Failure(NoAppointment);
      }
      if event.coupleId !in couples {
        return Failure(NotAMember);
      }
      var (a, b) := couples[event.coupleId];
      if userId != a && userId != b {
        return Failure(NotAMember);
      }
      var partner := if userId == a then b else a;
      if userId !in homes || Missing(homes[userId].lat) || Missing(homes[userId].lng) {
        return Failure(NoHome);
      }
      if partner !in homes || Missing(homes[partner].lat) || Missing(homes[partner].lng) {
        return Failure(NoPartnerHome);
      }
      var q := Question(
        eventId, event.appointmentAt.value,
        homes[userId].lat.value, homes[userId].lng.value, homes[partner].lat.value, homes[partner].lng.value,
        event.place.lat.value, event.place.lng.value);
      r := Success(q);
    }

    method Analyze(eventId: string, userId: string, forceRefresh: bool, c: Chance) returns (r: Result<Response, Error>)
      requires Valid() && FairTtl(transit.setup, c.mine) && FairTtl(transit.setup, c.partners)
      modifies transit.client
      ensures (View(), r) == CoupleRoutes.Analyze(transit.setup, old(View()), eventId, userId, forceRefresh, c)
      ensures Valid() && IsAnswered(transit.setup, old(View()), View(), eventId, userId, forceRefresh, c, r)
    {
      hide IsAnswered, Inv, ValidSetup, FairTtl, AnswerTo, QuestionOf, CoupleRoutes.Analyze;
      AnalysisIsAnswered(transit.setup, View(), eventId, userId, forceRefresh, c);
      AnalyzeAnswers(transit.setup, View(), eventId, userId, forceRefresh, c);
      var question := ReadQuestion(eventId, userId);
      match question
      case Failure(e) => r := Failure(e);
      case Success(q) => r := AnswerQuestion(q, userId, forceRefresh, c);
    }

    method AnswerQuestion(q: Question, userId: string, forceRefresh: bool, c: Chance)
      returns (r: Result<Response, Error>)
      modifies transit.client
      ensures (transit.client.View(), r)
           == AnswerTo(transit.setup, old(transit.client.View()), q, userId, forceRefresh, c)
    {
      var key := OuterKey(transit.setup, q);
      if !forceRefresh {
        var cached := CheckCache(key, q.eventId, userId, c);
        if cached.Some? {
          return Success(cached.value);
        }
      }
      var arrivalTime := Some(FormatTmapDateTime(q.appointmentAt));
      var mine := transit.FetchWithCache(MyTrip(q), arrivalTime, None, c.mine);
      var partners := transit.FetchWithCache(PartnerTrip(q), arrivalTime, None, c.partners);
      if mine.Failure? {
        return Failure(mine.error);
      }
      if partners.Failure? {
        return Failure(partners.error);
      }
      r := BuildResult(q, mine.value, partners.value);
      if r.Success? {
        SaveCache(key, q.eventId, userId, r.value, c);
      }
    }

    // ----- Edits -----

    predicate IsMember(eventId: string, userId: string)
      reads this
    {
      && eventId in events
      && events[eventId].coupleId in couples
      && (couples[events[eventId].coupleId].0 == userId || couples[events[eventId].coupleId].1 == userId)
    }

    method UpdateEvent(eventId: string, userId: string, p: EventPatch, m: Mishap)
      requires Valid()
      modifies this`events, transit.client
      ensures View() == CoupleRoutes.UpdateEvent(old(View()), eventId, userId, p, m)
      ensures if IsPartner(old(events), couples, eventId, userId) then
                && Rescheduled(old(events), events, eventId, p)
                && (p == EventPatch(None, None, None) ==> View().stores == old(View().stores))
              else View() == old(View())
      ensures Valid()
    {
      hide Inv, ValidSetup;
      DoIsValid(transit.setup, View(), DoUpdateEvent(eventId, userId, p, m));
      if !IsMember(eventId, userId) {
        return;
      }
      var event := events[eventId];
      var place := Place(Patched(event.place.lat, p.lat), Patched(event.place.lng, p.lng));
      events := events[eventId := event.(place := place,
                                         appointmentAt := Patched(event.appointmentAt, p.appointmentAt))];
      if MovesPlaceOrTime(p) {
        transit.client.Invalidate({eventId}, m);
      }
    }

    method RemoveEvent(eventId: string, userId: string, m: Mishap)
      requires Valid()
      modifies this`events, transit.client
      ensures View() == CoupleRoutes.RemoveEvent(old(View()), eventId, userId, m)
      ensures if IsPartner(old(events), couples, eventId, userId) then events == old(events) - {eventId}
              else View() == old(View())
      ensures Valid()
    {
      hide Inv, ValidSetup;
      DoIsValid(transit.setup, View(), DoRemoveEvent(eventId, userId, m));
      if !IsMember(eventId, userId) {
        return;
      }
      transit.client.Invalidate({eventId}, m);
      ghost var w := View();
      var keys := set k | k in transit.client.rows && transit.client.rows[k].eventId in {eventId};
      assert keys == KeysOf(w.stores, {eventId});
      events := events - {eventId};
      transit.client.rows := transit.client.rows - keys;
    }

    method UpdateMe(userId: string, p: HomePatch, m: Mishap)
      requires Valid()
      modifies this`homes, transit.client
      ensures View() == CoupleRoutes.UpdateMe(old(View()), userId, p, m)
      ensures homes.Keys == old(homes).Keys && forall u :: u in homes && u != userId ==> homes[u] == old(homes)[u]
      ensures userId in homes ==>
                IsPatched(old(homes)[userId].lat, p.lat, homes[userId].lat)
                && IsPatched(old(homes)[userId].lng, p.lng, homes[userId].lng)
      ensures Valid()
    {
      hide Inv, ValidSetup;
      DoIsValid(transit.setup, View(), DoUpdateMe(userId, p, m));
      if userId !in homes {
        return;
      }
      ghost var w := View();
      var home := Place(Patched(homes[userId].lat, p.lat), Patched(homes[userId].lng, p.lng));
      homes := homes[userId := home];
      if p.lat.Some? || p.lng.Some? {
        var eventIds := set i | i in events && IsMember(i, userId);
        assert eventIds == EventsOf(w, userId);
        transit.client.Invalidate(eventIds, m);
      }
    }

    // ----- What happens elsewhere -----

    /** Time passes, Redis forgets, and other requests create events, couples and users. */
    method Elsewhere(op: Op)
      requires Valid() && Allowed(transit.setup, View(), op)
      requires op.DoCreateEvent? || op.DoJoin? || op.DoSignUp? || op.DoWait? || op.DoForget?
      modifies this, transit.client
      ensures View() == Do(transit.setup, old(View()), op)
      ensures Valid()
    {
      hide Inv, ValidSetup, Allowed;
      DoIsValid(transit.setup, View(), op);
      ghost var w := View();
      match op
      case DoCreateEvent(id, event) => events, used := events[id := event], used + {id};
      case DoJoin(c, a, b) => couples := couples[c := (a, b)];
      case DoSignUp(u) => homes := homes[u := Place(None, None)];
      case DoWait(ms) => transit.client.now := transit.client.now + ms;
      case DoForget(keys) => transit.client.redis := transit.client.redis - keys;
    }

    /** A direct route request, which shares the stores. */
    method Route(trip: Trip, arrival: Option<string>, requested: Option<nat>, luck: Luck)
      returns (r: Result<Body, Error>)
      requires Valid() && FairTtl(transit.setup, luck)
      modifies transit.client`redis, transit.client`answers
      ensures View() == Do(transit.setup, old(View()), DoRoute(trip, arrival, requested, luck))
      ensures Valid()
    {
      hide Inv, ValidSetup, Fetch, FairTtl;
      DoIsValid(transit.setup, View(), DoRoute(trip, arrival, requested, luck));
      r := transit.FetchWithCache(trip, arrival, requested, luck);
    }

    /** A couple ends, and its events and their rows with it. */
    method BreakUp(coupleId: string)
      requires Valid()
      modifies this`events, this`couples, transit.client`rows
      ensures View() == Do(transit.setup, old(View()), DoBreakUp(coupleId))
      ensures coupleId !in couples
      ensures forall e :: e in events <==> e in old(events) && old(events)[e].coupleId != coupleId
      ensures forall k :: k in transit.client.rows <==>
                && k in old(transit.client.rows)
                && var e := old(transit.client.rows)[k].eventId; e in old(events) ==> e in events
      ensures Valid()
    {
      hide Inv, ValidSetup;
      DoIsValid(transit.setup, View(), DoBreakUp(coupleId));
      var gone := set i | i in events && events[i].coupleId == coupleId;
      assert gone == EventsOfCouple(View(), coupleId);
      var keys := set k | k in transit.client.rows && transit.client.rows[k].eventId in gone;
      assert keys == KeysOf(View().stores, gone);
      events, couples := events - gone, couples - {coupleId};
      transit.client.rows := transit.client.rows - keys;
    }
  }
}
