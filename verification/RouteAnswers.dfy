/**
  What the route services promise, in terms of stored rows, provider answers and the clock alone.
  None of it mentions how a route is composed, a question is put or a bucket is computed.
  */
module RouteAnswers {
  import opened Common
  import opened RouteOverlap
  import opened MeetupMatching
  import opened MeetupStation
  import opened CacheKeys
  import opened TmapDateTime
  import opened RouteStores
  import opened CoupleRoutes

  // ----- Time intervals -----

  function IntervalStart(k: int, minutes: int): int
  {
    k * (minutes * 60_000)
  }

  /** Both instants lie in one of the intervals of this many minutes, counted from the epoch. */
  ghost predicate OneInterval(minutes: int, x: int, y: int)
  {
    exists k: int ::
      && IntervalStart(k, minutes) <= x < IntervalStart(k, minutes) + minutes * 60_000
      && IntervalStart(k, minutes) <= y < IntervalStart(k, minutes) + minutes * 60_000
  }

  lemma OneBucketIsOneInterval(minutes: int, x: int, y: int)
    requires minutes >= 1 && BucketStart(x, minutes) == BucketStart(y, minutes)
    ensures OneInterval(minutes, x, y)
  {
    var size := minutes * 60_000;
    FloorIsBelow(x, size);
    FloorIsBelow(y, size);
    assert IntervalStart(x / size, minutes) == BucketStart(x, minutes);
  }

  lemma FloorIsBelow(x: int, size: int)
    requires size > 0
    ensures x / size * size <= x < x / size * size + size
  {}

  /** The answer is for a time in one interval with `base`: the arrival it was asked for, or when it was asked. */
  ghost predicate MeantFor(minutes: int, a: Answer, base: int)
  {
    match a.arrival
    case None => OneInterval(minutes, a.asked, base)
    case Some(text) => ParseTmapDateTime(text).Some? && OneInterval(minutes, ParseTmapDateTime(text).value, base)
  }

  lemma FittingIsMeant(a: Answer, ask: Ask, base: int)
    requires ask.minutes >= 1 && Fits(a, ask) && ask.start == BucketStart(base, ask.minutes)
    ensures MeantFor(ask.minutes, a, base)
  {
    OneBucketIsOneInterval(ask.minutes, BaseTime(a.asked, a.arrival).value, base);
    hide BucketStart, OneInterval, ParseTmapDateTime;
  }

  /** How long Redis may keep a single route, in milliseconds. */
  function Longest(s: Setup): int
  {
    Max(s.ttlMax, Max(s.ttlMin, 1)) * 1000
  }

  // ----- A single route -----

  /** The answer is for this trip and this interval, and younger than the longest lifetime. */
  ghost predicate IsServed(s: Setup, a: Answer, trip: Trip, arrival: Option<string>, minutes: int, now: int)
  {
    && a.trip == trip && now - Longest(s) < a.at
    && match arrival
       case None => MeantFor(minutes, a, now)
       case Some(text) => ParseTmapDateTime(text).Some? && MeantFor(minutes, a, ParseTmapDateTime(text).value)
  }

  /** The body is such an answer, for the requested bucket size where one is requested. */
  ghost predicate IsFetched(s: Setup, answers: set<Answer>, trip: Trip, arrival: Option<string>, requested: Option<nat>,
                            now: int, body: Body)
  {
    exists a :: a in answers && a.body == body
                && IsServed(s, a, trip, arrival, if requested.Some? then requested.value else s.minutes, now)
  }

  lemma GoodBodyIsFetched(s: Setup, answers: set<Answer>, trip: Trip, arrival: Option<string>, requested: Option<nat>,
                          now: int, r: Result<Body, Error>)
    requires GoodBody(answers, AskOf(s, now, trip, arrival, requested), r, now - InnerTtl(s) + 1)
    ensures r.Success? ==> IsFetched(s, answers, trip, arrival, requested, now, r.value)
  {
    var asked := AskOf(s, now, trip, arrival, requested);
    if r.Success? && asked.Success? {
      var ask := asked.value;
      var a :| a in answers && Fits(a, ask) && a.body == r.value && now - InnerTtl(s) + 1 <= a.at;
      FittingIsMeant(a, ask, BaseTime(now, arrival).value);
      hide Fits, MeantFor, BucketStart, ParseTmapDateTime;
      assert IsServed(s, a, trip, arrival, ask.minutes, now);
    }
  }

  /** What a request for a single route is refused for before the provider is asked. */
  ghost predicate IsRefused(s: Setup, arrival: Option<string>, requested: Option<nat>, e: Error)
  {
    match e
    case BadBucket => requested == Some(0)
    case BadConfiguration => requested == None && s.minutes < 1
    case BadArrival => requested != Some(0) && arrival.Some? && ParseTmapDateTime(arrival.value).None?
    case _ => false
  }

  lemma FetchRefuses(s: Setup, st: Stores, trip: Trip, arrival: Option<string>, requested: Option<nat>, luck: Luck)
    ensures var r := Fetch(s, st, trip, arrival, requested, luck).1;
            r.Failure? ==> r.error == ProviderFailed || IsRefused(s, arrival, requested, r.error)
  {
    hide InnerKey, BucketStart, ParseTmapDateTime;
  }

  // ----- A composed route -----

  /** Who leaves at the time this text reads as, and travels so many seconds, is there at the appointment. */
  ghost predicate Leaves(text: string, appointmentAt: int, seconds: int)
  {
    ReadIso(text).Some? && ReadIso(text).value + seconds * 1000 == appointmentAt
  }

  /** The meeting is one of the stops of these legs. */
  ghost predicate IsAtStop(geo: Geography, legs: seq<Leg>, m: Meeting)
  {
    exists l: nat, k: nat :: HasStop(legs, l, k) && IsNamedFor(geo, legs[l].stationList.value[k], m)
  }

  ghost predicate IsNamedFor(geo: Geography, stop: Stop, m: Meeting)
  {
    m.name == stop.stationName && m.lat == geo.parse(stop.lat) && m.lng == geo.parse(stop.lon)
  }

  ghost predicate Meets(geo: Geography, x: Stop, y: Stop)
  {
    || geo.normalize(x.stationName) == geo.normalize(y.stationName)
    || geo.near(geo.parse(x.lat), geo.parse(x.lon), geo.parse(y.lat), geo.parse(y.lon))
  }

  /** No stop of one route is, or is near, a stop of the other. */
  ghost predicate NeverMeet(geo: Geography, my: seq<Leg>, their: seq<Leg>)
  {
    forall l: nat, k: nat, m: nat, n: nat :: HasStop(my, l, k) && HasStop(their, m, n) ==>
      !Meets(geo, my[l].stationList.value[k], their[m].stationList.value[n])
  }

  /** The route tells these two itineraries to arrive at the appointment, by way of a shared stop if there is one. */
  ghost predicate SaysRoute(geo: Geography, appointmentAt: int, my: Itinerary, their: Itinerary, r: Response)
  {
    && Leaves(r.departure, appointmentAt, my.totalTime)
    && r.totalTime == my.totalTime && r.transferCount == my.transferCount && r.legs == my.legs
    && (r.meeting.None? <==> NeverMeet(geo, my.legs, their.legs))
    && (r.meeting.Some? ==>
          IsAtStop(geo, my.legs, r.meeting.value)
          && Leaves(r.meeting.value.partnerDeparture, appointmentAt, their.totalTime))
  }

  lemma DepartureLeaves(q: Question, seconds: int)
    ensures Leaves(Departure(q, seconds), q.appointmentAt, seconds)
  {
    ReadIsoOfText(q.appointmentAt - seconds * MS_PER_SECOND);
    hide ReadIso, IsoText;
  }

  lemma MeetupIsAtStop(geo: Geography, my: seq<Leg>, their: seq<Leg>)
    ensures var meetup := Meetup(geo, Extracted(geo, my), Extracted(geo, their));
            meetup.Some? ==>
              var station := meetup.value.station;
              forall m: Meeting :: m.name == station.name && m.lat == station.lat && m.lng == station.lng ==>
                IsAtStop(geo, my, m)
  {
    var a, b := Extracted(geo, my), Extracted(geo, their);
    ExtractedAreStops(geo, my);
    MeetupIsLeast(geo, a, b);
    GreedyIsPairing(geo, a, b);
    hide Extracted, StopsIn, PlaceOf, HasStop, Greedy, Meetup, Eligible, Matches;
    if Meetup(geo, a, b).Some? {
      var i := Meetup(geo, a, b).value.orderA;
      assert IsSomeStop(geo, my, a, i);
      var l: nat, k: nat :| StandsAt(geo, my, l, k, a, i);
    }
  }

  lemma MeetupIsNoneIff(geo: Geography, my: seq<Leg>, their: seq<Leg>)
    ensures Meetup(geo, Extracted(geo, my), Extracted(geo, their)).None? <==> NeverMeet(geo, my, their)
  {
    var a, b := Extracted(geo, my), Extracted(geo, their);
    ExtractedAreStops(geo, my);
    ExtractedAreStops(geo, their);
    MeetupIsLeast(geo, a, b);
    hide Extracted, StopsIn, HasStop, Meetup, Eligible, Greedy;
    if NeverMeet(geo, my, their) {
      forall i, j | 0 <= i < |a| && 0 <= j < |b|
        ensures !Matches(geo, a[i], b[j])
      {
        assert IsSomeStop(geo, my, a, i) && IsSomeStop(geo, their, b, j);
        var l: nat, k: nat :| StandsAt(geo, my, l, k, a, i);
        var m: nat, n: nat :| StandsAt(geo, their, m, n, b, j);
        assert !Meets(geo, my[l].stationList.value[k], their[m].stationList.value[n]);
      }
    } else {
      var l: nat, k: nat, m: nat, n: nat :|
        HasStop(my, l, k) && HasStop(their, m, n)
        && Meets(geo, my[l].stationList.value[k], their[m].stationList.value[n]);
      assert StandsAt(geo, my, l, k, a, PlaceOf(my, l, k)) && StandsAt(geo, their, m, n, b, PlaceOf(their, m, n));
      assert Matches(geo, a[PlaceOf(my, l, k)], b[PlaceOf(their, m, n)]);
    }
  }

  /** What two provider answers come to. */
  ghost predicate ComesTo(geo: Geography, appointmentAt: int, mine: Body, partners: Body, now: int,
                          r: Result<Response, Error>)
  {
    if mine.first.NoItinerary? then r == Failure(NoRouteFound)
    else if mine.first.NullItinerary? then r == Failure(Crashed)
    else if partners.first.NoItinerary? then r == Failure(NoRouteFound)
    else if partners.first.NullItinerary? then r == Failure(Crashed)
    else
      && r.Success? && r.value.cachedAt == now
      && SaysRoute(geo, appointmentAt, mine.first.itinerary, partners.first.itinerary, r.value)
  }

  lemma ComposeComesTo(s: Setup, q: Question, mine: Body, partners: Body, now: int)
    ensures ComesTo(s.geo, q.appointmentAt, mine, partners, now, Compose(s, q, mine, partners, now))
  {
    hide Departure, Leaves, Meetup, Extracted, IsAtStop, NeverMeet;
    if mine.first.First? && partners.first.First? {
      var my, their := mine.first.itinerary, partners.first.itinerary;
      DepartureLeaves(q, my.totalTime);
      DepartureLeaves(q, their.totalTime);
      MeetupIsAtStop(s.geo, my.legs, their.legs);
      MeetupIsNoneIff(s.geo, my.legs, their.legs);
    }
  }

  // ----- An analysis -----

  ghost predicate IsAt(p: Place, lat: string, lng: string)
  {
    && p.lat.Some? && p.lat.value == lat && lat != "0"
    && p.lng.Some? && p.lng.value == lng && lng != "0"
  }

  /** The user and the partner are the two members of the event's couple. */
  ghost predicate AreTheTwo(w: World, eventId: string, userId: string, partner: string)
  {
    && eventId in w.events && w.events[eventId].coupleId in w.couples
    && w.couples[w.events[eventId].coupleId] in {(userId, partner), (partner, userId)}
  }

  /** The answer is for the way from this user's home to the event's place, asked for its time. */
  ghost predicate LeadsThere(s: Setup, w: World, eventId: string, userId: string, a: Answer)
    requires eventId in w.events && w.events[eventId].appointmentAt.Some?
  {
    var event := w.events[eventId];
    && userId in w.homes
    && IsAt(w.homes[userId], a.trip.startY, a.trip.startX) && IsAt(event.place, a.trip.endY, a.trip.endX)
    && (1000 <= KstFields(event.appointmentAt.value).year <= 9999 ==>
          MeantFor(s.minutes, a, event.appointmentAt.value))
    && a.body.first.First?
  }

  /** The route follows from two answers of the provider, for this user and for the partner, each no older than this. */
  ghost predicate FollowsFrom(s: Setup, w: World, eventId: string, userId: string, partner: string, a: Answer,
                              b: Answer, oldest: int, r: Response)
  {
    && AreTheTwo(w, eventId, userId, partner) && w.events[eventId].appointmentAt.Some?
    && LeadsThere(s, w, eventId, userId, a) && LeadsThere(s, w, eventId, partner, b)
    && oldest < a.at && oldest < b.at
    && SaysRoute(s.geo, w.events[eventId].appointmentAt.value, a.body.first.itinerary, b.body.first.itinerary, r)
  }

  /** Answers may be 25 hours and a lifetime old, or only a lifetime where a refresh is forced. */
  ghost predicate Tells(s: Setup, w: World, answers: set<Answer>, eventId: string, userId: string, force: bool,
                        r: Response)
  {
    var oldest := w.stores.now - Longest(s) - if force then 0 else 90_000_000;
    exists partner, a, b ::
      a in answers && b in answers && FollowsFrom(s, w, eventId, userId, partner, a, b, oldest, r)
  }

  ghost predicate Homeless(w: World, userId: string)
  {
    userId !in w.homes || forall lat: string, lng: string :: !IsAt(w.homes[userId], lat, lng)
  }

  ghost predicate Placeless(event: Event)
  {
    forall lat: string, lng: string :: !IsAt(event.place, lat, lng)
  }

  /** What an analysis is refused for; the first reason counts. */
  ghost predicate Explains(w: World, eventId: string, userId: string, e: Error)
  {
    if eventId !in w.events then e == EventNotFound
    else if Placeless(w.events[eventId]) then e == NoPlace
    else if w.events[eventId].appointmentAt.None? then e == NoAppointment
    else if forall partner :: !AreTheTwo(w, eventId, userId, partner) then e == NotAMember
    else if Homeless(w, userId) then e == NoHome
    else if exists partner :: AreTheTwo(w, eventId, userId, partner) && Homeless(w, partner) then e == NoPartnerHome
    else e in {BadConfiguration, BadArrival, ProviderFailed, NoRouteFound, Crashed}
  }

  /** What the question was put together from. */
  ghost predicate IsAbout(w: World, eventId: string, userId: string, partner: string, q: Question)
  {
    && AreTheTwo(w, eventId, userId, partner) && w.events[eventId].appointmentAt == Some(q.appointmentAt)
    && userId in w.homes && IsAt(w.homes[userId], q.myLat, q.myLng)
    && partner in w.homes && IsAt(w.homes[partner], q.partnerLat, q.partnerLng)
    && IsAt(w.events[eventId].place, q.placeLat, q.placeLng)
  }

  lemma QuestionIsAbout(w: World, eventId: string, userId: string) returns (partner: string)
    requires QuestionOf(w, eventId, userId).Success?
    ensures IsAbout(w, eventId, userId, partner, QuestionOf(w, eventId, userId).value)
  {
    var (a, b) := w.couples[w.events[eventId].coupleId];
    partner := if userId == a then b else a;
  }

  lemma QuestionExplains(w: World, eventId: string, userId: string)
    ensures match QuestionOf(w, eventId, userId)
            case Failure(e) => Explains(w, eventId, userId, e)
            case Success(_) => Explains(w, eventId, userId, ProviderFailed)
  {
    if eventId in w.events && w.events[eventId].coupleId in w.couples {
      var event := w.events[eventId];
      var (a, b) := w.couples[event.coupleId];
      assert userId == a ==> AreTheTwo(w, eventId, userId, b);
      assert userId == b ==> AreTheTwo(w, eventId, userId, a);
      PlaceOrNot(event.place);
      HomeOrNot(w, a);
      HomeOrNot(w, b);
      hide IsAt, Homeless, Placeless, HasHome;
    } else if eventId in w.events {
      PlaceOrNot(w.events[eventId].place);
    }
  }

  lemma PlaceOrNot(p: Place)
    ensures (forall lat: string, lng: string :: !IsAt(p, lat, lng)) <==> Missing(p.lat) || Missing(p.lng)
  {
    if !Missing(p.lat) && !Missing(p.lng) {
      assert IsAt(p, p.lat.value, p.lng.value);
    }
  }

  lemma HomeOrNot(w: World, userId: string)
    ensures Homeless(w, userId) <==> !HasHome(w, userId)
  {
    if userId in w.homes {
      PlaceOrNot(w.homes[userId]);
    }
  }

  lemma AnswerLeadsThere(s: Setup, w: World, eventId: string, userId: string, partner: string, q: Question, a: Answer,
                         trip: Trip)
    requires IsAbout(w, eventId, userId, partner, q) && TripAsk(s, q, trip).Success? && a.body.first.First?
    requires Fits(a, TripAsk(s, q, trip).value)
    ensures trip == MyTrip(q) ==> LeadsThere(s, w, eventId, userId, a)
    ensures trip == PartnerTrip(q) ==> LeadsThere(s, w, eventId, partner, a)
  {
    if 1000 <= KstFields(q.appointmentAt).year <= 9999 {
      AskedBucketIsAppointments(s, q, trip);
      FittingIsMeant(a, TripAsk(s, q, trip).value, q.appointmentAt);
    } else {
      hide MeantFor;
    }
    hide KstFields, FormatTmapDateTime, ParseTmapDateTime, BucketStart, OneInterval;
  }

  /** Two answers for the question's trips, old at most from then on, tell the route. */
  ghost predicate GivenBy(s: Setup, answers: set<Answer>, q: Question, a: Answer, b: Answer, r: Response, from: int)
  {
    && TripAsk(s, q, MyTrip(q)).Success? && TripAsk(s, q, PartnerTrip(q)).Success?
    && a in answers && b in answers && a.body.first.First? && b.body.first.First?
    && Fits(a, TripAsk(s, q, MyTrip(q)).value) && Fits(b, TripAsk(s, q, PartnerTrip(q)).value)
    && from <= a.at && from <= b.at
    && SaysRoute(s.geo, q.appointmentAt, a.body.first.itinerary, b.body.first.itinerary, r)
  }

  lemma UncachedIsGiven(s: Setup, answers: set<Answer>, q: Question, r: Response, from: int)
    returns (a: Answer, b: Answer)
    requires Uncached(s, answers, q, Success(r), from)
    ensures GivenBy(s, answers, q, a, b, r, from)
  {
    hide Compose, Fits, SaysRoute, ComesTo, MyTrip, PartnerTrip, TripAsk;
    TripsFailAlike(s, q);
    var x, y := TripAsk(s, q, MyTrip(q)), TripAsk(s, q, PartnerTrip(q));
    var mine, partners, now :|
      Success(r) == Compose(s, q, mine, partners, now) && Answered(answers, x.value, mine, from)
      && Answered(answers, y.value, partners, from);
    ComposeComesTo(s, q, mine, partners, now);
    ComesToSays(s.geo, q.appointmentAt, mine, partners, now, r);
    a :| a in answers && Fits(a, x.value) && a.body == mine && from <= a.at;
    b :| b in answers && Fits(b, y.value) && b.body == partners && from <= b.at;
  }

  /** The uncached result for a question about the event tells the route that its answers give. */
  lemma UncachedTells(s: Setup, w: World, answers: set<Answer>, eventId: string, userId: string, force: bool,
                      q: Question, r: Response, from: int)
    requires QuestionOf(w, eventId, userId) == Success(q) && Uncached(s, answers, q, Success(r), from)
    requires from == if force then w.stores.now - InnerTtl(s) + 1 else Horizon(s, w.stores.now)
    ensures Tells(s, w, answers, eventId, userId, force, r)
  {
    LifetimesAre(s, w.stores.now);
    hide QuestionOf, Uncached, GivenBy, IsAbout, FollowsFrom, Horizon, InnerTtl, Longest;
    var partner := QuestionIsAbout(w, eventId, userId);
    var a, b := UncachedIsGiven(s, answers, q, r, from);
    GivenFollows(s, w, answers, eventId, userId, partner, q, a, b, r, from);
  }

  lemma GivenFollows(s: Setup, w: World, answers: set<Answer>, eventId: string, userId: string, partner: string,
                     q: Question, a: Answer, b: Answer, r: Response, from: int)
    requires IsAbout(w, eventId, userId, partner, q) && GivenBy(s, answers, q, a, b, r, from)
    ensures a in answers && b in answers && FollowsFrom(s, w, eventId, userId, partner, a, b, from - 1, r)
  {
    hide Fits, SaysRoute, LeadsThere, IsAbout, MyTrip, PartnerTrip, TripAsk, AreTheTwo;
    AnswerLeadsThere(s, w, eventId, userId, partner, q, a, MyTrip(q));
    AnswerLeadsThere(s, w, eventId, userId, partner, q, b, PartnerTrip(q));
    IsAboutTheTwo(w, eventId, userId, partner, q);
  }

  lemma LifetimesAre(s: Setup, now: int)
    ensures Horizon(s, now) == now - Longest(s) - 90_000_000 + 1 && InnerTtl(s) == Longest(s)
  {}

  lemma IsAboutTheTwo(w: World, eventId: string, userId: string, partner: string, q: Question)
    requires IsAbout(w, eventId, userId, partner, q)
    ensures AreTheTwo(w, eventId, userId, partner) && w.events[eventId].appointmentAt == Some(q.appointmentAt)
  {}

  lemma ComesToSays(geo: Geography, appointmentAt: int, mine: Body, partners: Body, now: int, r: Response)
    requires ComesTo(geo, appointmentAt, mine, partners, now, Success(r))
    ensures mine.first.First? && partners.first.First?
    ensures SaysRoute(geo, appointmentAt, mine.first.itinerary, partners.first.itinerary, r)
  {}

  /** Where the uncached result is an error, it is none of those an earlier check gives. */
  lemma UncachedExplains(s: Setup, w: World, answers: set<Answer>, eventId: string, userId: string, q: Question,
                         e: Error, from: int)
    requires QuestionOf(w, eventId, userId) == Success(q) && Uncached(s, answers, q, Failure(e), from)
    ensures Explains(w, eventId, userId, e)
  {
    QuestionExplains(w, eventId, userId);
    LateErrors(s, answers, q, e, from);
    hide QuestionOf, Uncached, Homeless, Placeless, AreTheTwo;
  }

  lemma LateErrors(s: Setup, answers: set<Answer>, q: Question, e: Error, from: int)
    requires Uncached(s, answers, q, Failure(e), from)
    ensures e in {BadConfiguration, BadArrival, ProviderFailed, NoRouteFound, Crashed}
  {
    hide ParseTmapDateTime, FormatTmapDateTime, BucketStart, Meetup, Departure, Answered;
  }
}
