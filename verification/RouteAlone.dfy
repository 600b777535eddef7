/**
  A request of overlapping ones that runs without any other in between: its steps amount to the
  request as it is described for requests that run one at a time, result included.
  */
module RouteAlone {
  import opened Common
  import opened CacheKeys
  import opened TmapDateTime
  import opened RouteStores
  import opened CoupleRoutes
  import opened RouteInterleaving

  /** What happens in one step of a fetch, taken from what happens during the whole fetch. */
  function TurnOf(leg: Leg, mine: bool, luck: Luck): Turn
  {
    Turn(if leg.ToRead? then luck.readFails else luck.writeFails, mine, luck.reply, luck.ttl)
  }

  function Failing(fails: bool): Turn
  {
    Turn(fails, true, NoReply, 0)
  }

  /** What happens in the next step of a request; the own fetch goes first. */
  function TurnFor(f: Flight, c: Chance): Turn
  {
    match f
    case ReadsRedis(_, _) => Failing(c.readFails)
    case ReadsRow(_, _) => Failing(c.rowReadFails)
    case Refills(_, _, _) => Failing(c.refillFails)
    case Fetches(_, _, mine, partners) =>
      if mine.Got? then TurnOf(partners, false, c.partners) else TurnOf(mine, true, c.mine)
    case SavesRedis(_, _, _) => Failing(c.writeFails)
    case SavesRow(_, _, _) => Failing(c.rowWriteFails)
    case Single(_, _, _, _, leg) => TurnOf(leg, true, c.mine)
    case _ => Failing(false)
  }

  /** At most n steps of a request, with nothing in between. */
  function Drive(s: Setup, w: World, f: Flight, c: Chance, n: nat): (Stores, Flight)
    decreases n
  {
    if n == 0 || Over(f) then (w.stores, f)
    else
      var (after, next) := Step(s, w, f, TurnFor(f, c));
      Drive(s, w.(stores := after), next, c, n - 1)
  }

  // ----- One fetch -----

  function Rank(leg: Leg): nat
  {
    match leg case Got(_) => 0 case ToWrite(_) => 1 case ToCall => 2 case ToRead => 3
  }

  /** What the rest of a fetch comes to. */
  function LegEnd(s: Setup, st: Stores, ask: Ask, arrival: Option<string>, asked: int, leg: Leg, luck: Luck)
    : (Stores, Result<Body, Error>)
    decreases Rank(leg)
  {
    match leg
    case Got(r) => (st, r)
    case _ =>
      var (after, next) := StepLeg(s, st, ask, arrival, asked, leg, TurnOf(leg, true, luck));
      LegEnd(s, after, ask, arrival, asked, next, luck)
  }

  lemma StepLegIgnoresTurn(s: Setup, st: Stores, ask: Ask, arrival: Option<string>, asked: int, leg: Leg, luck: Luck)
    ensures StepLeg(s, st, ask, arrival, asked, leg, TurnOf(leg, true, luck))
         == StepLeg(s, st, ask, arrival, asked, leg, TurnOf(leg, false, luck))
    ensures StepLeg(s, st, ask, arrival, asked, leg, TurnOf(leg, true, luck)).0.now == st.now
    ensures leg.Got? || Rank(StepLeg(s, st, ask, arrival, asked, leg, TurnOf(leg, true, luck)).1) < Rank(leg)
  {
    hide InnerKey;
  }

  /** The steps of a fetch are the fetch. */
  lemma LegIsFetch(s: Setup, st: Stores, trip: Trip, arrival: Option<string>, requested: Option<nat>, luck: Luck)
    ensures Fetch(s, st, trip, arrival, requested, luck)
         == var asked := AskOf(s, st.now, trip, arrival, requested);
            if asked.Failure? then (st, Failure(asked.error))
            else LegEnd(s, st, asked.value, arrival, st.now, ToRead, luck)
  {
    hide InnerKey, Resolve, BaseTime, BucketStart;
  }

  /** A direct route request alone is the fetch. */
  lemma {:induction false} SingleAlone(s: Setup, w: World, trip: Trip, arrival: Option<string>, requested: Option<nat>,
                                       asked: int, ask: Ask, leg: Leg, c: Chance, n: nat)
    requires AskOf(s, asked, trip, arrival, requested) == Success(ask) && n >= Rank(leg)
    ensures Drive(s, w, Single(trip, arrival, requested, asked, leg), c, n)
         == var (after, r) := LegEnd(s, w.stores, ask, arrival, asked, leg, c.mine);
            (after, Single(trip, arrival, requested, asked, Got(r)))
    decreases Rank(leg)
  {
    hide StepLeg, AskOf;
    if !leg.Got? {
      StepLegIgnoresTurn(s, w.stores, ask, arrival, asked, leg, c.mine);
      var (after, next) := StepLeg(s, w.stores, ask, arrival, asked, leg, TurnOf(leg, true, c.mine));
      SingleAlone(s, w.(stores := after), trip, arrival, requested, asked, ask, next, c, n - 1);
    }
  }

  /** Within three steps, a direct route request alone has the result and effect of the serial one. */
  lemma SingleAloneIsFetch(s: Setup, w: World, trip: Trip, arrival: Option<string>, requested: Option<nat>, c: Chance)
    ensures var leg := FirstLeg(AskOf(s, w.stores.now, trip, arrival, requested));
            var (after, r) := Fetch(s, w.stores, trip, arrival, requested, c.mine);
            var f := Single(trip, arrival, requested, w.stores.now, Got(r));
            Drive(s, w, Single(trip, arrival, requested, w.stores.now, leg), c, 3) == (after, f) && Over(f)
  {
    hide StepLeg, Fetch, LegEnd, AskOf;
    LegIsFetch(s, w.stores, trip, arrival, requested, c.mine);
    var asked := AskOf(s, w.stores.now, trip, arrival, requested);
    if asked.Success? {
      SingleAlone(s, w, trip, arrival, requested, w.stores.now, asked.value, ToRead, c, 3);
    } else {
      assert FirstLeg(asked) == Got(Failure(asked.error));
    }
  }

  // ----- The two fetches and what follows -----

  lemma SaveAlone(s: Setup, w: World, q: Question, userId: string, data: Response, c: Chance, n: nat)
    requires q.eventId in w.events && n >= 2
    ensures Drive(s, w, SavesRedis(q, userId, data), c, n)
         == (SaveCache(w.stores, OuterKey(s, q), q.eventId, userId, data, c), Ended(Some(q), Success(data)))
  {
    hide OuterKey;
    var kept := Step(s, w, SavesRedis(q, userId, data), TurnFor(SavesRedis(q, userId, data), c)).0;
    var w1 := w.(stores := kept);
    assert Drive(s, w, SavesRedis(q, userId, data), c, n) == Drive(s, w1, SavesRow(q, userId, data), c, n - 1);
    var saved, f := Step(s, w1, SavesRow(q, userId, data), TurnFor(SavesRow(q, userId, data), c)).0,
      Ended(Some(q), Success(data));
    assert Drive(s, w1, SavesRow(q, userId, data), c, n - 1) == Drive(s, w1.(stores := saved), f, c, n - 2);
  }

  /** What two fetched results come to, and what is saved. */
  function Settled(s: Setup, st: Stores, q: Question, userId: string, mine: Result<Body, Error>,
                   partners: Result<Body, Error>, c: Chance): (Stores, Result<Response, Error>)
  {
    match Combine(s, q, mine, partners, st.now)
    case Failure(e) => (st, Failure(e))
    case Success(r) => (SaveCache(st, OuterKey(s, q), q.eventId, userId, r, c), Success(r))
  }

  lemma CombineAlone(s: Setup, w: World, q: Question, userId: string, mine: Result<Body, Error>,
                     partners: Result<Body, Error>, c: Chance, n: nat)
    requires q.eventId in w.events && n >= 3
    ensures Drive(s, w, Fetches(q, userId, Got(mine), Got(partners)), c, n)
         == var (after, r) := Settled(s, w.stores, q, userId, mine, partners, c); (after, Ended(Some(q), r))
  {
    hide OuterKey, Combine, SaveCache, TripAsk;
    match Combine(s, q, mine, partners, w.stores.now)
    case Failure(e) =>
    case Success(r) => SaveAlone(s, w, q, userId, r, c, n - 1);
  }

  lemma {:induction false} PartnersAlone(s: Setup, w: World, q: Question, userId: string, mine: Result<Body, Error>,
                                         ask: Ask, leg: Leg, c: Chance, n: nat)
    requires q.eventId in w.events && TripAsk(s, q, PartnerTrip(q)) == Success(ask) && n >= Rank(leg) + 3
    ensures Drive(s, w, Fetches(q, userId, Got(mine), leg), c, n)
         == var arrival := Some(FormatTmapDateTime(q.appointmentAt));
            var (two, partners) := LegEnd(s, w.stores, ask, arrival, w.stores.now, leg, c.partners);
            var (after, r) := Settled(s, two, q, userId, mine, partners, c);
            (after, Ended(Some(q), r))
    decreases Rank(leg)
  {
    hide StepLeg, TripAsk, Settled, FormatTmapDateTime, PartnerTrip;
    if leg.Got? {
      CombineAlone(s, w, q, userId, mine, leg.result, c, n);
    } else {
      var arrival := Some(FormatTmapDateTime(q.appointmentAt));
      StepLegIgnoresTurn(s, w.stores, ask, arrival, w.stores.now, leg, c.partners);
      var (after, next) := StepLeg(s, w.stores, ask, arrival, w.stores.now, leg, TurnOf(leg, true, c.partners));
      PartnersAlone(s, w.(stores := after), q, userId, mine, ask, next, c, n - 1);
    }
  }

  lemma {:induction false} BothAlone(s: Setup, w: World, q: Question, userId: string, mine: Ask, partners: Ask,
                                     leg: Leg, c: Chance, n: nat)
    requires q.eventId in w.events && n >= Rank(leg) + 6
    requires TripAsk(s, q, MyTrip(q)) == Success(mine) && TripAsk(s, q, PartnerTrip(q)) == Success(partners)
    ensures Drive(s, w, Fetches(q, userId, leg, ToRead), c, n)
         == var arrival := Some(FormatTmapDateTime(q.appointmentAt));
            var (one, my) := LegEnd(s, w.stores, mine, arrival, w.stores.now, leg, c.mine);
            var (two, their) := LegEnd(s, one, partners, arrival, one.now, ToRead, c.partners);
            var (after, r) := Settled(s, two, q, userId, my, their, c);
            (after, Ended(Some(q), r))
    decreases Rank(leg)
  {
    hide StepLeg, TripAsk, Settled, FormatTmapDateTime, PartnerTrip, MyTrip;
    if leg.Got? {
      PartnersAlone(s, w, q, userId, leg.result, partners, ToRead, c, n);
    } else {
      var arrival := Some(FormatTmapDateTime(q.appointmentAt));
      StepLegIgnoresTurn(s, w.stores, mine, arrival, w.stores.now, leg, c.mine);
      var (after, next) := StepLeg(s, w.stores, mine, arrival, w.stores.now, leg, TurnOf(leg, true, c.mine));
      BothAlone(s, w.(stores := after), q, userId, mine, partners, next, c, n - 1);
    }
  }

  lemma FetchesAlone(s: Setup, w: World, q: Question, userId: string, c: Chance, n: nat)
    requires q.eventId in w.events && n >= 9
    ensures Drive(s, w, StartFetches(s, q, userId), c, n)
         == var (after, r) := Compute(s, w.stores, q, userId, c); (after, Ended(Some(q), r))
  {
    hide Drive, Step, StepLeg, Fetch, LegEnd, OuterKey, SaveCache, FormatTmapDateTime, MyTrip, PartnerTrip;
    TripsFailAlike(s, q);
    var arrival := Some(FormatTmapDateTime(q.appointmentAt));
    var one := Fetch(s, w.stores, MyTrip(q), arrival, None, c.mine).0;
    FetchTakesNoTime(s, w.stores, MyTrip(q), arrival, None, c.mine);
    FetchTakesNoTime(s, one, PartnerTrip(q), arrival, None, c.partners);
    LegIsFetch(s, w.stores, MyTrip(q), arrival, None, c.mine);
    LegIsFetch(s, one, PartnerTrip(q), arrival, None, c.partners);
    match TripAsk(s, q, MyTrip(q))
    case Failure(e) => CombineAlone(s, w, q, userId, Failure(e), Failure(e), c, n);
    case Success(mine) => BothAlone(s, w, q, userId, mine, TripAsk(s, q, PartnerTrip(q)).value, ToRead, c, n);
  }

  lemma FetchTakesNoTime(s: Setup, st: Stores, trip: Trip, arrival: Option<string>, requested: Option<nat>, luck: Luck)
    ensures Fetch(s, st, trip, arrival, requested, luck).0.now == st.now
  {
    hide InnerKey, AskOf;
  }

  // ----- The whole analysis -----

  lemma AnswerAlone(s: Setup, w: World, q: Question, userId: string, force: bool, c: Chance, n: nat)
    requires q.eventId in w.events && n >= 11
    ensures Drive(s, w, if force then StartFetches(s, q, userId) else ReadsRedis(q, userId), c, n)
         == var (after, r) := AnswerTo(s, w.stores, q, userId, force, c); (after, Ended(Some(q), r))
  {
    hide OuterKey, Compute, StartFetches, Drive;
    if force {
      FetchesAlone(s, w, q, userId, c, n);
    } else {
      OneStep(s, w, ReadsRedis(q, userId), c, n);
      var (_, first) := Step(s, w, ReadsRedis(q, userId), TurnFor(ReadsRedis(q, userId), c));
      if Over(first) {
        EndedStays(s, w, first, c, n - 1);
      } else {
        RowAlone(s, w, q, userId, c, n - 1);
      }
    }
  }

  lemma RowAlone(s: Setup, w: World, q: Question, userId: string, c: Chance, n: nat)
    requires q.eventId in w.events && n >= 10
    ensures Drive(s, w, ReadsRow(q, userId), c, n)
         == var (checked, hit) := CheckCache(w.stores, OuterKey(s, q), q.eventId, userId, c.(readFails := true));
            if hit.Some? then (checked, Ended(Some(q), Success(hit.value)))
            else var (after, r) := Compute(s, w.stores, q, userId, c); (after, Ended(Some(q), r))
  {
    hide OuterKey, Compute, FirstLeg, TripAsk, Drive;
    OneStep(s, w, ReadsRow(q, userId), c, n);
    var (_, f) := Step(s, w, ReadsRow(q, userId), TurnFor(ReadsRow(q, userId), c));
    assert w.(stores := w.stores) == w;
    if f.Refills? {
      OneStep(s, w, f, c, n - 1);
      var (after, last) := Step(s, w, f, TurnFor(f, c));
      EndedStays(s, w.(stores := after), last, c, n - 2);
    } else {
      FetchesAlone(s, w, q, userId, c, n - 1);
    }
  }

  /**
    Within thirteen steps, an analysis that runs without any other request in between has the
    result and the effect of the analysis at one instant.
    */
  lemma AloneIsAnalyze(s: Setup, w: World, eventId: string, userId: string, force: bool, c: Chance)
    ensures var (after, f) := Drive(s, w, Arrived(eventId, userId, force), c, 13);
            && Over(f) && f.Ended?
            && (w.(stores := after), f.outcome) == Analyze(s, w, eventId, userId, force, c)
  {
    hide AnswerTo, StartFetches, StepFetches, AskAbout;
    if eventId in w.events {
      var event := w.events[eventId];
      AskKeepsEvent(w, eventId, event, userId);
      OneStep(s, w, Arrived(eventId, userId, force), c, 13);
      OneStep(s, w, HasEvent(eventId, userId, force, event), c, 12);
      match AskAbout(w, eventId, event, userId)
      case Failure(e) => EndedStays(s, w, Ended(None, Failure(e)), c, 11);
      case Success(q) => AnswerAlone(s, w, q, userId, force, c, 11);
    }
  }

  lemma OneStep(s: Setup, w: World, f: Flight, c: Chance, n: nat)
    requires n > 0 && !Over(f)
    ensures Drive(s, w, f, c, n)
         == var (after, next) := Step(s, w, f, TurnFor(f, c)); Drive(s, w.(stores := after), next, c, n - 1)
  {
    hide Step, TurnFor;
  }

  lemma EndedStays(s: Setup, w: World, f: Flight, c: Chance, n: nat)
    requires Over(f)
    ensures Drive(s, w, f, c, n) == (w.stores, f)
  {}

  lemma AskKeepsEvent(w: World, eventId: string, event: Event, userId: string)
    ensures var asked := AskAbout(w, eventId, event, userId);
            asked.Success? ==> asked.value.eventId == eventId
  {}
}
