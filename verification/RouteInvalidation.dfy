/**
  What edits leave in the couple-route caches.  As long as no store call fails, every entry
  Redis holds for a live event has a row under the same key, so clearing the keys of an event's
  rows clears Redis as well.  One failed row write is enough to break this.
  */
module RouteInvalidation {
  import opened Common
  import opened CacheKeys
  import opened Calendar
  import opened TmapDateTime
  import opened RouteStores
  import opened CoupleRoutes

  /** No store call of the request fails. */
  predicate Flawless(op: Op)
  {
    match op
    case DoAnalyze(_, _, _, c) =>
      !c.readFails && !c.rowReadFails && !c.refillFails && !c.writeFails && !c.rowWriteFails
    case DoUpdateEvent(_, _, _, m) => !m.findFails && !m.dropFails && !m.deleteFails
    case DoRemoveEvent(_, _, m) => !m.findFails && !m.dropFails && !m.deleteFails
    case DoUpdateMe(_, _, m) => !m.findFails && !m.dropFails && !m.deleteFails
    case _ => true
  }

  /** Neither layer holds an entry for any question about this event. */
  ghost predicate Cleared(s: Setup, w: World, eventId: string)
  {
    forall q: Question :: Plain(q) && q.eventId == eventId ==>
      OuterKey(s, q) !in w.stores.redis && OuterKey(s, q) !in w.stores.rows
  }

  /** An entry's event id was used; an entry of a live event has a row; a row belongs to its question's event. */
  ghost predicate CoveredAt(s: Setup, w: World, q: Question)
  {
    var k := OuterKey(s, q);
    && (k in w.stores.redis ==> q.eventId in w.used)
    && (k in w.stores.redis && q.eventId in w.events ==> k in w.stores.rows)
    && (k in w.stores.rows ==> w.stores.rows[k].eventId == q.eventId)
  }

  ghost predicate Covered(s: Setup, w: World)
  {
    forall q: Question :: Plain(q) ==> CoveredAt(s, w, q)
  }

  /** An invalidation without failures clears the events it is about and leaves the others alone. */
  lemma InvalidateClears(s: Setup, w: World, eventIds: set<string>, m: Mishap, q: Question)
    requires CoveredAt(s, w, q) && !m.findFails && !m.dropFails && !m.deleteFails
    ensures var after := Invalidate(w.stores, eventIds, m);
            var k := OuterKey(s, q);
            if q.eventId in eventIds then
              && k !in after.rows && (q.eventId in w.events ==> k !in after.redis)
              && (k in after.redis ==> k in w.stores.redis)
            else
              && (k in after.redis <==> k in w.stores.redis)
              && (k in after.rows <==> k in w.stores.rows)
              && (k in after.rows ==> after.rows[k] == w.stores.rows[k])
  {
    hide OuterKey;
    var k := OuterKey(s, q);
    assert k in w.stores.rows ==> (k in KeysOf(w.stores, eventIds) <==> q.eventId in eventIds);
  }

  /** Without failures, what an analysis leaves under its own key is in both layers or in the table. */
  lemma AnswerCovers(s: Setup, w: World, asked: Question, userId: string, force: bool, c: Chance, q: Question)
    requires ValidSetup(s) && Plain(asked) && Plain(q) && CoveredAt(s, w, q) && asked.eventId in w.used
    requires Flawless(DoAnalyze(asked.eventId, userId, force, c))
    ensures CoveredAt(s, w.(stores := AnswerTo(s, w.stores, asked, userId, force, c).0), q)
  {
    hide Fetch, OuterKey, Combine, MyTrip, PartnerTrip, Plain, ValidSetup, FormatTmapDateTime;
    if OuterKey(s, asked) == OuterKey(s, q) {
      OuterKeyIdentifies(s, asked, q);
    }
    var arrival := Some(FormatTmapDateTime(asked.appointmentAt));
    var checked := if force then w.stores else CheckCache(w.stores, OuterKey(s, asked), asked.eventId, userId, c).0;
    var (one, mine) := Fetch(s, checked, MyTrip(asked), arrival, None, c.mine);
    FetchLeavesCouples(s, checked, MyTrip(asked), arrival, None, c.mine, q);
    FetchLeavesCouples(s, one, PartnerTrip(asked), arrival, None, c.partners, q);
  }

  lemma AnalyzeCovers(s: Setup, w: World, eventId: string, userId: string, force: bool, c: Chance, q: Question)
    requires ValidSetup(s) && Plain(q) && CoveredAt(s, w, q) && InOrder(w)
    requires Flawless(DoAnalyze(eventId, userId, force, c))
    ensures CoveredAt(s, Analyze(s, w, eventId, userId, force, c).0, q)
  {
    hide AnswerTo, Plain, ValidSetup, CoveredAt;
    if QuestionOf(w, eventId, userId).Success? {
      QuestionIsPlain(w, eventId, userId);
      AnswerCovers(s, w, QuestionOf(w, eventId, userId).value, userId, force, c, q);
    }
  }

  lemma DeleteCovers(s: Setup, w: World, eventIds: set<string>, q: Question)
    requires CoveredAt(s, w, q)
    ensures CoveredAt(s, DeleteEvents(w, eventIds), q)
  {}

  lemma InvalidateCovers(s: Setup, w: World, eventIds: set<string>, m: Mishap, q: Question)
    requires CoveredAt(s, w, q) && !m.findFails && !m.dropFails && !m.deleteFails
    ensures CoveredAt(s, w.(stores := Invalidate(w.stores, eventIds, m)), q)
  {
    InvalidateClears(s, w, eventIds, m, q);
    hide OuterKey;
  }

  lemma DoCovers(s: Setup, w: World, op: Op, q: Question)
    requires ValidSetup(s) && Plain(q) && CoveredAt(s, w, q) && InOrder(w) && Allowed(s, w, op) && Flawless(op)
    ensures CoveredAt(s, Do(s, w, op), q)
  {
    hide OuterKey, Plain, ValidSetup, Analyze, Fetch, Invalidate, DeleteEvents;
    match op
    case DoAnalyze(e, u, force, c) => AnalyzeCovers(s, w, e, u, force, c, q);
    case DoRoute(trip, arrival, requested, luck) => FetchLeavesCouples(s, w.stores, trip, arrival, requested, luck, q);
    case DoUpdateEvent(e, u, p, m) => InvalidateCovers(s, w, {e}, m, q);
    case DoRemoveEvent(e, u, m) =>
      InvalidateCovers(s, w, {e}, m, q);
      DeleteCovers(s, w.(stores := Invalidate(w.stores, {e}, m)), {e}, q);
    case DoUpdateMe(u, p, m) => InvalidateCovers(s, w, EventsOf(w, u), m, q);
    case DoBreakUp(c) => DeleteCovers(s, w, EventsOfCouple(w, c), q);
    case _ =>
  }

  lemma StepCovers(s: Setup, w: World, op: Op)
    requires ValidSetup(s) && Covered(s, w) && InOrder(w) && Allowed(s, w, op) && Flawless(op)
    ensures Covered(s, Do(s, w, op))
  {
    hide Do, InOrder, ValidSetup, Allowed, Plain, CoveredAt, Flawless;
    forall q: Question | Plain(q)
      ensures CoveredAt(s, Do(s, w, op), q)
    {
      DoCovers(s, w, op, q);
    }
  }

  /** After any run without failures, every entry of a live event has its row. */
  lemma {:induction false} RunCovers(s: Setup, ws: seq<World>, ops: seq<Op>, n: nat)
    requires ValidSetup(s) && Run(s, ws, ops) && n <= |ops|
    requires forall j {:trigger ops[j]} :: 0 <= j < n ==> Flawless(ops[j])
    ensures Covered(s, ws[n])
  {
    hide Do, Sound, InOrder, ValidSetup, Allowed, Flawless, OuterKey, Plain;
    if n > 0 {
      hide Covered;
      RunCovers(s, ws, ops, n - 1);
      RunKeepsInv(s, ws, ops, n - 1);
      var op := ops[n - 1];
      assert ws[n - 1 + 1] == Do(s, ws[n - 1], op);
      StepCovers(s, ws[n - 1], op);
    }
  }

  // ----- One couple each -----

  predicate BelongsTo(w: World, c: string, userId: string)
  {
    c in w.couples && (w.couples[c].0 == userId || w.couples[c].1 == userId)
  }

  ghost predicate OneCoupleEach(w: World)
  {
    && (forall c, u :: BelongsTo(w, c, u) ==> u in w.homes)
    && (forall c, d, u :: BelongsTo(w, c, u) && BelongsTo(w, d, u) ==> c == d)
  }

  lemma StepKeepsOneCouple(s: Setup, w: World, op: Op)
    requires OneCoupleEach(w) && Allowed(s, w, op)
    ensures OneCoupleEach(Do(s, w, op))
  {
    hide AnswerTo, Fetch, Invalidate, QuestionOf, FairTtl;
    var after := Do(s, w, op);
    if op.DoJoin? {
      assert forall c, u :: BelongsTo(after, c, u) <==> BelongsTo(w, c, u) || (c == op.coupleId && u in {op.a, op.b});
    } else {
      assert forall c, u :: BelongsTo(after, c, u) ==> BelongsTo(w, c, u);
    }
  }

  /** In every run the couples of one user's events are one couple: an edit of a home has one batch to invalidate. */
  lemma {:induction false} UserHasOneBatch(s: Setup, ws: seq<World>, ops: seq<Op>, n: nat, userId: string)
    requires Run(s, ws, ops) && n <= |ops|
    ensures OneCoupleEach(ws[n])
    ensures forall e, f :: e in EventsOf(ws[n], userId) && f in EventsOf(ws[n], userId) ==>
              ws[n].events[e].coupleId == ws[n].events[f].coupleId
  {
    if n > 0 {
      UserHasOneBatch(s, ws, ops, n - 1, userId);
      assert ws[n - 1 + 1] == Do(s, ws[n - 1], ops[n - 1]);
      hide Do, Allowed, OneCoupleEach;
      StepKeepsOneCouple(s, ws[n - 1], ops[n - 1]);
    }
    EventsShareCouple(ws[n], userId);
  }

  lemma EventsShareCouple(w: World, userId: string)
    requires OneCoupleEach(w)
    ensures forall e, f :: e in EventsOf(w, userId) && f in EventsOf(w, userId) ==>
              w.events[e].coupleId == w.events[f].coupleId
  {
    forall e | e in EventsOf(w, userId)
      ensures BelongsTo(w, w.events[e].coupleId, userId)
    {}
  }

  lemma FetchKeepsClock(s: Setup, st: Stores, trip: Trip, arrival: Option<string>, requested: Option<nat>, luck: Luck)
    ensures Fetch(s, st, trip, arrival, requested, luck).0.now == st.now
  {
    hide InnerKey, AskOf;
  }

  lemma AnswerKeepsClock(s: Setup, st: Stores, q: Question, userId: string, force: bool, c: Chance)
    ensures AnswerTo(s, st, q, userId, force, c).0.now == st.now
  {
    hide OuterKey, Fetch, Combine, FormatTmapDateTime;
    var arrival := Some(FormatTmapDateTime(q.appointmentAt));
    var checked := if force then st else CheckCache(st, OuterKey(s, q), q.eventId, userId, c).0;
    FetchKeepsClock(s, checked, MyTrip(q), arrival, None, c.mine);
    var one := Fetch(s, checked, MyTrip(q), arrival, None, c.mine).0;
    FetchKeepsClock(s, one, PartnerTrip(q), arrival, None, c.partners);
  }

  /** Time passes only by waiting. */
  lemma ClockIsWaiting(s: Setup, w: World, op: Op)
    ensures Do(s, w, op).stores.now == w.stores.now + (if op.DoWait? then op.ms else 0)
  {
    hide AnswerTo, Fetch, QuestionOf, KeysOf, EventsOf;
    match op
    case DoAnalyze(e, u, force, c) =>
      if QuestionOf(w, e, u).Success? {
        AnswerKeepsClock(s, w.stores, QuestionOf(w, e, u).value, u, force, c);
      }
    case DoRoute(trip, arrival, requested, luck) => FetchKeepsClock(s, w.stores, trip, arrival, requested, luck);
    case _ =>
  }

  // ----- After an edit -----

  /** The events whose cached routes an operation is meant to clear. */
  function Affected(w: World, op: Op): set<string>
  {
    match op
    case DoUpdateEvent(e, u, p, _) => if MemberOfEvent(w, e, u) && MovesPlaceOrTime(p) then {e} else {}
    case DoRemoveEvent(e, u, _) => if MemberOfEvent(w, e, u) then {e} else {}
    case DoUpdateMe(u, p, _) => if u in w.homes && (p.lat.Some? || p.lng.Some?) then EventsOf(w, u) else {}
    case _ => {}
  }

  lemma RemovalSettles(w: World, eventId: string, userId: string, m: Mishap, k: string)
    requires MemberOfEvent(w, eventId, userId) && !m.findFails && !m.dropFails && !m.deleteFails
    ensures var after := RemoveEvent(w, eventId, userId, m).stores;
            var invalidated := Invalidate(w.stores, {eventId}, m);
            && after.redis == invalidated.redis
            && (k in after.rows <==> k in invalidated.rows && invalidated.rows[k].eventId != eventId)
  {
    hide Invalidate;
  }

  /** An edit's effect on one question, without failures. */
  lemma EditSettles(s: Setup, w: World, op: Op, q: Question)
    requires CoveredAt(s, w, q) && Allowed(s, w, op) && Flawless(op)
    requires op.DoUpdateEvent? || op.DoRemoveEvent? || op.DoUpdateMe?
    ensures var after, k := Do(s, w, op).stores, OuterKey(s, q);
            if q.eventId in Affected(w, op) then k !in after.redis && k !in after.rows
            else (k in after.redis <==> k in w.stores.redis) && (k in after.rows <==> k in w.stores.rows)
  {
    hide OuterKey, Invalidate, Analyze, Fetch;
    var k := OuterKey(s, q);
    match op
    case DoUpdateEvent(e, u, p, m) => InvalidateClears(s, w, {e}, m, q);
    case DoUpdateMe(u, p, m) => InvalidateClears(s, w, EventsOf(w, u), m, q);
    case DoRemoveEvent(e, u, m) =>
      InvalidateClears(s, w, {e}, m, q);
      if MemberOfEvent(w, e, u) {
        RemovalSettles(w, e, u, m, k);
        hide DeleteEvents, KeysOf;
      }
  }

  /**
    Without failures, an edit of an event's place or time, its removal, and a move of either
    partner's home leave no entry in either layer for any event they touch.
    */
  lemma EditsLeaveNothing(s: Setup, ws: seq<World>, ops: seq<Op>, n: nat, eventId: string)
    requires ValidSetup(s) && Run(s, ws, ops) && n < |ops|
    requires forall j {:trigger ops[j]} :: 0 <= j <= n ==> Flawless(ops[j])
    requires eventId in Affected(ws[n], ops[n])
    ensures Cleared(s, ws[n + 1], eventId)
  {
    RunCovers(s, ws, ops, n);
    var op := ops[n];
    assert ws[n + 1] == Do(s, ws[n], op) && Flawless(op);
    assert op.DoUpdateEvent? || op.DoRemoveEvent? || op.DoUpdateMe?;
    hide OuterKey, Plain, ValidSetup, Do, CoveredAt, Affected, Flawless;
    forall q: Question | Plain(q) && q.eventId == eventId
      ensures OuterKey(s, q) !in ws[n + 1].stores.redis && OuterKey(s, q) !in ws[n + 1].stores.rows
    {
      EditSettles(s, ws[n], op, q);
    }
  }

  /** What an event's route depends on has changed. */
  predicate HasMoved(was: Event, now: Event)
  {
    was.place.lat != now.place.lat || was.place.lng != now.place.lng || was.appointmentAt != now.appointmentAt
  }

  /** The user is one of the couple that the event is for. */
  predicate IsFor(w: World, eventId: string, userId: string)
  {
    && eventId in w.events && w.events[eventId].coupleId in w.couples
    && (w.couples[w.events[eventId].coupleId].0 == userId || w.couples[w.events[eventId].coupleId].1 == userId)
  }

  predicate HomeMoved(w: World, after: World, userId: string)
  {
    userId in w.homes && userId in after.homes && w.homes[userId] != after.homes[userId]
  }

  lemma ChangeIsMeant(s: Setup, w: World, op: Op, e: string)
    requires InOrder(w) && Allowed(s, w, op) && e in w.events
    ensures e in Do(s, w, op).events && HasMoved(w.events[e], Do(s, w, op).events[e]) ==> e in Affected(w, op)
    ensures e !in Do(s, w, op).events && !op.DoBreakUp? ==> e in Affected(w, op)
  {
    hide AnswerTo, Fetch, Invalidate, QuestionOf;
  }

  lemma MoveIsMeant(s: Setup, w: World, op: Op, e: string, u: string)
    requires Allowed(s, w, op) && IsFor(w, e, u)
    requires HomeMoved(w, Do(s, w, op), u)
    ensures e in Affected(w, op)
  {
    hide AnswerTo, Fetch, Invalidate, QuestionOf;
  }

  /**
    Told by what is stored: without failures, whatever operation changes the place or the time of
    an event, or removes an event other than with its couple, or changes the home of one of its
    two users, leaves no entry for it in either layer.
    */
  lemma ChangesLeaveNothing(s: Setup, ws: seq<World>, ops: seq<Op>, n: nat, e: string)
    requires ValidSetup(s) && Run(s, ws, ops) && n < |ops| && e in ws[n].events
    requires forall j {:trigger ops[j]} :: 0 <= j <= n ==> Flawless(ops[j])
    ensures e in ws[n + 1].events && HasMoved(ws[n].events[e], ws[n + 1].events[e]) ==> Cleared(s, ws[n + 1], e)
    ensures e !in ws[n + 1].events && !ops[n].DoBreakUp? ==> Cleared(s, ws[n + 1], e)
    ensures forall u :: IsFor(ws[n], e, u) && HomeMoved(ws[n], ws[n + 1], u) ==> Cleared(s, ws[n + 1], e)
  {
    assert ws[n + 1] == Do(s, ws[n], ops[n]) && Allowed(s, ws[n], ops[n]);
    RunKeepsInv(s, ws, ops, n);
    hide Do, Allowed, Affected, Cleared, HasMoved, IsFor, HomeMoved, Flawless, ValidSetup, Sound, InOrder;
    ChangeIsMeant(s, ws[n], ops[n], e);
    if e in Affected(ws[n], ops[n]) {
      EditsLeaveNothing(s, ws, ops, n, e);
    }
    forall u | IsFor(ws[n], e, u) && HomeMoved(ws[n], ws[n + 1], u)
      ensures Cleared(s, ws[n + 1], e)
    {
      MoveIsMeant(s, ws[n], ops[n], e, u);
    }
  }

  lemma StrangersAreSpared(w: World, op: Op, e: string)
    requires op.DoUpdateEvent? || op.DoRemoveEvent? ==> e != op.eventId
    requires op.DoUpdateMe? ==> !IsFor(w, e, op.userId)
    ensures e !in Affected(w, op)
  {}

  /** Told likewise: an edit leaves the entries of every event it does not name and of every couple it is not about. */
  lemma ChangesSpareOthers(s: Setup, ws: seq<World>, ops: seq<Op>, n: nat, q: Question)
    requires ValidSetup(s) && Run(s, ws, ops) && n < |ops| && Plain(q)
    requires forall j {:trigger ops[j]} :: 0 <= j <= n ==> Flawless(ops[j])
    requires match ops[n]
             case DoUpdateEvent(e, _, _, _) => q.eventId != e
             case DoRemoveEvent(e, _, _) => q.eventId != e
             case DoUpdateMe(u, _, _) => !IsFor(ws[n], q.eventId, u)
             case _ => false
    ensures var k := OuterKey(s, q);
            && (k in ws[n + 1].stores.redis <==> k in ws[n].stores.redis)
            && (k in ws[n + 1].stores.rows <==> k in ws[n].stores.rows)
  {
    StrangersAreSpared(ws[n], ops[n], q.eventId);
    hide OuterKey, Plain, ValidSetup, Run, Affected, Flawless;
    EditsSpareOthers(s, ws, ops, n, q);
  }

  /** The other events keep what they had. */
  lemma EditsSpareOthers(s: Setup, ws: seq<World>, ops: seq<Op>, n: nat, q: Question)
    requires ValidSetup(s) && Run(s, ws, ops) && n < |ops| && Plain(q)
    requires forall j {:trigger ops[j]} :: 0 <= j <= n ==> Flawless(ops[j])
    requires ops[n].DoUpdateEvent? || ops[n].DoRemoveEvent? || ops[n].DoUpdateMe?
    requires q.eventId !in Affected(ws[n], ops[n])
    ensures var k := OuterKey(s, q);
            && (k in ws[n + 1].stores.redis <==> k in ws[n].stores.redis)
            && (k in ws[n + 1].stores.rows <==> k in ws[n].stores.rows)
  {
    RunCovers(s, ws, ops, n);
    hide OuterKey, Plain, ValidSetup, Do, CoveredAt, Affected, Flawless;
    assert ws[n + 1] == Do(s, ws[n], ops[n]);
    EditSettles(s, ws[n], ops[n], q);
  }

  lemma InvalidateClearsIffRow(st: Stores, eventIds: set<string>, m: Mishap, k: string)
    requires k in st.rows ==> st.rows[k].eventId in eventIds
    requires !m.findFails && !m.dropFails && !m.deleteFails
    ensures var after := Invalidate(st, eventIds, m);
            k !in after.rows && (k in after.redis <==> k in st.redis && k !in st.rows)
  {}

  lemma DoClearsIffRow(s: Setup, w: World, op: Op, k: string)
    requires Allowed(s, w, op) && Flawless(op) && Affected(w, op) != {}
    requires k in w.stores.rows ==> w.stores.rows[k].eventId in Affected(w, op)
    ensures var after := Do(s, w, op).stores;
            k !in after.rows && (k in after.redis <==> k in w.stores.redis && k !in w.stores.rows)
  {
    InvalidateClearsIffRow(w.stores, Affected(w, op), op.mishap, k);
    hide Invalidate, Analyze, Fetch, FairTtl;
  }

  /**
    After any run, with any failures before: an edit whose own calls succeed clears the rows of
    the events it touches, and leaves an entry in Redis exactly where it had no row.
    */
  lemma EditClearsIffRow(s: Setup, ws: seq<World>, ops: seq<Op>, n: nat, q: Question)
    requires ValidSetup(s) && Run(s, ws, ops) && n < |ops| && Plain(q) && Flawless(ops[n])
    requires q.eventId in Affected(ws[n], ops[n])
    ensures var k := OuterKey(s, q);
            && k !in ws[n + 1].stores.rows
            && (k in ws[n + 1].stores.redis <==> k in ws[n].stores.redis && k !in ws[n].stores.rows)
  {
    RunKeepsInv(s, ws, ops, n);
    OldRowIsOwn(s, ws[n].stores, q);
    hide OuterKey, Plain, ValidSetup, Sound, Do, Affected, Flawless, Allowed, InOrder;
    assert ws[n + 1] == Do(s, ws[n], ops[n]);
    DoClearsIffRow(s, ws[n], ops[n], OuterKey(s, q));
  }

  /** A route computed afresh whose row write fails is in Redis without a row. */
  lemma LostRowLeavesEntry(s: Setup, st: Stores, q: Question, userId: string, c: Chance)
    requires OuterKey(s, q) !in st.rows && !c.writeFails && c.rowWriteFails && Compute(s, st, q, userId, c).1.Success?
    ensures var after := Compute(s, st, q, userId, c).0;
            OuterKey(s, q) in after.redis && OuterKey(s, q) !in after.rows
  {
    var arrival := Some(FormatTmapDateTime(q.appointmentAt));
    hide OuterKey, Fetch, Combine, MyTrip, PartnerTrip, FormatTmapDateTime;
    var (one, mine) := Fetch(s, st, MyTrip(q), arrival, None, c.mine);
    FetchLeavesCouples(s, st, MyTrip(q), arrival, None, c.mine, q);
    FetchLeavesCouples(s, one, PartnerTrip(q), arrival, None, c.partners, q);
  }

  /** Any part of a run, from any tables. */
  ghost predicate Stretch(s: Setup, ws: seq<World>, ops: seq<Op>)
  {
    && |ws| == |ops| + 1
    && forall n {:trigger ops[n]} :: 0 <= n < |ops| ==> Allowed(s, ws[n], ops[n]) && ws[n + 1] == Do(s, ws[n], ops[n])
  }

  /** Neither an analysis, which may write the missing row, nor Redis dropping entries by itself. */
  predicate NeitherAnalysisNorLoss(op: Op)
  {
    !op.DoAnalyze? && !op.DoForget?
  }

  lemma RowlessEntryOutlivesOp(s: Setup, w: World, op: Op, q: Question)
    requires Allowed(s, w, op) && NeitherAnalysisNorLoss(op)
    requires OuterKey(s, q) in w.stores.redis && OuterKey(s, q) !in w.stores.rows
    ensures OuterKey(s, q) in Do(s, w, op).stores.redis && OuterKey(s, q) !in Do(s, w, op).stores.rows
    ensures Do(s, w, op).stores.redis[OuterKey(s, q)] == w.stores.redis[OuterKey(s, q)]
  {
    hide OuterKey, Fetch, FairTtl, Unattached;
    if op.DoRoute? {
      FetchLeavesCouples(s, w.stores, op.trip, op.arrival, op.requested, op.luck, q);
    }
  }

  /**
    An entry without a row outlives every edit, move, removal and break-up, in any number and
    however well their own calls go, until an analysis writes the row or Redis drops the entry.
    */
  lemma {:induction false} RowlessEntryOutlivesEdits(s: Setup, ws: seq<World>, ops: seq<Op>, n: nat, q: Question)
    requires Stretch(s, ws, ops) && n <= |ops|
    requires forall j {:trigger ops[j]} :: 0 <= j < n ==> NeitherAnalysisNorLoss(ops[j])
    requires OuterKey(s, q) in ws[0].stores.redis && OuterKey(s, q) !in ws[0].stores.rows
    ensures OuterKey(s, q) in ws[n].stores.redis && OuterKey(s, q) !in ws[n].stores.rows
    ensures ws[n].stores.redis[OuterKey(s, q)] == ws[0].stores.redis[OuterKey(s, q)]
  {
    hide Do, OuterKey, Allowed, NeitherAnalysisNorLoss;
    if n > 0 {
      RowlessEntryOutlivesEdits(s, ws, ops, n - 1, q);
      assert ws[n - 1 + 1] == Do(s, ws[n - 1], ops[n - 1]);
      RowlessEntryOutlivesOp(s, ws[n - 1], ops[n - 1], q);
    }
  }

  /**
    With one failed row write, an analysis leaves an entry that all edits after it leave too,
    until another analysis writes the row.
    */
  lemma LostRowOutlivesEdits(s: Setup, ws: seq<World>, ops: seq<Op>, n: nat, q: Question, userId: string, c: Chance)
    requires Stretch(s, ws, ops) && 1 <= n <= |ops|
    requires ops[0] == DoAnalyze(q.eventId, userId, true, c) && QuestionOf(ws[0], q.eventId, userId) == Success(q)
    requires !c.writeFails && c.rowWriteFails && Analyze(s, ws[0], q.eventId, userId, true, c).1.Success?
    requires OuterKey(s, q) !in ws[0].stores.rows
    requires forall j {:trigger ops[j]} :: 1 <= j < n ==> NeitherAnalysisNorLoss(ops[j])
    ensures OuterKey(s, q) in ws[n].stores.redis && OuterKey(s, q) !in ws[n].stores.rows
  {
    hide OuterKey, Compute, QuestionOf, Allowed, NeitherAnalysisNorLoss;
    LostRowLeavesEntry(s, ws[0].stores, q, userId, c);
    assert ws[0 + 1] == Do(s, ws[0], ops[0]);
    forall i | 0 <= i < |ops[1..]|
      ensures Allowed(s, ws[1..][i], ops[1..][i]) && ws[1..][i + 1] == Do(s, ws[1..][i], ops[1..][i])
    {
      assert ops[1..][i] == ops[i + 1];
    }
    hide Do;
    RowlessEntryOutlivesEdits(s, ws[1..], ops[1..], n - 1, q);
  }

  // ----- One such case -----

  const Spot := Place(Some("1"), Some("1"))

  /** One event at the epoch; the place and both homes have the coordinates 1, 1. */
  function OneEvent(): World
  {
    World(Stores(0, map[], map[], {}), map["e" := Event("c", Spot, Some(0))], map["c" := ("a", "b")],
          map["a" := Spot, "b" := Spot], {"e"})
  }

  function OneQuestion(): Question
  {
    Question("e", 0, "1", "1", "1", "1", "1", "1")
  }

  /** Both fetches are answered with an itinerary without legs; only the row write fails. */
  function OneLostRow(s: Setup): Chance
  {
    var answered := Luck(false, Reply(Body(true, First(Itinerary(0, 0, [])))), false, TtlMin(s));
    Chance(false, false, false, false, true, answered, answered)
  }

  lemma EpochIsFourDigits()
    ensures KstFields(0).year == 1970
  {
    YearIsUnique(0, 1970);
    assert (0 + KST_OFFSET) / MS_PER_DAY == 0;
  }

  lemma AnsweredFetchSucceeds(s: Setup, st: Stores, trip: Trip, luck: Luck)
    requires s.minutes >= 1 && luck.reply == Reply(Body(true, First(Itinerary(0, 0, []))))
    requires luck.readFails || forall ask: Ask :: Live(st, InnerKey(s, ask)).Some? ==>
               Live(st, InnerKey(s, ask)) == Some(SingleRoute(luck.reply.body))
    ensures Fetch(s, st, trip, Some(FormatTmapDateTime(0)), None, luck).1 == Success(luck.reply.body)
  {
    EpochIsFourDigits();
    BucketOfPrintedTime(0, s.minutes);
    hide InnerKey, FormatTmapDateTime, ParseTmapDateTime, BucketStart, KstFields;
  }

  lemma OneQuestionIsAsked()
    ensures QuestionOf(OneEvent(), "e", "a") == Success(OneQuestion())
  {}

  /** After a fetch from an empty Redis, whatever is live is the body it returned. */
  lemma FirstFetchLeavesBody(s: Setup, st: Stores, trip: Trip, arrival: Option<string>, luck: Luck, ask: Ask)
    requires st.redis == map[] && luck.reply.Reply?
    ensures var one := Fetch(s, st, trip, arrival, None, luck).0;
            Live(one, InnerKey(s, ask)).Some? ==> Live(one, InnerKey(s, ask)) == Some(SingleRoute(luck.reply.body))
  {
    hide AskOf, InnerKey;
  }

  lemma ComposeSucceeds(s: Setup, q: Question, body: Body, now: int)
    requires body.first.First?
    ensures Compose(s, q, body, body, now).Success?
  {}

  lemma OneAnswerSucceeds(s: Setup)
    requires s.minutes >= 1
    ensures Compute(s, OneEvent().stores, OneQuestion(), "a", OneLostRow(s)).1.Success?
  {
    var q, c, st := OneQuestion(), OneLostRow(s), OneEvent().stores;
    var arrival := Some(FormatTmapDateTime(q.appointmentAt));
    var one := Fetch(s, st, MyTrip(q), arrival, None, c.mine).0;
    AnsweredFetchSucceeds(s, st, MyTrip(q), c.mine);
    forall ask: Ask
      ensures Live(one, InnerKey(s, ask)).Some? ==> Live(one, InnerKey(s, ask)) == Some(SingleRoute(c.mine.reply.body))
    {
      FirstFetchLeavesBody(s, st, MyTrip(q), arrival, c.mine, ask);
    }
    hide Fetch, OuterKey, FormatTmapDateTime, InnerKey, Compose, Live, MyTrip, PartnerTrip;
    AnsweredFetchSucceeds(s, one, PartnerTrip(q), c.partners);
    ComposeSucceeds(s, q, c.mine.reply.body, st.now);
  }

  lemma OneCase(s: Setup)
    requires s.minutes >= 1
    ensures var w, q, c := OneEvent(), OneQuestion(), OneLostRow(s);
            && InOrder(w) && q.eventId == "e" && QuestionOf(w, "e", "a") == Success(q)
            && !c.writeFails && c.rowWriteFails && Analyze(s, w, "e", "a", true, c).1.Success?
            && OuterKey(s, q) !in w.stores.rows
  {
    hide OuterKey, Compute, QuestionOf, InOrder;
    OneEventIsInOrder();
    OneQuestionIsAsked();
    OneAnswerSucceeds(s);
  }

  lemma OneEventIsInOrder()
    ensures InOrder(OneEvent())
  {
    assert OneEvent().events["e"].coupleId == "c";
  }

  const AtHome := HomePatch(Some(Some("1")), Some(Some("1")))
  const NoMishap := Mishap(false, false, false)

  /** Tables without events and routes. */
  function Before(couples: map<string, (string, string)>, homes: map<string, Place>): World
  {
    World(Stores(0, map[], map[], {}), map[], couples, homes, {})
  }

  lemma HomeIsSet(s: Setup, homes: map<string, Place>, user: string)
    requires user in homes && homes[user] == Place(None, None)
    ensures Do(s, Before(map[], homes), DoUpdateMe(user, AtHome, NoMishap)) == Before(map[], homes[user := Spot])
  {
    assert KeysOf(Before(map[], homes).stores, EventsOf(Before(map[], homes), user)) == {};
  }

  lemma JoiningIsAllowed(s: Setup)
    ensures Allowed(s, Before(map[], map["a" := Spot, "b" := Spot]), DoJoin("c", "a", "b"))
  {
    assert "a" != "b";
  }

  function RunUp(): seq<Op>
  {
    [DoSignUp("a"), DoUpdateMe("a", AtHome, NoMishap), DoSignUp("b"), DoUpdateMe("b", AtHome, NoMishap),
     DoJoin("c", "a", "b"), DoCreateEvent("e", Event("c", Spot, Some(0)))]
  }

  ghost predicate Moves(s: Setup, w: World, op: Op, next: World)
  {
    Allowed(s, w, op) && Do(s, w, op) == next
  }

  lemma BothSignUp(s: Setup)
    ensures Moves(s, Before(map[], map[]), DoSignUp("a"), Before(map[], map["a" := Place(None, None)]))
    ensures Moves(s, Before(map[], map["a" := Spot]), DoSignUp("b"),
                  Before(map[], map["a" := Spot, "b" := Place(None, None)]))
  {
    assert "a" != "b";
    assert map["a" := Spot]["b" := Place(None, None)] == map["a" := Spot, "b" := Place(None, None)];
    assert map[]["a" := Place(None, None)] == map["a" := Place(None, None)];
  }

  lemma BothMoveIn(s: Setup)
    ensures Moves(s, Before(map[], map["a" := Place(None, None)]), DoUpdateMe("a", AtHome, NoMishap),
                  Before(map[], map["a" := Spot]))
    ensures Moves(s, Before(map[], map["a" := Spot, "b" := Place(None, None)]), DoUpdateMe("b", AtHome, NoMishap),
                  Before(map[], map["a" := Spot, "b" := Spot]))
  {
    assert "a" != "b";
    HomeIsSet(s, map["a" := Place(None, None)], "a");
    HomeIsSet(s, map["a" := Spot, "b" := Place(None, None)], "b");
    hide Do;
    assert map["a" := Place(None, None)]["a" := Spot] == map["a" := Spot];
    assert map["a" := Spot, "b" := Place(None, None)]["b" := Spot] == map["a" := Spot, "b" := Spot];
  }

  lemma BothMeet(s: Setup)
    ensures Moves(s, Before(map[], map["a" := Spot, "b" := Spot]), DoJoin("c", "a", "b"),
                  Before(map["c" := ("a", "b")], map["a" := Spot, "b" := Spot]))
    ensures Moves(s, Before(map["c" := ("a", "b")], map["a" := Spot, "b" := Spot]),
                  DoCreateEvent("e", Event("c", Spot, Some(0))), OneEvent())
  {
    JoiningIsAllowed(s);
  }

  /** A run leads to the tables above. */
  lemma OneEventIsReached(s: Setup) returns (ws: seq<World>)
    ensures Run(s, ws, RunUp()) && ws[|RunUp()|] == OneEvent()
  {
    var a, b := map["a" := Place(None, None)], map["a" := Spot, "b" := Place(None, None)];
    var home := map["a" := Spot, "b" := Spot];
    ws := [Before(map[], map[]), Before(map[], a), Before(map[], map["a" := Spot]), Before(map[], b),
           Before(map[], home), Before(map["c" := ("a", "b")], home), OneEvent()];
    BothSignUp(s);
    BothMoveIn(s);
    BothMeet(s);
    hide Do, Allowed, OneEvent;
  }

  /** A concrete analysis whose row is lost: its entry stays in Redis whatever edits follow. */
  lemma LostRowHappens(s: Setup, ws: seq<World>, ops: seq<Op>, n: nat)
    requires s.minutes >= 1
    requires Stretch(s, ws, ops) && ws[0] == OneEvent() && 1 <= n <= |ops|
    requires ops[0] == DoAnalyze("e", "a", true, OneLostRow(s))
    requires forall j {:trigger ops[j]} :: 1 <= j < n ==> NeitherAnalysisNorLoss(ops[j])
    ensures InOrder(ws[0]) && OuterKey(s, OneQuestion()) in ws[n].stores.redis
    ensures OuterKey(s, OneQuestion()) !in ws[n].stores.rows
  {
    hide OuterKey, Analyze, QuestionOf, Do, Allowed, NeitherAnalysisNorLoss, OneEvent, OneQuestion, OneLostRow, InOrder;
    OneCase(s);
    LostRowOutlivesEdits(s, ws, ops, n, OneQuestion(), "a", OneLostRow(s));
  }
}
