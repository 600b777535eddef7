/**
  Exactly which pairs of overlapping calls go wrong, from any tables that are in order.  For two
  sends of one user, for an acceptance and a refusal of one invite, and for an acceptance and a
  send that touches one of its two users: the second call can break a rule if and only if it
  arrives before the first has got as far as stated.
  */
module CoupleSchedules {
  import opened Common
  import opened CoupleTables
  import opened CoupleInterleaving
  import opened CoupleRequests
  import opened CoupleOverlap

  // ----- Two requests -----

  function Two(db: Db, a: Request, b: Request): System
  {
    System(db, map[0 := a, 1 := b])
  }

  /** No call arrives any more. */
  predicate Continues(events: seq<Event>)
  {
    forall k :: 0 <= k < |events| ==> !events[k].Arrive?
  }

  /** Without further calls, s can become t. */
  ghost predicate Leads(s: System, t: System)
  {
    exists events :: Continues(events) && Exec(s, events) == t
  }

  lemma Stays(s: System)
    ensures Leads(s, s)
  {
    assert Continues([]) && Exec(s, []) == s;
  }

  lemma OneMore(s: System, t: System, e: Event)
    requires Leads(s, t) && !e.Arrive?
    ensures Leads(s, Apply(t, e))
  {
    var events :| Continues(events) && Exec(s, events) == t;
    var more := events + [e];
    assert more[..|more| - 1] == events;
    assert Continues(more);
  }

  lemma FirstSteps(db: Db, a: Request, b: Request, pick: Id)
    ensures Apply(Two(db, a, b), Advance(0, pick)) == Two(Step(db, a, pick).0, Step(db, a, pick).1, b)
  {
    assert map[0 := a, 1 := b][0 := Step(db, a, pick).1] == map[0 := Step(db, a, pick).1, 1 := b];
  }

  lemma SecondSteps(db: Db, a: Request, b: Request, pick: Id)
    ensures Apply(Two(db, a, b), Advance(1, pick)) == Two(Step(db, b, pick).0, a, Step(db, b, pick).1)
  {
    assert map[0 := a, 1 := b][1 := Step(db, b, pick).1] == map[0 := a, 1 := Step(db, b, pick).1];
  }

  /** The first request makes n steps. */
  lemma {:induction false} FirstAlone(s: System, db: Db, a: Request, b: Request, n: nat, pick: Id := 0)
    requires Leads(s, Two(db, a, b))
    ensures Leads(s, Two(Steps(db, a, pick, n).0, Steps(db, a, pick, n).1, b))
    decreases n
  {
    hide Leads, Step;
    if n > 0 {
      FirstSteps(db, a, b, pick);
      OneMore(s, Two(db, a, b), Advance(0, pick));
      FirstAlone(s, Step(db, a, pick).0, Step(db, a, pick).1, b, n - 1, pick);
    }
  }

  /** The second request makes n steps. */
  lemma {:induction false} SecondAlone(s: System, db: Db, a: Request, b: Request, n: nat, pick: Id := 0)
    requires Leads(s, Two(db, a, b))
    ensures Leads(s, Two(Steps(db, b, pick, n).0, a, Steps(db, b, pick, n).1))
    decreases n
  {
    hide Leads, Step;
    if n > 0 {
      SecondSteps(db, a, b, pick);
      OneMore(s, Two(db, a, b), Advance(1, pick));
      SecondAlone(s, Step(db, b, pick).0, a, Step(db, b, pick).1, n - 1, pick);
    }
  }

  lemma {:induction false} StepsAdd(db: Db, r: Request, m: nat, n: nat, pick: Id := 0)
    ensures Steps(Steps(db, r, pick, m).0, Steps(db, r, pick, m).1, pick, n) == Steps(db, r, pick, m + n)
    decreases m
  {
    hide Step;
    if m > 0 {
      StepsAdd(Step(db, r, pick).0, Step(db, r, pick).1, m - 1, n, pick);
    }
  }

  /** The first request goes on from its j-th step to its n-th. */
  lemma FirstUpTo(s: System, db: Db, a: Request, b: Request, j: nat, n: nat, pick: Id := 0)
    requires j <= n && Leads(s, Two(Steps(db, a, pick, j).0, Steps(db, a, pick, j).1, b))
    ensures Leads(s, Two(Steps(db, a, pick, n).0, Steps(db, a, pick, n).1, b))
  {
    hide Leads, Step, Steps;
    StepsAdd(db, a, j, n - j, pick);
    FirstAlone(s, Steps(db, a, pick, j).0, Steps(db, a, pick, j).1, b, n - j, pick);
  }

  /** The second call arrives when the first has made j steps, in which its query returned row `pick`. */
  function Joined(db: Db, a: Request, b: Request, j: nat, pick: Id := 0): System
  {
    Two(Steps(db, a, pick, j).0, Steps(db, a, pick, j).1, b)
  }

  /** One call on its own. */
  lemma {:induction false} OneAlone(db: Db, a: Request, j: nat, pick: Id) returns (events: seq<Event>)
    requires IsCall(a)
    ensures Exec(System(db, map[]), events) == System(Steps(db, a, pick, j).0, map[0 := Steps(db, a, pick, j).1])
    ensures forall k :: 0 <= k < |events| ==> !events[k].Crash? && events[k].tid == 0
  {
    hide Step, IsCall;
    if j == 0 {
      events := OneArrives(db, a);
    } else {
      var before := OneAlone(db, a, j - 1, pick);
      var d, r := Steps(db, a, pick, j - 1).0, Steps(db, a, pick, j - 1).1;
      StepsAdd(db, a, j - 1, 1, pick);
      OneStep(d, r, pick);
      hide Steps;
      events := before + [Advance(0, pick)];
      assert events[..|events| - 1] == before;
      assert map[0 := r][0 := Step(d, r, pick).1] == map[0 := Step(d, r, pick).1];
    }
  }

  lemma OneArrives(db: Db, a: Request) returns (events: seq<Event>)
    requires IsCall(a)
    ensures events == [Arrive(0, a)] && Exec(System(db, map[]), events) == System(db, map[0 := a])
  {
    events := [Arrive(0, a)];
    assert Exec(System(db, map[]), []) == System(db, map[]);
    assert events[..0] == [];
    assert map[][0 := a] == map[0 := a];
  }

  lemma OneStep(db: Db, r: Request, pick: Id := 0)
    ensures Steps(db, r, pick, 1) == Step(db, r, pick)
  {}

  /** These systems are those in which the two calls have arrived. */
  lemma SecondArrives(db: Db, a: Request, b: Request, j: nat, pick: Id := 0) returns (events: seq<Event>)
    requires IsCall(a) && IsCall(b)
    ensures Exec(System(db, map[]), events) == Joined(db, a, b, j, pick)
  {
    hide Steps;
    var before := OneAlone(db, a, j, pick);
    var (d, r) := Steps(db, a, pick, j);
    events := before + [Arrive(1, b)];
    assert events[..|events| - 1] == before;
    assert map[0 := r][1 := b] == map[0 := r, 1 := b];
  }

  // ----- Where one of the two is past doing harm -----

  /** The request has ended, or will find the invite handled. */
  ghost predicate Idle(db: Db, r: Request)
  {
    || r.Ended?
    || ((r.AcceptFind? || r.DeclineFind?) && r.inviteId < db.nextId
        && (r.inviteId in db.invites ==> !IsOpen(db.invites[r.inviteId])))
  }

  ghost predicate OneIdle(s: System, t: nat)
  {
    AllTrue(s) && s.requests.Keys == {0, 1} && t < 2 && Idle(s.db, s.requests[t])
  }

  lemma IdleIsApart(s: System, t: nat)
    requires OneIdle(s, t)
    ensures UsersApart(s)
  {
    assert ReliedOn(s.db, s.requests[t]) == {};
  }

  lemma IdleStays(s: System, t: nat, e: Event)
    requires OneIdle(s, t) && !e.Arrive?
    ensures OneIdle(Apply(s, e), t)
  {
    IdleIsApart(s, t);
    ApplyKeepsAllTrue(s, e);
    TrueTablesHaveOldKeys(s);
    hide AllTrue, UsersApart, KeysAreOld, StatusesAreFinal;
    if e.Advance? && e.tid in s.requests {
      StepEvolves(s.db, s.requests[e.tid], e.pick);
      IdleStepEnds(s.db, s.requests[t], e.pick);
      HandledStays(s.db, Step(s.db, s.requests[e.tid], e.pick).0, s.requests[t]);
      hide Step, Idle, Evolves;
    } else {
      hide Step;
    }
    assert Apply(s, e).requests.Keys == {0, 1};
  }

  lemma IdleStepEnds(db: Db, r: Request, pick: Id)
    requires Idle(db, r)
    ensures Step(db, r, pick).1.Ended? && Idle(Step(db, r, pick).0, Step(db, r, pick).1)
  {}

  lemma HandledStays(db: Db, after: Db, r: Request)
    requires Idle(db, r) && StatusesAreFinal(db, after) && Evolves(db, after)
    ensures Idle(after, r)
  {}

  lemma {:induction false} IdleAfter(s: System, t: nat, events: seq<Event>, n: nat)
    requires OneIdle(s, t) && Continues(events) && n <= |events|
    ensures OneIdle(After(s, events, n), t)
    ensures UsersApart(After(s, events, n))
  {
    hide OneIdle, Apply, UsersApart;
    if n == 0 {
      assert events[..0] == [];
    } else {
      IdleAfter(s, t, events, n - 1);
      AfterStep(s, events, n - 1);
      IdleStays(After(s, events, n - 1), t, events[n - 1]);
    }
    IdleIsApart(After(s, events, n), t);
  }

  /** Whatever then follows, all rules hold, and an invite that is handled stays so. */
  lemma IdleIsHarmless(s: System, t: nat, u: System)
    requires OneIdle(s, t) && Leads(s, u)
    ensures Rules(u.db)
  {
    var events :| Continues(events) && Exec(s, events) == u;
    assert events[..|events|] == events;
    IdleAfter(s, t, events, |events|);
  }

  ghost predicate KeptIfHandled(db: Db, after: Db, i: Id)
  {
    i in db.invites && !IsOpen(db.invites[i]) && i in after.invites ==> after.invites[i] == db.invites[i]
  }

  lemma {:induction false} ExecSplits(s: System, first: seq<Event>, second: seq<Event>)
    ensures Exec(s, first + second) == Exec(Exec(s, first), second)
    decreases |second|
  {
    if second == [] {
      assert first + second == first;
    } else {
      var front := second[..|second| - 1];
      ExecSplits(s, first, front);
      assert (first + second)[..|first + second| - 1] == first + front;
    }
  }

  lemma IdleKeepsHandled(s: System, t: nat, u: System, v: System, i: Id)
    requires OneIdle(s, t) && Leads(s, u) && Leads(u, v)
    ensures KeptIfHandled(u.db, v.db, i)
  {
    var first :| Continues(first) && Exec(s, first) == u;
    var second :| Continues(second) && Exec(u, second) == v;
    ExecSplits(s, first, second);
    var events := first + second;
    assert Continues(events) && events[..|first|] == first && events[..|events|] == events;
    forall k {:trigger After(s, events, k)} | 0 <= k < |events|
      ensures UsersApart(After(s, events, k))
    {
      IdleAfter(s, t, events, k);
    }
    hide AllTrue, UsersApart, Idle;
    if i in u.db.invites && !IsOpen(u.db.invites[i]) && i in v.db.invites {
      HandledStaysHandledIfUsersApart(s, events, |first|, |events|, i);
    }
  }

  /** A first request on its own does no harm, whatever call is waiting. */
  lemma {:induction false} JoinedIsTrue(db: Db, a: Request, b: Request, j: nat, pick: Id)
    requires SerialInv(db) && IsCall(a) && IsCall(b)
    ensures AllTrue(Joined(db, a, b, j, pick))
  {
    hide AllTrue, UsersApart, Step, Apply;
    if j == 0 {
      ArrivedIsTrue(db, a, b);
    } else {
      JoinedIsTrue(db, a, b, j - 1, pick);
      var (d, r) := Steps(db, a, pick, j - 1);
      StepsAdd(db, a, j - 1, 1, pick);
      assert Steps(d, r, pick, 1) == Step(d, r, pick);
      WaitingIsApart(d, r, b);
      FirstSteps(d, r, b, pick);
      ApplyKeepsAllTrue(Two(d, r, b), Advance(0, pick));
    }
  }

  lemma ArrivedIsTrue(db: Db, a: Request, b: Request)
    requires SerialInv(db) && IsCall(a) && IsCall(b)
    ensures AllTrue(Two(db, a, b))
  {
    hide SerialInv, AllTrue, Knows, StillTrue, IsCall;
    CallKnowsNothing(db, a);
    CallKnowsNothing(db, b);
    CallsAreTrue(Two(db, a, b));
  }

  lemma CallsAreTrue(s: System)
    requires SerialInv(s.db)
    requires forall t :: t in s.requests ==>
               && !s.requests[t].SendCreateInvite? && Knows(s.db, s.requests[t]) && StillTrue(s.db, s.requests[t])
    ensures AllTrue(s)
  {
    hide Membership, OneOpenInviteEach, OpenInvitesAreFree, InvitesMirrorCouples, Knows, StillTrue;
  }

  lemma CallKnowsNothing(db: Db, call: Request)
    requires IsCall(call)
    ensures !call.SendCreateInvite? && Knows(db, call) && StillTrue(db, call)
  {}

  lemma WaitingIsApart(db: Db, r: Request, call: Request)
    requires IsCall(call)
    ensures UsersApart(Two(db, r, call))
  {
    assert ReliedOn(db, call) == {};
  }

  lemma EndedIsIdle(db: Db, a: Request, b: Request, j: nat)
    requires SerialInv(db) && IsCall(a) && IsCall(b) && Steps(db, a, 0, j).1.Ended?
    ensures OneIdle(Joined(db, a, b, j), 0)
  {
    hide AllTrue, Steps, SerialInv, IsCall;
    JoinedIsTrue(db, a, b, j, 0);
  }

  /** The waiting call will find its invite handled. */
  lemma HandledIsIdle(db: Db, a: Request, i: Id, x: Id, j: nat, pick: Id := 0)
    requires SerialInv(db) && IsCall(a) && i < Steps(db, a, pick, j).0.nextId
    requires i in Steps(db, a, pick, j).0.invites ==> !IsOpen(Steps(db, a, pick, j).0.invites[i])
    ensures OneIdle(Joined(db, a, AcceptFind(i, x), j, pick), 1)
  {
    hide AllTrue, Steps, SerialInv;
    JoinedIsTrue(db, a, AcceptFind(i, x), j, pick);
  }

  // ----- Two sends of one user -----

  /** A send that has made its checks. */
  lemma SendAtFour(db: Db, u: Id, email: string)
    requires SendInvite(db, u, email).1 == Done
    ensures Steps(db, SendFindMe(u, email), 0, 4) == (db, SendCancelOld(u, db.emails[email]))
  {
    StepsThree(db, SendFindMe(u, email), 0, 1);
    OneStep(db, SendCheckInvitee(u, db.emails[email]));
    hide IsMember, CancelPendingFrom, Steps;
  }

  /** The tables once a send has canceled its user's open invites. */
  function Cleared(db: Db, u: Id): Db
  {
    db.(invites := CancelPendingFrom(db.invites, u))
  }

  /** A send just before its last two statements. */
  lemma SendAtSix(db: Db, u: Id, email: string)
    requires SendInvite(db, u, email).1 == Done
    ensures var d := Cleared(db, u);
            && Steps(db, SendFindMe(u, email), 0, 5) == (d, SendCreateCouple(u, db.emails[email]))
            && Steps(db, SendFindMe(u, email), 0, 6)
            == (CreateCouple(d), SendCreateInvite(u, db.emails[email], db.nextId))
  {
    hide Cleared, Step, CreateCouple, Steps, IsMember;
    var start, x := SendFindMe(u, email), db.emails[email];
    SendAtFour(db, u, email);
    StepsAdd(db, start, 4, 1);
    StepsAdd(db, start, 5, 1);
    CancelAndCreate(db, u, x);
  }

  lemma CancelAndCreate(db: Db, u: Id, x: Id)
    ensures var d := Cleared(db, u);
            && Steps(db, SendCancelOld(u, x), 0, 1) == (d, SendCreateCouple(u, x))
            && Steps(d, SendCreateCouple(u, x), 0, 1) == (CreateCouple(d), SendCreateInvite(u, x, db.nextId))
  {
    hide CancelPendingFrom, CreateCouple;
    OneStep(db, SendCancelOld(u, x));
    OneStep(Cleared(db, u), SendCreateCouple(u, x));
    hide Steps;
  }

  /** Two sends, the first stopped before its last statement while the second runs, leave two open invites. */
  lemma SecondSendGoesWrong(db: Db, u: Id, first: string, second: string, j: nat) returns (t: System)
    requires KeysAreOld(db) && SendInvite(db, u, first).1 == Done && SendInvite(db, u, second).1 == Done && j < 7
    ensures Leads(Joined(db, SendFindMe(u, first), SendFindMe(u, second), j), t) && !OneOpenInviteEach(t.db)
  {
    hide Leads, Steps;
    var s := Joined(db, SendFindMe(u, first), SendFindMe(u, second), j);
    Stays(s);
    FirstUpTo(s, db, SendFindMe(u, first), SendFindMe(u, second), j, 6);
    SendAtSix(db, u, first);
    var x := db.emails[first];
    var d := CreateCouple(Cleared(db, u));
    var last := SendCreateInvite(u, x, db.nextId);
    SecondAlone(s, d, last, SendFindMe(u, second), 7);
    SendIsItsSteps(d, u, second);
    var e := SendInvite(d, u, second).0;
    FirstAlone(s, e, last, Ended(Done), 1);
    OneStep(e, last);
    var f := CreateInvite(e, db.nextId, u, x).value;
    t := Two(f, Ended(Done), Ended(Done));
    assert IsOpen(f.invites[d.nextId + 1]) && f.invites[d.nextId + 1].inviterUserId == u;
    assert IsOpen(f.invites[e.nextId]) && f.invites[e.nextId].inviterUserId == u;
  }

  lemma LaterSendIsSafe(db: Db, u: Id, first: string, second: string, j: nat, t: System)
    requires SerialInv(db) && j >= 7
    requires Leads(Joined(db, SendFindMe(u, first), SendFindMe(u, second), j), t)
    ensures OneOpenInviteEach(t.db)
  {
    FirstHasEnded(db, SendFindMe(u, first), Send(u, first), j);
    hide SerialInv, Serve, Leads, Steps, Joined;
    EndedIsIdle(db, SendFindMe(u, first), SendFindMe(u, second), j);
    IdleIsHarmless(Joined(db, SendFindMe(u, first), SendFindMe(u, second), j), 0, t);
    hide OneOpenInviteEach;
  }

  lemma FirstHasEnded(db: Db, a: Request, call: Call, j: nat)
    requires !call.Cancel? && a == Opening(call) && j >= 7
    ensures Steps(db, a, 0, j) == (Serve(db, call).0, Ended(Serve(db, call).1))
  {
    ServeIsItsSteps(db, call);
    StepsAdd(db, a, 7, j - 7);
    StepsEnded(Serve(db, call).0, Serve(db, call).1, 0, j - 7);
  }

  /** In every schedule nobody has two open invites out. */
  ghost predicate KeepsOneOpen(s: System)
  {
    forall t :: Leads(s, t) ==> OneOpenInviteEach(t.db)
  }

  /** In every schedule members of couples are free of open invites. */
  ghost predicate KeepsFree(s: System)
  {
    forall t :: Leads(s, t) ==> OpenInvitesAreFree(t.db)
  }

  /**
    Two sends of one user, each of which would be done on its own: the rule of one open invite
    holds in every schedule if and only if the second arrives after the first has made all its
    seven steps.
    */
  lemma SecondSendIsSafeIff(db: Db, u: Id, first: string, second: string, j: nat)
    requires SerialInv(db) && SendInvite(db, u, first).1 == Done && SendInvite(db, u, second).1 == Done
    ensures KeepsOneOpen(Joined(db, SendFindMe(u, first), SendFindMe(u, second), j)) <==> j >= 7
  {
    hide Leads, Joined, OneOpenInviteEach, SendInvite;
    if j < 7 {
      var t := SecondSendGoesWrong(db, u, first, second, j);
    } else {
      forall t | Leads(Joined(db, SendFindMe(u, first), SendFindMe(u, second), j), t)
        ensures OneOpenInviteEach(t.db)
      {
        LaterSendIsSafe(db, u, first, second, j, t);
      }
    }
  }

  // ----- An acceptance, and a refusal or withdrawal of its invite -----

  ghost predicate OpenTo(db: Db, i: Id, x: Id)
  {
    i in db.invites && IsOpen(db.invites[i]) && db.invites[i].inviteeUserId == Some(x)
  }

  /** The users of an open invite are free and different, and its couple is there. */
  lemma OpenInviteIsFree(db: Db, i: Id, x: Id)
    requires SerialInv(db) && OpenTo(db, i, x)
    ensures var invite := db.invites[i];
            && !IsMember(db.members, x) && !IsMember(db.members, invite.inviterUserId) && invite.inviterUserId != x
            && invite.coupleId in db.couples
  {
    assert forall m :: m in db.members ==> !Involves(db.invites[i], db.members[m].userId);
    hide OneOpenInviteEach, InvitesMirrorCouples, KeysAreOld, OneCoupleEach, CouplesAreComplete, InvitesNameMembers;
  }

  /** An acceptance that has made its checks. */
  lemma AcceptAtThree(db: Db, i: Id, x: Id)
    requires SerialInv(db) && OpenTo(db, i, x)
    ensures var invite := db.invites[i];
            Steps(db, AcceptFind(i, x), 0, 3) == (db, AcceptCommit(i, x, invite.coupleId, invite.inviterUserId))
  {
    OpenInviteIsFree(db, i, x);
    hide SerialInv, IsMember;
    StepsThree(db, AcceptFind(i, x), 0, 0);
    hide AcceptTransaction;
  }

  /** The call is the invitee's refusal or the inviter's withdrawal. */
  predicate Ends(db: Db, i: Id, x: Id, h: Request)
    requires i in db.invites
  {
    h == DeclineFind(i, x) || h == CancelFind(db.invites[i].inviterUserId)
  }

  function MarkBy(h: Request, i: Id, c: Id): Request
  {
    if h.DeclineFind? then DeclineMark(i, c) else CancelMark(i, c)
  }

  function StatusBy(h: Request): InviteStatus
  {
    if h.DeclineFind? then Declined else Canceled
  }

  lemma EndingAtTwo(db: Db, i: Id, x: Id, h: Request)
    requires OpenTo(db, i, x) && Ends(db, i, x, h)
    ensures Steps(db, h, i, 1) == (db, MarkBy(h, i, db.invites[i].coupleId))
    ensures Steps(db, h, i, 2) == (SetStatus(db, i, StatusBy(h)).value, DropPending(db.invites[i].coupleId))
  {
    hide Steps;
    var mark := MarkBy(h, i, db.invites[i].coupleId);
    assert i in PendingFrom(db.invites, db.invites[i].inviterUserId);
    OneStep(db, h, i);
    OneStep(db, mark, i);
    StepsAdd(db, h, 1, 1, i);
  }

  /** The transaction does not look at the status the invite has by now. */
  lemma CommitsAnyway(d: Db, i: Id, x: Id, c: Id, v: Id) returns (joined: Db)
    requires i in d.invites && c in d.couples && !IsMember(d.members, x) && !IsMember(d.members, v) && v != x
    ensures Steps(d, AcceptCommit(i, x, c, v), 0, 1) == (joined, Ended(Done))
    ensures i in joined.invites && joined.invites[i].status == Accepted
  {
    OneStep(d, AcceptCommit(i, x, c, v));
    joined := AcceptTransaction(d, i, c, v, x).value;
    AcceptHasEffect(d, joined, i, c, v, x);
    hide AcceptTransaction, IsMember, Steps;
  }

  /** The tables after the invite is marked, after the acceptance that overlaps, and after the clean-up. */
  ghost predicate Refuses(db: Db, i: Id, x: Id, h: Request, marked: Db, joined: Db, dropped: Db)
    requires i in db.invites
  {
    var c, v := db.invites[i].coupleId, db.invites[i].inviterUserId;
    && Steps(db, MarkBy(h, i, c), 0, 1) == (marked, DropPending(c))
    && Steps(marked, AcceptCommit(i, x, c, v), 0, 1) == (joined, Ended(Done))
    && Steps(joined, DropPending(c), 0, 1) == (dropped, Ended(Done))
    && i in marked.invites && marked.invites[i].status == StatusBy(h)
    && i in joined.invites && joined.invites[i].status == Accepted && c !in dropped.couples
  }

  lemma RefusalTables(db: Db, i: Id, x: Id, h: Request) returns (marked: Db, joined: Db, dropped: Db)
    requires SerialInv(db) && OpenTo(db, i, x)
    ensures Refuses(db, i, x, h, marked, joined, dropped)
  {
    hide SerialInv, Steps, IsMember;
    var c, v := db.invites[i].coupleId, db.invites[i].inviterUserId;
    OpenInviteIsFree(db, i, x);
    marked := Marks(db, i, c, h);
    joined := CommitsAnyway(marked, i, x, c, v);
    dropped := Drops(joined, c);
  }

  lemma Marks(db: Db, i: Id, c: Id, h: Request) returns (marked: Db)
    requires i in db.invites
    ensures Steps(db, MarkBy(h, i, c), 0, 1) == (marked, DropPending(c))
    ensures marked.members == db.members && marked.couples == db.couples
    ensures i in marked.invites && marked.invites[i].status == StatusBy(h)
  {
    OneStep(db, MarkBy(h, i, c));
    marked := SetStatus(db, i, StatusBy(h)).value;
    hide Steps;
  }

  lemma Drops(db: Db, c: Id) returns (dropped: Db)
    ensures Steps(db, DropPending(c), 0, 1) == (dropped, Ended(Done)) && c !in dropped.couples
  {
    OneStep(db, DropPending(c));
    dropped := DropCouple(db, c);
    hide Steps;
  }

  ghost predicate HasStatus(s: System, i: Id, status: InviteStatus)
  {
    i in s.db.invites && s.db.invites[i].status == status
  }

  /** Both calls have reported that they are done, and the couple is not there. */
  ghost predicate HasVanished(s: System, c: Id)
  {
    s.requests == map[0 := Ended(Done), 1 := Ended(Done)] && c !in s.db.couples
  }

  /**
    Where both have read the invite and neither has written, it can go from DECLINED or CANCELED
    to ACCEPTED, and then the couple whose acceptance was reported as done disappears.
    */
  lemma EndedAcceptedGone(s: System, db: Db, i: Id, x: Id, h: Request)
    returns (ended: System, accepted: System, gone: System)
    requires SerialInv(db) && OpenTo(db, i, x)
    requires Leads(s, Two(db, AcceptCommit(i, x, db.invites[i].coupleId, db.invites[i].inviterUserId),
                          MarkBy(h, i, db.invites[i].coupleId)))
    ensures Leads(s, ended) && HasStatus(ended, i, StatusBy(h))
    ensures Leads(ended, accepted) && HasStatus(accepted, i, Accepted)
    ensures Leads(accepted, gone) && HasVanished(gone, db.invites[i].coupleId)
  {
    var c, commit := db.invites[i].coupleId, AcceptCommit(i, x, db.invites[i].coupleId, db.invites[i].inviterUserId);
    hide SerialInv, Leads, Steps, Step, MarkBy, StatusBy;
    var marked, joined, dropped := RefusalTables(db, i, x, h);
    SecondAlone(s, db, commit, MarkBy(h, i, c), 1);
    ended := Two(marked, commit, DropPending(c));
    Stays(ended);
    FirstAlone(ended, marked, commit, DropPending(c), 1);
    accepted := Two(joined, Ended(Done), DropPending(c));
    Stays(accepted);
    SecondAlone(accepted, joined, Ended(Done), DropPending(c), 1);
    gone := Two(dropped, Ended(Done), Ended(Done));
  }

  /** In every schedule a handled invite keeps its status. */
  ghost predicate KeepsHandled(s: System, i: Id)
  {
    forall t, u :: Leads(s, t) && Leads(t, u) ==> KeptIfHandled(t.db, u.db, i)
  }

  /**
    A refusal, or a withdrawal, is without harm in every schedule if and only if it arrives after
    the acceptance has made all its four steps.
    */
  lemma RefusalIsSafeIff(db: Db, i: Id, x: Id, h: Request, j: nat)
    requires SerialInv(db) && OpenTo(db, i, x) && Ends(db, i, x, h)
    ensures KeepsHandled(Joined(db, AcceptFind(i, x), h, j), i) <==> j >= 4
  {
    hide SerialInv;
    var s := Joined(db, AcceptFind(i, x), h, j);
    if j < 4 {
      var ended, accepted, gone := RefusalGoesWrong(db, i, x, h, j);
      assert !KeptIfHandled(ended.db, accepted.db, i);
    } else {
      AcceptEnds(db, i, x, j);
      EndedIsIdle(db, AcceptFind(i, x), h, j);
      hide KeepsHandled;
      IdleKeepsAllHandled(s, 0, i);
    }
  }

  /** The acceptance makes its checks, the other call reads the invite, and both go on. */
  lemma RefusalGoesWrong(db: Db, i: Id, x: Id, h: Request, j: nat)
    returns (ended: System, accepted: System, gone: System)
    requires SerialInv(db) && OpenTo(db, i, x) && Ends(db, i, x, h) && j < 4
    ensures Leads(Joined(db, AcceptFind(i, x), h, j), ended) && HasStatus(ended, i, StatusBy(h))
    ensures Leads(ended, accepted) && HasStatus(accepted, i, Accepted)
    ensures Leads(accepted, gone) && HasVanished(gone, db.invites[i].coupleId)
  {
    hide SerialInv, Leads, Steps;
    var s := Joined(db, AcceptFind(i, x), h, j);
    Stays(s);
    FirstUpTo(s, db, AcceptFind(i, x), h, j, 3);
    AcceptAtThree(db, i, x);
    EndingAtTwo(db, i, x, h);
    var commit := AcceptCommit(i, x, db.invites[i].coupleId, db.invites[i].inviterUserId);
    SecondAlone(s, db, commit, h, 1, i);
    ended, accepted, gone := EndedAcceptedGone(s, db, i, x, h);
  }

  lemma AcceptEnds(db: Db, i: Id, x: Id, j: nat)
    requires SerialInv(db) && OpenTo(db, i, x) && j >= 4
    ensures Steps(db, AcceptFind(i, x), 0, j) == (AcceptInvite(db, i, x).0, Ended(Done))
  {
    hide SerialInv, Steps, IsMember;
    AcceptAtThree(db, i, x);
    OpenInviteIsFree(db, i, x);
    StepsAdd(db, AcceptFind(i, x), 3, 1);
    CommitIsAccept(db, i, x);
    StepsAdd(db, AcceptFind(i, x), 4, j - 4);
    hide AcceptInvite;
    StepsEnded(AcceptInvite(db, i, x).0, Done, 0, j - 4);
  }

  lemma CommitIsAccept(db: Db, i: Id, x: Id)
    requires OpenTo(db, i, x) && !IsMember(db.members, x) && !IsMember(db.members, db.invites[i].inviterUserId)
    requires db.invites[i].inviterUserId != x && db.invites[i].coupleId in db.couples
    ensures Steps(db, AcceptCommit(i, x, db.invites[i].coupleId, db.invites[i].inviterUserId), 0, 1)
         == (AcceptInvite(db, i, x).0, Ended(Done))
  {
    OneStep(db, AcceptCommit(i, x, db.invites[i].coupleId, db.invites[i].inviterUserId));
    hide Steps, IsMember;
  }

  lemma IdleKeepsAllHandled(s: System, t: nat, i: Id)
    requires OneIdle(s, t)
    ensures KeepsHandled(s, i)
  {
    forall u, v | Leads(s, u) && Leads(u, v)
      ensures KeptIfHandled(u.db, v.db, i)
    {
      IdleKeepsHandled(s, t, u, v, i);
    }
  }

  /**
    An acceptance is without harm in every schedule if and only if it arrives after the refusal
    or withdrawal has marked the invite, its second step.
    */
  lemma AcceptanceIsSafeIff(db: Db, i: Id, x: Id, h: Request, k: nat)
    requires SerialInv(db) && OpenTo(db, i, x) && Ends(db, i, x, h)
    ensures KeepsHandled(Joined(db, h, AcceptFind(i, x), k, i), i) <==> k >= 2
  {
    hide SerialInv, KeepsHandled;
    if k < 2 {
      EarlyAcceptance(db, i, x, h, k);
    } else {
      MarkedIsIdle(db, i, x, h, k);
      IdleKeepsAllHandled(Joined(db, h, AcceptFind(i, x), k, i), 1, i);
    }
  }

  lemma EarlyAcceptance(db: Db, i: Id, x: Id, h: Request, k: nat)
    requires SerialInv(db) && OpenTo(db, i, x) && Ends(db, i, x, h) && k < 2
    ensures !KeepsHandled(Joined(db, h, AcceptFind(i, x), k, i), i)
  {
    hide SerialInv, Leads, Steps, KeepsHandled;
    var s, c := Joined(db, h, AcceptFind(i, x), k, i), db.invites[i].coupleId;
    EndingAtTwo(db, i, x, h);
    AcceptAtThree(db, i, x);
    Stays(s);
    FirstUpTo(s, db, h, AcceptFind(i, x), k, 1, i);
    SecondAlone(s, db, MarkBy(h, i, c), AcceptFind(i, x), 3);
    LateAcceptance(s, db, i, x, h);
  }

  lemma MarkedIsIdle(db: Db, i: Id, x: Id, h: Request, k: nat)
    requires SerialInv(db) && OpenTo(db, i, x) && Ends(db, i, x, h) && k >= 2
    ensures OneIdle(Joined(db, h, AcceptFind(i, x), k, i), 1)
  {
    hide SerialInv, Steps, OneIdle;
    SerialKeys(db);
    EndingAtTwo(db, i, x, h);
    StepsAdd(db, h, 2, k - 2, i);
    DroppingHandles(SetStatus(db, i, StatusBy(h)).value, i, db.invites[i].coupleId, k - 2);
    HandledIsIdle(db, h, i, x, k, i);
  }

  lemma LateAcceptance(s: System, db: Db, i: Id, x: Id, h: Request)
    requires SerialInv(db) && OpenTo(db, i, x)
    requires Leads(s, Two(db, MarkBy(h, i, db.invites[i].coupleId),
                          AcceptCommit(i, x, db.invites[i].coupleId, db.invites[i].inviterUserId)))
    ensures !KeepsHandled(s, i)
  {
    var c, commit := db.invites[i].coupleId, AcceptCommit(i, x, db.invites[i].coupleId, db.invites[i].inviterUserId);
    hide SerialInv, Leads, Steps, Step, MarkBy;
    var marked, joined, dropped := RefusalTables(db, i, x, h);
    FirstAlone(s, db, MarkBy(h, i, c), commit, 1);
    var ended := Two(marked, DropPending(c), commit);
    Stays(ended);
    SecondAlone(ended, marked, DropPending(c), commit, 1);
    assert !KeptIfHandled(marked, joined, i);
    assert Leads(ended, Two(joined, DropPending(c), Ended(Done)));
  }

  /** Once marked, the invite is handled or gone. */
  lemma DroppingHandles(marked: Db, i: Id, c: Id, n: nat)
    requires KeysAreOld(marked) && i in marked.invites && !IsOpen(marked.invites[i])
    ensures var d := Steps(marked, DropPending(c), i, n).0;
            i < d.nextId && (i in d.invites ==> !IsOpen(d.invites[i]))
  {
    if n > 0 {
      StepsEnded(DropCouple(marked, c), Done, i, n - 1);
    }
  }

  // ----- An acceptance and a send that touches one of its users -----

  /** The send's user or invitee is one of the two who are about to be joined. */
  predicate Touches(invite: Invite, x: Id, u: Id, y: Id)
  {
    u == x || u == invite.inviterUserId || y == x || y == invite.inviterUserId
  }

  /** A send of u to y that has made its checks and has n statements left. */
  predicate HasLeft(d: Db, r: Request, n: nat, u: Id, y: Id)
  {
    || (n == 3 && r == SendCancelOld(u, y)) || (n == 2 && r == SendCreateCouple(u, y))
    || (n == 1 && r.SendCreateInvite? && r == SendCreateInvite(u, y, r.coupleId) && r.coupleId in d.couples)
  }

  /** Row j is an open invite of u to y. */
  ghost predicate IsInvite(db: Db, j: Id, u: Id, y: Id)
  {
    && j in db.invites && IsOpen(db.invites[j])
    && db.invites[j].inviterUserId == u && db.invites[j].inviteeUserId == Some(y)
  }

  /** It opens its invite whoever has become a member since. */
  lemma LateInvite(d: Db, r: Request, n: nat, u: Id, y: Id) returns (j: Id)
    requires KeysAreOld(d) && u in d.users && HasLeft(d, r, n, u, y)
    ensures var after := Steps(d, r, 0, n).0; IsInvite(after, j, u, y) && after.members == d.members
    decreases n
  {
    var (after, next) := Step(d, r, 0);
    StepsUnfold(d, r, 0, n);
    if n > 1 {
      j := LateInvite(after, next, n - 1, u, y);
    } else {
      j := d.nextId;
    }
  }

  lemma MembersInviteIsNotFree(db: Db, j: Id, u: Id, y: Id)
    requires IsInvite(db, j, u, y) && (IsMember(db.members, u) || IsMember(db.members, y))
    ensures !OpenInvitesAreFree(db)
    ensures AcceptInvite(db, j, y) == (db, if IsMember(db.members, y) then AlreadyCoupled else InviterCoupled)
  {
    var m :| m in db.members && (db.members[m].userId == u || db.members[m].userId == y);
    assert Involves(db.invites[j], db.members[m].userId);
  }

  lemma JoinedAreMembers(d: Db, i: Id, x: Id)
    requires KeysAreOld(d) && AcceptInvite(d, i, x).1 == Done
    ensures var invite, after := d.invites[i], AcceptInvite(d, i, x).0;
            && IsMember(after.members, x) && IsMember(after.members, invite.inviterUserId)
            && KeysAreOld(after) && after.users == d.users && d.couples.Keys <= after.couples.Keys
  {
    AcceptDone(d, i, x);
    var after := AcceptInvite(d, i, x).0;
    assert after.members[d.nextId + 1].userId == x && after.members[d.nextId].userId == d.invites[i].inviterUserId;
  }

  /**
    The send makes its checks, the acceptance runs on, and the send goes on: an open invite that
    can only be rejected.
    */
  lemma SendGoesWrong(db: Db, i: Id, x: Id, u: Id, email: string, j: nat) returns (t: System, late: Id)
    requires SerialInv(db) && OpenTo(db, i, x) && SendInvite(db, u, email).1 == Done && j < 4
    requires Touches(db.invites[i], x, u, db.emails[email])
    ensures Leads(Joined(db, AcceptFind(i, x), SendFindMe(u, email), j), t) && !OpenInvitesAreFree(t.db)
    ensures IsInvite(t.db, late, u, db.emails[email]) && IsMember(t.db.members, x)
  {
    var s, y := Joined(db, AcceptFind(i, x), SendFindMe(u, email), j), db.emails[email];
    hide SerialInv, Leads, Steps, IsMember;
    AcceptAtThree(db, i, x);
    AcceptEnds(db, i, x, 4);
    SendAtFour(db, u, email);
    SerialKeys(db);
    OpenInviteIsAcceptable(db, i, x);
    JoinedAreMembers(db, i, x);
    hide Step, AcceptInvite;
    Stays(s);
    FirstUpTo(s, db, AcceptFind(i, x), SendFindMe(u, email), j, 3);
    var commit := AcceptCommit(i, x, db.invites[i].coupleId, db.invites[i].inviterUserId);
    SecondAlone(s, db, commit, SendFindMe(u, email), 4);
    StepsAdd(db, AcceptFind(i, x), 3, 1);
    FirstAlone(s, db, commit, SendCancelOld(u, y), 1);
    var joined := AcceptInvite(db, i, x).0;
    SecondAlone(s, joined, Ended(Done), SendCancelOld(u, y), 3);
    assert HasLeft(joined, SendCancelOld(u, y), 3, u, y);
    late := LateInvite(joined, SendCancelOld(u, y), 3, u, y);
    t := Two(Steps(joined, SendCancelOld(u, y), 0, 3).0, Ended(Done), Steps(joined, SendCancelOld(u, y), 0, 3).1);
    MembersInviteIsNotFree(t.db, late, u, y);
  }

  lemma SerialKeys(db: Db)
    requires SerialInv(db)
    ensures KeysAreOld(db)
  {}

  /**
    An acceptance of an open invite is under way when a send touching one of its users arrives:
    members of couples are kept free of open invites in every schedule if and only if the
    acceptance has made all its four steps.
    */
  lemma SendIsSafeIff(db: Db, i: Id, x: Id, u: Id, email: string, j: nat)
    requires SerialInv(db) && OpenTo(db, i, x) && SendInvite(db, u, email).1 == Done
    requires Touches(db.invites[i], x, u, db.emails[email])
    ensures KeepsFree(Joined(db, AcceptFind(i, x), SendFindMe(u, email), j)) <==> j >= 4
  {
    hide Leads, Joined, SerialInv, SendInvite, OpenTo, OpenInvitesAreFree;
    if j < 4 {
      var t, late := SendGoesWrong(db, i, x, u, email, j);
    } else {
      forall t | Leads(Joined(db, AcceptFind(i, x), SendFindMe(u, email), j), t)
        ensures OpenInvitesAreFree(t.db)
      {
        AcceptEnds(db, i, x, j);
        EndedIsIdle(db, AcceptFind(i, x), SendFindMe(u, email), j);
        IdleKeepsFree(Joined(db, AcceptFind(i, x), SendFindMe(u, email), j), 0, t);
      }
    }
  }

  lemma IdleKeepsFree(s: System, t: nat, u: System)
    requires OneIdle(s, t) && Leads(s, u)
    ensures OpenInvitesAreFree(u.db)
  {
    IdleIsHarmless(s, t, u);
  }

  /**
    How many statements of a send have to be over before an acceptance arrives: all seven, or,
    where the send is the inviter's own and cancels the invite, five.
    */
  function SafeFrom(invite: Invite, u: Id): nat
  {
    if u == invite.inviterUserId then 5 else 7
  }

  /** A send with n statements left waits, and an invite of one of its users can be accepted. */
  ghost predicate Ready(d: Db, r: Request, n: nat, i: Id, x: Id, u: Id, y: Id)
  {
    && KeysAreOld(d) && u in d.users && HasLeft(d, r, n, u, y)
    && AcceptInvite(d, i, x).1 == Done && i in d.invites && Touches(d.invites[i], x, u, y)
  }

  /** The send waits before statement n, the acceptance runs, and the send goes on. */
  lemma LateAcceptGoesWrong(db: Db, i: Id, x: Id, u: Id, email: string, k: nat, n: nat) returns (t: System)
    requires SerialInv(db) && OpenTo(db, i, x) && SendInvite(db, u, email).1 == Done
    requires Touches(db.invites[i], x, u, db.emails[email])
    requires k <= n && 4 <= n <= 6 && n < SafeFrom(db.invites[i], u)
    ensures Leads(Joined(db, SendFindMe(u, email), AcceptFind(i, x), k), t) && !OpenInvitesAreFree(t.db)
  {
    var y := db.emails[email];
    WaitingSend(db, i, x, u, email, n);
    hide SerialInv, SendInvite, OpenTo, Touches, Leads, Steps, Step, Ready, AcceptInvite, OpenInvitesAreFree;
    var s, start := Joined(db, SendFindMe(u, email), AcceptFind(i, x), k), SendFindMe(u, email);
    var d, r := Steps(db, start, 0, n).0, Steps(db, start, 0, n).1;
    Stays(s);
    FirstUpTo(s, db, start, AcceptFind(i, x), k, n);
    t := InviteAfterJoining(s, d, r, 7 - n, i, x, u, y);
  }

  lemma InviteAfterJoining(s: System, d: Db, r: Request, n: nat, i: Id, x: Id, u: Id, y: Id) returns (t: System)
    requires Ready(d, r, n, i, x, u, y) && Leads(s, Two(d, r, AcceptFind(i, x)))
    ensures Leads(s, t) && !OpenInvitesAreFree(t.db)
  {
    JoinedAreMembers(d, i, x);
    AcceptIsItsSteps(d, i, x);
    hide KeysAreOld, AcceptInvite, IsMember, Steps, Step, Leads, OpenInvitesAreFree;
    var joined := AcceptInvite(d, i, x).0;
    var late := LateInvite(joined, r, n, u, y);
    RunsBetween(s, d, r, AcceptFind(i, x), joined, n);
    t := Two(Steps(joined, r, 0, n).0, Steps(joined, r, 0, n).1, Ended(Done));
    MembersInviteIsNotFree(t.db, late, u, y);
  }

  /** The second request runs to its end, and the first goes on. */
  lemma RunsBetween(s: System, d: Db, r: Request, q: Request, after: Db, n: nat)
    requires Leads(s, Two(d, r, q)) && Steps(d, q, 0, 7) == (after, Ended(Done))
    ensures Leads(s, Two(Steps(after, r, 0, n).0, Steps(after, r, 0, n).1, Ended(Done)))
  {
    hide Leads, Steps, Step;
    SecondAlone(s, d, r, q, 7);
    FirstAlone(s, after, r, Ended(Done), n);
  }

  /** A send at any of its last three statements leaves the invite of somebody else acceptable. */
  lemma WaitingSend(db: Db, i: Id, x: Id, u: Id, email: string, n: nat)
    requires SerialInv(db) && OpenTo(db, i, x) && SendInvite(db, u, email).1 == Done
    requires Touches(db.invites[i], x, u, db.emails[email])
    requires 4 <= n <= 6 && n < SafeFrom(db.invites[i], u)
    ensures Ready(Steps(db, SendFindMe(u, email), 0, n).0, Steps(db, SendFindMe(u, email), 0, n).1, 7 - n,
                  i, x, u, db.emails[email])
  {
    hide Steps, SerialInv, IsMember, Cleared, CreateCouple, KeysAreOld, Touches, Ready;
    var y := db.emails[email];
    assert u in db.users;
    SendAtFour(db, u, email);
    SendAtSix(db, u, email);
    OpenInviteIsFree(db, i, x);
    SerialKeys(db);
    hide SendInvite;
    ReadyAtFour(db, db, i, x, u, y);
    if n > 4 {
      CancelSpares(db, u, i);
      ReadyAtFour(db, Cleared(db, u), i, x, u, y);
      ReadyLater(Cleared(db, u), i, x, u, y);
    }
    hide OpenTo, SafeFrom;
  }

  lemma ReadyAtFour(db: Db, d: Db, i: Id, x: Id, u: Id, y: Id)
    requires OpenTo(db, i, x) && i in d.invites && d.invites[i] == db.invites[i] && d.members == db.members
    requires !IsMember(db.members, x) && !IsMember(db.members, db.invites[i].inviterUserId)
    requires db.invites[i].inviterUserId != x && db.invites[i].coupleId in d.couples
    requires KeysAreOld(d) && u in d.users && Touches(db.invites[i], x, u, y)
    ensures Ready(d, SendCancelOld(u, y), 3, i, x, u, y)
  {
    hide KeysAreOld, Touches;
    StillAcceptable(db, d, i, x);
    hide AcceptInvite;
  }

  lemma ReadyLater(d: Db, i: Id, x: Id, u: Id, y: Id)
    requires Ready(d, SendCancelOld(u, y), 3, i, x, u, y) && OpenTo(d, i, x)
    requires !IsMember(d.members, x) && !IsMember(d.members, d.invites[i].inviterUserId)
    requires d.invites[i].inviterUserId != x && d.invites[i].coupleId in d.couples
    ensures Ready(d, SendCreateCouple(u, y), 2, i, x, u, y)
    ensures Ready(CreateCouple(d), SendCreateInvite(u, y, d.nextId), 1, i, x, u, y)
  {
    CreateSpares(d);
    hide KeysAreOld, Touches, CreateCouple;
    StillAcceptable(d, CreateCouple(d), i, x);
    hide AcceptInvite;
  }

  lemma CancelSpares(db: Db, u: Id, i: Id)
    requires KeysAreOld(db) && i in db.invites && db.invites[i].inviterUserId != u
    ensures var d := Cleared(db, u);
            && KeysAreOld(d) && i in d.invites && d.invites[i] == db.invites[i]
            && d.members == db.members && d.couples == db.couples && d.users == db.users && d.nextId == db.nextId
  {}

  lemma CreateSpares(db: Db)
    requires KeysAreOld(db)
    ensures var d := CreateCouple(db);
            && KeysAreOld(d) && d.invites == db.invites && d.members == db.members && d.users == db.users
            && db.couples.Keys <= d.couples.Keys && db.nextId in d.couples
  {}

  /** The acceptance looks only at the members, the invite and its couple. */
  lemma StillAcceptable(db: Db, d: Db, i: Id, x: Id)
    requires OpenTo(db, i, x) && i in d.invites && d.invites[i] == db.invites[i] && d.members == db.members
    requires !IsMember(db.members, x) && !IsMember(db.members, db.invites[i].inviterUserId)
    requires db.invites[i].inviterUserId != x && db.invites[i].coupleId in d.couples
    ensures AcceptInvite(d, i, x).1 == Done
  {
    hide IsMember;
  }

  /**
    A send is under way when an acceptance of an open invite of one of its users arrives:
    members of couples are kept free of open invites in every schedule if and only if the send
    has come as far as stated above.
    */
  lemma AcceptAfterSendIsSafeIff(db: Db, i: Id, x: Id, u: Id, email: string, k: nat)
    requires SerialInv(db) && OpenTo(db, i, x) && SendInvite(db, u, email).1 == Done
    requires Touches(db.invites[i], x, u, db.emails[email])
    ensures KeepsFree(Joined(db, SendFindMe(u, email), AcceptFind(i, x), k)) <==> k >= SafeFrom(db.invites[i], u)
  {
    hide Leads, Joined, SerialInv, SendInvite, OpenInvitesAreFree;
    if k < SafeFrom(db.invites[i], u) {
      var t := LateAcceptGoesWrong(db, i, x, u, email, k, Max(k, 4));
    } else {
      forall t | Leads(Joined(db, SendFindMe(u, email), AcceptFind(i, x), k), t)
        ensures OpenInvitesAreFree(t.db)
      {
        SentIsIdle(db, i, x, u, email, k);
        IdleKeepsFree(Joined(db, SendFindMe(u, email), AcceptFind(i, x), k), if k >= 7 then 0 else 1, t);
      }
    }
  }

  lemma SentIsIdle(db: Db, i: Id, x: Id, u: Id, email: string, k: nat)
    requires SerialInv(db) && OpenTo(db, i, x) && SendInvite(db, u, email).1 == Done
    requires k >= SafeFrom(db.invites[i], u)
    ensures OneIdle(Joined(db, SendFindMe(u, email), AcceptFind(i, x), k), if k >= 7 then 0 else 1)
  {
    if k >= 7 {
      FirstHasEnded(db, SendFindMe(u, email), Send(u, email), k);
      EndedIsIdle(db, SendFindMe(u, email), AcceptFind(i, x), k);
      hide SerialInv, Steps, OneIdle, Serve, SendInvite;
    } else {
      CanceledIsIdle(db, i, x, u, email, k);
      hide SerialInv, Steps, OneIdle, SendInvite;
    }
  }

  lemma CanceledIsIdle(db: Db, i: Id, x: Id, u: Id, email: string, k: nat)
    requires SerialInv(db) && OpenTo(db, i, x) && SendInvite(db, u, email).1 == Done
    requires 5 <= k < 7 && db.invites[i].inviterUserId == u
    ensures OneIdle(Joined(db, SendFindMe(u, email), AcceptFind(i, x), k), 1)
  {
    hide Steps, SerialInv, OneIdle, Cleared, CreateCouple, KeysAreOld;
    SerialKeys(db);
    SendAtSix(db, u, email);
    hide SendInvite;
    CanceledIsHandled(db, u, i);
    var d := Steps(db, SendFindMe(u, email), 0, k).0;
    assert i < d.nextId && i in d.invites && !IsOpen(d.invites[i]);
    HandledIsIdle(db, SendFindMe(u, email), i, x, k);
  }

  lemma CanceledIsHandled(db: Db, u: Id, i: Id)
    requires KeysAreOld(db) && i in db.invites && db.invites[i].inviterUserId == u
    ensures var d := Cleared(db, u);
            && i < d.nextId && i in d.invites && !IsOpen(d.invites[i])
            && CreateCouple(d).invites == d.invites && i < CreateCouple(d).nextId
  {}

  // ----- An acceptance and the inviter's own send -----

  /** The tables once the send has canceled the invite, and once it is accepted nevertheless. */
  lemma CanceledIsAccepted(db: Db, i: Id, x: Id) returns (joined: Db)
    requires SerialInv(db) && OpenTo(db, i, x)
    ensures var cleared := Cleared(db, db.invites[i].inviterUserId);
            var commit := AcceptCommit(i, x, db.invites[i].coupleId, db.invites[i].inviterUserId);
            Steps(cleared, commit, 0, 1) == (joined, Ended(Done)) && !KeptIfHandled(cleared, joined, i)
  {
    SerialKeys(db);
    OpenInviteIsFree(db, i, x);
    hide SerialInv, Steps, IsMember;
    CanceledIsHandled(db, db.invites[i].inviterUserId, i);
    joined := CommitsAnyway(Cleared(db, db.invites[i].inviterUserId), i, x, db.invites[i].coupleId,
                            db.invites[i].inviterUserId);
  }

  /** The acceptance has made its checks and the send has too. */
  lemma OwnSendGoesWrong(s: System, db: Db, i: Id, x: Id, y: Id, first: bool)
    requires SerialInv(db) && OpenTo(db, i, x)
    requires var v := db.invites[i].inviterUserId;
             var commit, cancel := AcceptCommit(i, x, db.invites[i].coupleId, v), SendCancelOld(v, y);
             Leads(s, if first then Two(db, commit, cancel) else Two(db, cancel, commit))
    ensures !KeepsHandled(s, i)
  {
    var v := db.invites[i].inviterUserId;
    hide SerialInv, Leads, Steps, Step, Cleared, CreateCouple, KeptIfHandled;
    var commit := AcceptCommit(i, x, db.invites[i].coupleId, v);
    var cancel, create := SendCancelOld(v, y), SendCreateCouple(v, y);
    CancelAndCreate(db, v, y);
    var joined := CanceledIsAccepted(db, i, x);
    if first {
      SecondAlone(s, db, commit, cancel, 1);
      Stays(Two(Cleared(db, v), commit, create));
      FirstAlone(Two(Cleared(db, v), commit, create), Cleared(db, v), commit, create, 1);
    } else {
      FirstAlone(s, db, cancel, commit, 1);
      Stays(Two(Cleared(db, v), create, commit));
      SecondAlone(Two(Cleared(db, v), create, commit), Cleared(db, v), create, commit, 1);
    }
  }

  /**
    The inviter's own send, which would cancel the invite, keeps handled statuses in every
    schedule if and only if it arrives after all four steps of the acceptance.
    */
  lemma OwnSendIsSafeIff(db: Db, i: Id, x: Id, email: string, j: nat)
    requires SerialInv(db) && OpenTo(db, i, x) && SendInvite(db, db.invites[i].inviterUserId, email).1 == Done
    ensures KeepsHandled(Joined(db, AcceptFind(i, x), SendFindMe(db.invites[i].inviterUserId, email), j), i) <==> j >= 4
  {
    hide SerialInv, KeepsHandled, Steps, Leads;
    var v := db.invites[i].inviterUserId;
    var s := Joined(db, AcceptFind(i, x), SendFindMe(v, email), j);
    if j < 4 {
      Stays(s);
      FirstUpTo(s, db, AcceptFind(i, x), SendFindMe(v, email), j, 3);
      AcceptAtThree(db, i, x);
      SendAtFour(db, v, email);
      SecondAlone(s, db, AcceptCommit(i, x, db.invites[i].coupleId, v), SendFindMe(v, email), 4);
      OwnSendGoesWrong(s, db, i, x, db.emails[email], true);
    } else {
      AcceptEnds(db, i, x, j);
      EndedIsIdle(db, AcceptFind(i, x), SendFindMe(v, email), j);
      IdleKeepsAllHandled(s, 0, i);
    }
  }

  /** The same where the send came first: if and only if it has canceled the invite, its fifth step. */
  lemma AcceptAfterOwnSendIsSafeIff(db: Db, i: Id, x: Id, email: string, k: nat)
    requires SerialInv(db) && OpenTo(db, i, x) && SendInvite(db, db.invites[i].inviterUserId, email).1 == Done
    ensures KeepsHandled(Joined(db, SendFindMe(db.invites[i].inviterUserId, email), AcceptFind(i, x), k), i) <==> k >= 5
  {
    hide SerialInv, KeepsHandled, Steps, Leads;
    var v := db.invites[i].inviterUserId;
    var s := Joined(db, SendFindMe(v, email), AcceptFind(i, x), k);
    if k < 5 {
      Stays(s);
      FirstUpTo(s, db, SendFindMe(v, email), AcceptFind(i, x), k, 4);
      AcceptAtThree(db, i, x);
      SendAtFour(db, v, email);
      SecondAlone(s, db, SendCancelOld(v, db.emails[email]), AcceptFind(i, x), 3);
      OwnSendGoesWrong(s, db, i, x, db.emails[email], false);
    } else {
      SentIsIdle(db, i, x, v, email, k);
      IdleKeepsAllHandled(s, if k >= 7 then 0 else 1, i);
    }
  }

  // ----- A send that is stopped -----

  lemma {:induction false} OnlyFirst(s: System, events: seq<Event>, n: nat)
    requires s.requests == map[] && n <= |events| && forall k :: 0 <= k < |events| ==> events[k].tid == 0
    ensures UsersApart(After(s, events, n)) && After(s, events, n).requests.Keys <= {0}
  {
    hide Step;
    if n == 0 {
      assert events[..0] == [];
    } else {
      OnlyFirst(s, events, n - 1);
      AfterStep(s, events, n - 1);
    }
  }

  /**
    Any send, alone and stopped before its last statement, leaves a PENDING couple that has no
    invite, although no user is relied on twice.
    */
  lemma StoppedSendLeavesCouple(db: Db, u: Id, email: string) returns (events: seq<Event>)
    requires SerialInv(db) && SendInvite(db, u, email).1 == Done
    ensures forall k {:trigger After(System(db, map[]), events, k)} :: 0 <= k <= |events| ==>
              UsersApart(After(System(db, map[]), events, k))
    ensures var left := Exec(System(db, map[]), events).db;
            && !InvitesMirrorCouples(left)
            && db.nextId in left.couples && left.couples[db.nextId] == PendingCouple
            && (forall i :: i in left.invites ==> left.invites[i].coupleId != db.nextId)
  {
    hide Steps, UsersApart;
    var s := System(db, map[]);
    var before := OneAlone(db, SendFindMe(u, email), 6, 0);
    SendAtSix(db, u, email);
    events := before + [Crash(0)];
    assert events[..|events| - 1] == before;
    forall k {:trigger After(s, events, k)} | 0 <= k <= |events|
      ensures UsersApart(After(s, events, k))
    {
      OnlyFirst(s, events, k);
    }
    LeftWithoutInvite(db, u);
    hide SerialInv, CreateCouple, Cleared;
  }

  lemma LeftWithoutInvite(db: Db, u: Id)
    requires SerialInv(db)
    ensures var left := CreateCouple(Cleared(db, u));
            && !InvitesMirrorCouples(left)
            && db.nextId in left.couples && left.couples[db.nextId] == PendingCouple
            && (forall i :: i in left.invites ==> left.invites[i].coupleId != db.nextId)
  {
    CouplesExist(db);
    hide SerialInv;
    var left := CreateCouple(Cleared(db, u));
    assert forall i :: i in left.invites ==> i in db.invites && left.invites[i].coupleId == db.invites[i].coupleId;
    assert db.nextId !in db.couples && left.couples[db.nextId] == PendingCouple;
  }
}
