/**
  Which overlaps of couple requests are harmless.  The rule of one open invite per sender holds
  in every interleaving in which nobody has two sends in flight.  All rules on open and handled
  invites hold where no two requests rely on what they have read of one user.
  */
module CoupleOverlap {
  import opened Common
  import opened CoupleTables
  import opened CoupleInterleaving
  import opened CoupleRequests

  // ----- One send per user -----

  /** The user whose send is in flight. */
  function Sender(r: Request): Option<Id>
  {
    match r
    case SendFindMe(u, _) => Some(u)
    case SendFindInvitee(u, _) => Some(u)
    case SendCheckMe(u, _) => Some(u)
    case SendCheckInvitee(u, _) => Some(u)
    case SendCancelOld(u, _) => Some(u)
    case SendCreateCouple(u, _) => Some(u)
    case SendCreateInvite(u, _, _) => Some(u)
    case _ => None
  }

  /** The call is no send, or its user has no other send in flight. */
  predicate SendsAlone(s: System, e: Event)
  {
    e.Arrive? && Sender(e.call).Some? ==>
      forall t :: t in s.requests && t != e.tid ==> Sender(s.requests[t]) != Sender(e.call)
  }

  /** The request has canceled its sender's open invites and not yet added its own. */
  predicate HasCanceled(r: Request)
  {
    r.SendCreateCouple? || r.SendCreateInvite?
  }

  ghost predicate NoneOpenFrom(db: Db, userId: Id)
  {
    forall i :: i in db.invites && IsOpen(db.invites[i]) ==> db.invites[i].inviterUserId != userId
  }

  ghost predicate SenderIsClear(db: Db, r: Request)
  {
    HasCanceled(r) ==> NoneOpenFrom(db, r.userId)
  }

  ghost predicate SendersApart(s: System)
  {
    forall t, u :: t in s.requests && u in s.requests && t != u && Sender(s.requests[t]).Some? ==>
                     Sender(s.requests[t]) != Sender(s.requests[u])
  }

  ghost predicate OneSendInv(s: System)
  {
    && OneOpenInviteEach(s.db) && KeysAreOld(s.db) && SendersApart(s)
    && forall t :: t in s.requests ==> SenderIsClear(s.db, s.requests[t])
  }

  /** No statement opens an invite but the last of a send. */
  ghost predicate OpensNone(db: Db, after: Db)
  {
    forall i :: i in after.invites && IsOpen(after.invites[i]) ==>
                  i in db.invites && IsOpen(db.invites[i]) && after.invites[i] == db.invites[i]
  }

  lemma StepOpensNone(db: Db, r: Request, pick: Id)
    requires KeysAreOld(db) && !r.SendCreateInvite?
    ensures OpensNone(db, Step(db, r, pick).0)
  {
    if r.AcceptCommit? {
      var after := AcceptTransaction(db, r.inviteId, r.coupleId, r.inviter, r.userId);
      if after.Some? {
        AcceptHasEffect(db, after.value, r.inviteId, r.coupleId, r.inviter, r.userId);
        hide AcceptTransaction, IsMember;
      }
    }
  }

  lemma StepKeepsKeys(db: Db, r: Request, pick: Id)
    requires KeysAreOld(db)
    ensures KeysAreOld(Step(db, r, pick).0)
  {
    if r.AcceptCommit? {
      var after := AcceptTransaction(db, r.inviteId, r.coupleId, r.inviter, r.userId);
      if after.Some? {
        AcceptHasEffect(db, after.value, r.inviteId, r.coupleId, r.inviter, r.userId);
        hide AcceptTransaction, IsMember;
      }
    }
  }

  lemma OpensNoneKeeps(db: Db, after: Db, q: Request)
    requires OpensNone(db, after)
    ensures OneOpenInviteEach(db) ==> OneOpenInviteEach(after)
    ensures SenderIsClear(db, q) ==> SenderIsClear(after, q)
  {}

  /** The last statement of a send opens one invite, of a sender who has none. */
  lemma CreatingOpensOne(db: Db, r: Request, pick: Id, q: Request)
    requires KeysAreOld(db) && r.SendCreateInvite? && SenderIsClear(db, r)
    ensures OneOpenInviteEach(db) ==> OneOpenInviteEach(Step(db, r, pick).0)
    ensures SenderIsClear(db, q) && Sender(q) != Sender(r) ==> SenderIsClear(Step(db, r, pick).0, q)
  {}

  /** What a send's own statement leaves for it. */
  lemma OwnStepIsClear(db: Db, r: Request, pick: Id)
    requires KeysAreOld(db) && SenderIsClear(db, r)
    ensures SenderIsClear(Step(db, r, pick).0, Step(db, r, pick).1)
    ensures Sender(Step(db, r, pick).1).Some? ==> Sender(Step(db, r, pick).1) == Sender(r)
  {
    hide AcceptTransaction, DropCouple, DeleteCouple, IsMember, IsMemberOf;
  }

  lemma ApplyKeepsOneSend(s: System, e: Event)
    requires OneSendInv(s) && SendsAlone(s, e)
    ensures OneSendInv(Apply(s, e))
  {
    if e.Advance? && e.tid in s.requests {
      var r := s.requests[e.tid];
      var (after, next) := Step(s.db, r, e.pick);
      StepKeepsKeys(s.db, r, e.pick);
      assert SenderIsClear(s.db, r);
      OwnStepIsClear(s.db, r, e.pick);
      if !r.SendCreateInvite? {
        StepOpensNone(s.db, r, e.pick);
        OpensNoneKeeps(s.db, after, r);
      } else {
        CreatingOpensOne(s.db, r, e.pick, r);
      }
      hide Step, SenderIsClear, OneOpenInviteEach, KeysAreOld, OpensNone;
      forall t | t in s.requests && t != e.tid
        ensures SenderIsClear(after, s.requests[t])
      {
        if !r.SendCreateInvite? {
          OpensNoneKeeps(s.db, after, s.requests[t]);
        } else {
          CreatingOpensOne(s.db, r, e.pick, s.requests[t]);
        }
      }
    }
  }

  /** The run as it stands after each event. */
  function After(s: System, events: seq<Event>, n: nat): System
    requires n <= |events|
  {
    Exec(s, events[..n])
  }

  lemma AfterStep(s: System, events: seq<Event>, n: nat)
    requires n < |events|
    ensures After(s, events, n + 1) == Apply(After(s, events, n), events[n])
  {
    assert events[..n + 1][..n] == events[..n];
  }

  /**
    In every interleaving of all five requests, stopping anywhere, in which no call to send
    arrives while its user has another send in flight, nobody has two open invites out.
    */
  lemma {:induction false} OneOpenInviteIfOneSend(s: System, events: seq<Event>, n: nat)
    requires OneSendInv(s) && n <= |events|
    requires forall k {:trigger events[k]} :: 0 <= k < n ==> SendsAlone(After(s, events, k), events[k])
    ensures OneSendInv(After(s, events, n))
  {
    hide OneSendInv, SendsAlone, Apply;
    if n == 0 {
      assert events[..0] == [];
    } else {
      OneOpenInviteIfOneSend(s, events, n - 1);
      AfterStep(s, events, n - 1);
      assert SendsAlone(After(s, events, n - 1), events[n - 1]);
      hide After;
      ApplyKeepsOneSend(After(s, events, n - 1), events[n - 1]);
    }
  }

  // ----- Nobody relied on twice -----

  /** The users whose membership or open invites a request in flight relies on having read. */
  function ReliedOn(db: Db, r: Request): set<Id>
  {
    match r
    case SendCheckInvitee(u, _) => {u}
    case SendCancelOld(u, x) => {u, x}
    case SendCreateCouple(u, x) => {u, x}
    case SendCreateInvite(u, x, _) => {u, x}
    case AcceptCheckMe(_, u, _, v) => {u, v}
    case AcceptCheckInviter(_, u, _, v) => {u, v}
    case AcceptCommit(_, u, _, v) => {u, v}
    case DeclineMark(i, _) => UsersOf(db, i)
    case CancelMark(i, _) => UsersOf(db, i)
    case _ => {}
  }

  function UsersOf(db: Db, i: Id): set<Id>
  {
    if i !in db.invites then {}
    else
      var invitee := db.invites[i].inviteeUserId;
      {db.invites[i].inviterUserId} + if invitee.Some? then {invitee.value} else {}
  }

  /** No user is relied on by two requests in flight. */
  ghost predicate UsersApart(s: System)
  {
    forall t, u :: t in s.requests && u in s.requests && t != u ==>
                     ReliedOn(s.db, s.requests[t]) !! ReliedOn(s.db, s.requests[u])
  }

  ghost predicate StillOpen(db: Db, i: Id)
  {
    i < db.nextId && (i in db.invites ==> IsOpen(db.invites[i]))
  }

  /** What a request has read is still so. */
  ghost predicate StillTrue(db: Db, r: Request)
  {
    match r
    case SendCheckInvitee(u, _) => !IsMember(db.members, u)
    case SendCancelOld(u, x) => !IsMember(db.members, u) && !IsMember(db.members, x)
    case SendCreateCouple(u, x) => !IsMember(db.members, u) && !IsMember(db.members, x) && NoneOpenFrom(db, u)
    case SendCreateInvite(u, x, _) => !IsMember(db.members, u) && !IsMember(db.members, x) && NoneOpenFrom(db, u)
    case AcceptCheckMe(i, _, _, _) => StillOpen(db, i)
    case AcceptCheckInviter(i, _, _, _) => StillOpen(db, i)
    case AcceptCommit(i, _, _, _) => StillOpen(db, i)
    case DeclineMark(i, _) => StillOpen(db, i)
    case CancelMark(i, _) => StillOpen(db, i)
    case _ => true
  }

  ghost predicate Rules(db: Db)
  {
    OneOpenInviteEach(db) && OpenInvitesAreFree(db)
  }

  // ----- A step of a request whose reading is still true -----

  lemma CreateKeepsRules(db: Db, u: Id, x: Id, c: Id)
    requires KeysAreOld(db) && Rules(db) && StillTrue(db, SendCreateInvite(u, x, c)) && CreateInvite(db, c, u, x).Some?
    ensures var after := CreateInvite(db, c, u, x).value; Rules(after) && StatusesAreFinal(db, after)
  {}

  lemma CommitKeepsRules(db: Db, after: Db, i: Id, c: Id, v: Id, u: Id)
    requires KeysAreOld(db) && Rules(db) && StillOpen(db, i) && RowAgrees(db, i, c, v, u)
    requires AcceptEffect(db, after, i, c, v, u)
    ensures Rules(after) && StatusesAreFinal(db, after)
  {
    hide IsMember;
    assert OpensNone(db, after);
    OpensNoneKeeps(db, after, Ended(Done));
    forall j, m | j in after.invites && IsOpen(after.invites[j]) && m in after.members
      ensures !Involves(after.invites[j], after.members[m].userId)
    {
      assert j in db.invites && IsOpen(db.invites[j]) && j != i;
    }
  }

  lemma MarkKeepsRules(db: Db, i: Id, status: InviteStatus)
    requires Rules(db) && StillOpen(db, i) && i in db.invites && status != Pending
    ensures var after := SetStatus(db, i, status).value; Rules(after) && StatusesAreFinal(db, after)
  {}

  lemma CancelKeepsRules(db: Db, u: Id)
    requires Rules(db)
    ensures var after := db.(invites := CancelPendingFrom(db.invites, u));
            Rules(after) && StatusesAreFinal(db, after) && NoneOpenFrom(after, u)
  {}

  lemma DropKeepsRules(db: Db, c: Id)
    requires Rules(db)
    ensures Rules(DropCouple(db, c)) && StatusesAreFinal(db, DropCouple(db, c))
  {}

  lemma StepKeepsRules(db: Db, r: Request, pick: Id)
    requires KeysAreOld(db) && Rules(db) && Knows(db, r) && StillTrue(db, r)
    ensures Rules(Step(db, r, pick).0) && StatusesAreFinal(db, Step(db, r, pick).0)
  {
    hide Rules, IsMember, IsMemberOf, AcceptTransaction, CreateInvite, DropCouple, CancelPendingFrom, StillOpen;
    SameTablesKeepRules(db, db);
    match r
    case SendCancelOld(u, _) => CancelKeepsRules(db, u);
    case SendCreateCouple(_, _) => SameTablesKeepRules(db, CreateCouple(db));
    case SendCreateInvite(u, x, c) =>
      if CreateInvite(db, c, u, x).Some? {
        CreateKeepsRules(db, u, x, c);
      }
    case AcceptCommit(i, u, c, v) =>
      if AcceptTransaction(db, i, c, v, u).Some? {
        AcceptHasEffect(db, AcceptTransaction(db, i, c, v, u).value, i, c, v, u);
        CommitKeepsRules(db, AcceptTransaction(db, i, c, v, u).value, i, c, v, u);
      }
    case DeclineMark(i, _) =>
      if i in db.invites {
        MarkKeepsRules(db, i, Declined);
      }
    case CancelMark(i, _) =>
      if i in db.invites {
        MarkKeepsRules(db, i, Canceled);
      }
    case DropPending(c) => DropKeepsRules(db, c);
    case BreakDelete(c) =>
      DropKeepsRules(db, c);
      DeletingIsDropping(db, c);
    case _ =>
  }

  lemma DeletingIsDropping(db: Db, c: Id)
    ensures DeleteCouple(db, c).Some? ==> DeleteCouple(db, c).value == DropCouple(db, c)
  {}

  lemma SameTablesKeepRules(db: Db, after: Db)
    requires after.invites == db.invites && after.members == db.members
    ensures Rules(db) ==> Rules(after)
    ensures StatusesAreFinal(db, after)
  {}

  lemma CancelOldStaysTrue(db: Db, u: Id, x: Id)
    requires StillTrue(db, SendCancelOld(u, x))
    ensures StillTrue(db.(invites := CancelPendingFrom(db.invites, u)), SendCreateCouple(u, x))
  {
    hide IsMember;
  }

  lemma CreateCoupleStaysTrue(db: Db, u: Id, x: Id, c: Id)
    requires StillTrue(db, SendCreateCouple(u, x))
    ensures StillTrue(CreateCouple(db), SendCreateInvite(u, x, c))
  {
    hide IsMember;
  }

  /** What the request knows after its own step is true then. */
  lemma OwnStepStaysTrue(db: Db, r: Request, pick: Id)
    requires KeysAreOld(db) && StillTrue(db, r)
    ensures StillTrue(Step(db, r, pick).0, Step(db, r, pick).1)
  {
    hide AcceptTransaction, CreateInvite, DropCouple, DeleteCouple, CancelPendingFrom;
    hide IsMember, IsMemberOf, NoneOpenFrom;
    hide CreateCouple, SetStatus;
    match r
    case SendCancelOld(u, x) => CancelOldStaysTrue(db, u, x);
    case SendCreateCouple(u, x) => CreateCoupleStaysTrue(db, u, x, db.nextId);
    case _ =>
  }

  // ----- Steps of the others -----

  /** Tables change for a request only through users it relies on. */
  ghost predicate SpareUsers(db: Db, after: Db, users: set<Id>)
  {
    && db.nextId <= after.nextId
    && (forall u :: u !in users && IsMember(after.members, u) ==> IsMember(db.members, u))
    && (forall i :: i in after.invites && i in db.invites && after.invites[i] != db.invites[i] ==>
          UsersOf(db, i) * users != {})
    && (forall i :: i in after.invites && i !in db.invites ==>
          i >= db.nextId && after.invites[i].inviterUserId in users)
    && (forall i :: i in after.invites && i in db.invites ==>
          after.invites[i] == db.invites[i].(status := after.invites[i].status)
          && (IsOpen(after.invites[i]) ==> IsOpen(db.invites[i])))
  }

  lemma CommitSparesUsers(db: Db, after: Db, i: Id, c: Id, v: Id, u: Id)
    requires KeysAreOld(db) && RowAgrees(db, i, c, v, u) && AcceptEffect(db, after, i, c, v, u)
    ensures SpareUsers(db, after, {u, v})
  {
    forall w | w !in {u, v} && IsMember(after.members, w)
      ensures IsMember(db.members, w)
    {
      var m :| m in after.members && after.members[m].userId == w;
      assert m in db.members;
    }
    hide IsMember;
    forall j | j in db.invites && after.invites[j] != db.invites[j]
      ensures UsersOf(db, j) * {u, v} != {}
    {
      var invite := db.invites[j];
      var x := if invite.inviterUserId in {u, v} then invite.inviterUserId else invite.inviteeUserId.value;
      assert x in UsersOf(db, j) * {u, v};
    }
  }

  lemma CancelSparesUsers(db: Db, u: Id)
    ensures SpareUsers(db, db.(invites := CancelPendingFrom(db.invites, u)), {u})
  {
    var after := CancelPendingFrom(db.invites, u);
    forall j | j in db.invites && after[j] != db.invites[j]
      ensures UsersOf(db, j) * {u} != {}
    {
      assert u in UsersOf(db, j) * {u};
    }
  }

  lemma MarkSparesUsers(db: Db, i: Id, status: InviteStatus)
    requires i in db.invites && status != Pending
    ensures SpareUsers(db, SetStatus(db, i, status).value, UsersOf(db, i))
  {
    assert db.invites[i].inviterUserId in UsersOf(db, i) * UsersOf(db, i);
  }

  lemma DropSparesUsers(db: Db, c: Id)
    ensures SpareUsers(db, DropCouple(db, c), {})
  {}

  lemma CreateSparesUsers(db: Db, c: Id, u: Id, x: Id)
    requires KeysAreOld(db) && CreateInvite(db, c, u, x).Some?
    ensures SpareUsers(db, CreateInvite(db, c, u, x).value, {u})
  {}

  lemma SpareMore(db: Db, after: Db, few: set<Id>, many: set<Id>)
    requires SpareUsers(db, after, few) && few <= many
    ensures SpareUsers(db, after, many)
  {
    forall i | i in after.invites && i in db.invites && after.invites[i] != db.invites[i]
      ensures UsersOf(db, i) * many != {}
    {
      var x :| x in UsersOf(db, i) * few;
      assert x in UsersOf(db, i) * many;
    }
  }

  lemma NothingSparesAll(db: Db, after: Db, users: set<Id>)
    requires after.invites == db.invites && after.members == db.members && db.nextId <= after.nextId
    ensures SpareUsers(db, after, users)
  {}

  lemma StepSparesUsers(db: Db, r: Request, pick: Id)
    requires KeysAreOld(db) && Knows(db, r)
    ensures SpareUsers(db, Step(db, r, pick).0, ReliedOn(db, r))
  {
    hide SpareUsers, IsMember, IsMemberOf, AcceptTransaction, CreateInvite, DropCouple, CancelPendingFrom, UsersOf;
    NothingSparesAll(db, db, ReliedOn(db, r));
    match r
    case SendCancelOld(u, x) =>
      CancelSparesUsers(db, u);
      SpareMore(db, Step(db, r, pick).0, {u}, {u, x});
    case SendCreateCouple(_, _) => NothingSparesAll(db, CreateCouple(db), ReliedOn(db, r));
    case SendCreateInvite(u, x, c) =>
      if CreateInvite(db, c, u, x).Some? {
        CreateSparesUsers(db, c, u, x);
        SpareMore(db, CreateInvite(db, c, u, x).value, {u}, {u, x});
      }
    case AcceptCommit(i, u, c, v) =>
      if AcceptTransaction(db, i, c, v, u).Some? {
        AcceptHasEffect(db, AcceptTransaction(db, i, c, v, u).value, i, c, v, u);
        CommitSparesUsers(db, AcceptTransaction(db, i, c, v, u).value, i, c, v, u);
      }
    case DeclineMark(i, _) =>
      if i in db.invites {
        MarkSparesUsers(db, i, Declined);
      }
    case CancelMark(i, _) =>
      if i in db.invites {
        MarkSparesUsers(db, i, Canceled);
      }
    case DropPending(c) => DropSparesUsers(db, c);
    case BreakDelete(c) =>
      DropSparesUsers(db, c);
      DeletingIsDropping(db, c);
    case _ =>
  }

  /** What a request relies on does not change through others that rely on other users. */
  lemma OthersStayTrue(db: Db, after: Db, users: set<Id>, q: Request)
    requires KeysAreOld(db) && InvitesOwnCouples(db) && Knows(db, q) && StillTrue(db, q) && SpareUsers(db, after, users)
    requires users !! ReliedOn(db, q)
    ensures StillTrue(after, q)
  {
    hide IsMember;
    match q
    case AcceptCheckMe(i, _, _, _) => HandledStaysOpen(db, after, users, q, i);
    case AcceptCheckInviter(i, _, _, _) => HandledStaysOpen(db, after, users, q, i);
    case AcceptCommit(i, _, _, _) => HandledStaysOpen(db, after, users, q, i);
    case DeclineMark(i, _) => HandledStaysOpen(db, after, users, q, i);
    case CancelMark(i, _) => HandledStaysOpen(db, after, users, q, i);
    case _ =>
  }

  lemma HandledStaysOpen(db: Db, after: Db, users: set<Id>, q: Request, i: Id)
    requires SpareUsers(db, after, users) && StillOpen(db, i)
    requires UsersOf(db, i) <= ReliedOn(db, q) && users !! ReliedOn(db, q)
    ensures StillOpen(after, i)
  {
    assert UsersOf(db, i) * users == {};
  }

  // ----- Whole interleavings -----

  ghost predicate AllTrue(s: System)
  {
    && SystemInv(s) && Rules(s.db)
    && forall t :: t in s.requests ==> StillTrue(s.db, s.requests[t])
  }

  lemma AdvanceKeepsAllTrue(s: System, tid: nat, pick: Id)
    requires AllTrue(s) && UsersApart(s) && tid in s.requests
    ensures AllTrue(Apply(s, Advance(tid, pick))) && StatusesAreFinal(s.db, Apply(s, Advance(tid, pick)).db)
  {
    var r := s.requests[tid];
    var (after, next) := Step(s.db, r, pick);
    ApplyKeepsInv(s, Advance(tid, pick));
    assert KeysAreOld(s.db) && InvitesOwnCouples(s.db) && Knows(s.db, r) && StillTrue(s.db, r);
    hide Step, StillTrue, Rules, Membership, Knows, ReliedOn, StatusesAreFinal, SystemInv, SpareUsers, KeysAreOld;
    StepKeepsRules(s.db, r, pick);
    OwnStepStaysTrue(s.db, r, pick);
    StepSparesUsers(s.db, r, pick);
    forall u | u in s.requests && u != tid
      ensures StillTrue(after, s.requests[u])
    {
      KnowsOfAll(s, u);
      OthersStayTrue(s.db, after, ReliedOn(s.db, r), s.requests[u]);
    }
  }

  lemma KnowsOfAll(s: System, t: nat)
    requires SystemInv(s) && t in s.requests
    ensures Knows(s.db, s.requests[t])
  {}

  lemma SameStatuses(db: Db)
    ensures StatusesAreFinal(db, db)
  {}

  lemma ApplyKeepsAllTrue(s: System, e: Event)
    requires AllTrue(s) && UsersApart(s)
    ensures AllTrue(Apply(s, e)) && StatusesAreFinal(s.db, Apply(s, e).db)
  {
    if e.Advance? && e.tid in s.requests {
      AdvanceKeepsAllTrue(s, e.tid, e.pick);
    } else {
      ApplyKeepsInv(s, e);
      SameStatuses(s.db);
      hide SystemInv, Rules, StatusesAreFinal, Step;
    }
  }

  /**
    In every interleaving, stopping anywhere, in which no user is relied on by two requests at
    once, nobody has two open invites out, no member of a couple sends or holds an open invite,
    and a request finds what it has read still true.
    */
  lemma {:induction false} RulesHoldIfUsersApart(s: System, events: seq<Event>, n: nat)
    requires AllTrue(s) && n <= |events|
    requires forall k {:trigger After(s, events, k)} :: 0 <= k < n ==> UsersApart(After(s, events, k))
    ensures AllTrue(After(s, events, n))
  {
    hide AllTrue, UsersApart, Apply;
    if n == 0 {
      assert events[..0] == [];
    } else {
      RulesHoldIfUsersApart(s, events, n - 1);
      AfterStep(s, events, n - 1);
      assert UsersApart(After(s, events, n - 1));
      hide After;
      ApplyKeepsAllTrue(After(s, events, n - 1), events[n - 1]);
    }
  }

  /** Rows come under new ids. */
  lemma ApplyEvolves(s: System, e: Event)
    requires KeysAreOld(s.db)
    ensures Evolves(s.db, Apply(s, e).db)
  {
    if e.Advance? && e.tid in s.requests {
      StepEvolves(s.db, s.requests[e.tid], e.pick);
    }
  }

  /** In such an interleaving, a handled invite keeps its status for as long as its row exists. */
  lemma {:induction false} HandledStaysHandledIfUsersApart(s: System, events: seq<Event>, n: nat, m: nat, i: Id)
    requires AllTrue(s) && n <= m <= |events|
    requires forall k {:trigger After(s, events, k)} :: 0 <= k < m ==> UsersApart(After(s, events, k))
    requires i in After(s, events, n).db.invites && After(s, events, n).db.invites[i].status != Pending
    requires i in After(s, events, m).db.invites
    ensures After(s, events, m).db.invites[i] == After(s, events, n).db.invites[i]
    decreases m
  {
    hide AllTrue, UsersApart, Apply, After;
    if n < m {
      var before, e := After(s, events, m - 1), events[m - 1];
      AfterStep(s, events, m - 1);
      RulesHoldIfUsersApart(s, events, m - 1);
      RulesHoldIfUsersApart(s, events, n);
      assert UsersApart(before);
      ApplyKeepsAllTrue(before, e);
      IdsGrow(s, events, n, m - 1);
      TrueTablesHaveOldKeys(before);
      TrueTablesHaveOldKeys(After(s, events, n));
      ApplyEvolves(before, e);
      assert i in before.db.invites;
      HandledStaysHandledIfUsersApart(s, events, n, m - 1, i);
    }
  }

  lemma TrueTablesHaveOldKeys(s: System)
    requires AllTrue(s)
    ensures KeysAreOld(s.db)
  {}

  lemma {:induction false} IdsGrow(s: System, events: seq<Event>, n: nat, m: nat)
    requires AllTrue(s) && n <= m <= |events|
    requires forall k {:trigger After(s, events, k)} :: 0 <= k < m ==> UsersApart(After(s, events, k))
    ensures After(s, events, n).db.nextId <= After(s, events, m).db.nextId
    decreases m
  {
    hide AllTrue, UsersApart, Apply, After, Evolves;
    if n < m {
      AfterStep(s, events, m - 1);
      RulesHoldIfUsersApart(s, events, m - 1);
      TrueTablesHaveOldKeys(After(s, events, m - 1));
      ApplyEvolves(After(s, events, m - 1), events[m - 1]);
      IdsGrow(s, events, n, m - 1);
      EvolvesGrows(After(s, events, m - 1).db, After(s, events, m).db);
    }
  }

  lemma EvolvesGrows(db: Db, after: Db)
    requires Evolves(db, after)
    ensures db.nextId <= after.nextId
  {}
}
