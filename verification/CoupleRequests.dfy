/**
  Couple requests served one at a time: what each request does to the tables as a whole, and
  what every run of requests keeps.
  */
module CoupleRequests {
  import opened Common
  import opened CoupleTables
  import opened CoupleInterleaving

  // ----- Whole requests -----

  /** Cancel the sender's open invites, then add a pending couple with a pending invite. */
  function SendInvite(db: Db, userId: Id, email: string): (Db, Outcome)
  {
    if userId !in db.users then (db, UserNotFound)
    else if email !in db.emails then (db, InviteeNotFound)
    else if db.emails[email] == userId then (db, SelfInvite)
    else if IsMember(db.members, userId) then (db, AlreadyCoupled)
    else if IsMember(db.members, db.emails[email]) then (db, InviteeCoupled)
    else
      var invite := Invite(db.nextId, userId, Some(db.emails[email]), Pending);
      (db.(
        couples := db.couples[db.nextId := PendingCouple],
        invites := CancelPendingFrom(db.invites, userId)[db.nextId + 1 := invite],
        nextId := db.nextId + 2), Done)
  }

  function AcceptInvite(db: Db, inviteId: Id, userId: Id): (Db, Outcome)
  {
    if inviteId !in db.invites then (db, InviteNotFound)
    else
      var invite := db.invites[inviteId];
      if invite.inviteeUserId != Some(userId) then (db, NotYourInvite)
      else if invite.status != Pending then (db, AlreadyHandled)
      else if IsMember(db.members, userId) then (db, AlreadyCoupled)
      else if IsMember(db.members, invite.inviterUserId) then (db, InviterCoupled)
      else
        match AcceptTransaction(db, inviteId, invite.coupleId, invite.inviterUserId, userId)
        case Some(after) => (after, Done)
        case None => (db, StatementFailed)
  }

  function DeclineInvite(db: Db, inviteId: Id, userId: Id): (Db, Outcome)
  {
    if inviteId !in db.invites then (db, InviteNotFound)
    else
      var invite := db.invites[inviteId];
      if invite.inviteeUserId != Some(userId) then (db, NotYourInvite)
      else if invite.status != Pending then (db, AlreadyHandled)
      else (DropCouple(SetStatus(db, inviteId, Declined).value, invite.coupleId), Done)
  }

  /** `pick` is the open invite the unordered query returns, when there is one. */
  function CancelInvite(db: Db, userId: Id, pick: Id): (Db, Outcome)
    requires PendingFrom(db.invites, userId) == {} || pick in PendingFrom(db.invites, userId)
  {
    if PendingFrom(db.invites, userId) == {} then (db, Done)
    else (DropCouple(SetStatus(db, pick, Canceled).value, db.invites[pick].coupleId), Done)
  }

  function BreakUp(db: Db, coupleId: Id, userId: Id): (Db, Outcome)
  {
    if !IsMemberOf(db.members, coupleId, userId) then (db, NotAMember)
    else
      match DeleteCouple(db, coupleId)
      case Some(after) => (after, Done)
      case None => (db, StatementFailed)
  }

  datatype Call =
    | Send(userId: Id, email: string)
    | Accept(inviteId: Id, userId: Id)
    | Decline(inviteId: Id, userId: Id)
    | Cancel(userId: Id, pick: Id)
    | Break(coupleId: Id, userId: Id)

  predicate Callable(db: Db, call: Call)
  {
    call.Cancel? ==> PendingFrom(db.invites, call.userId) == {} || call.pick in PendingFrom(db.invites, call.userId)
  }

  function Serve(db: Db, call: Call): (Db, Outcome)
    requires Callable(db, call)
  {
    match call
    case Send(userId, email) => SendInvite(db, userId, email)
    case Accept(inviteId, userId) => AcceptInvite(db, inviteId, userId)
    case Decline(inviteId, userId) => DeclineInvite(db, inviteId, userId)
    case Cancel(userId, pick) => CancelInvite(db, userId, pick)
    case Break(coupleId, userId) => BreakUp(db, coupleId, userId)
  }

  // ----- A request on its own is its steps without interruption -----

  function Opening(call: Call): Request
  {
    match call
    case Send(userId, email) => SendFindMe(userId, email)
    case Accept(inviteId, userId) => AcceptFind(inviteId, userId)
    case Decline(inviteId, userId) => DeclineFind(inviteId, userId)
    case Cancel(userId, _) => CancelFind(userId)
    case Break(coupleId, userId) => BreakCheck(coupleId, userId)
  }

  /** What may arrive in an interleaving is exactly what a call opens with. */
  lemma CallsArrive(r: Request)
    ensures IsCall(r) <==> exists call :: Opening(call) == r
  {
    match r
    case SendFindMe(userId, email) => assert Opening(Send(userId, email)) == r;
    case AcceptFind(inviteId, userId) => assert Opening(Accept(inviteId, userId)) == r;
    case DeclineFind(inviteId, userId) => assert Opening(Decline(inviteId, userId)) == r;
    case CancelFind(userId) => assert Opening(Cancel(userId, 0)) == r;
    case BreakCheck(coupleId, userId) => assert Opening(Break(coupleId, userId)) == r;
    case _ =>
  }

  function Steps(db: Db, r: Request, pick: Id, n: nat): (Db, Request)
    decreases n
  {
    if n == 0 then (db, r)
    else
      var (after, next) := Step(db, r, pick);
      Steps(after, next, pick, n - 1)
  }

  lemma StepsUnfold(db: Db, r: Request, pick: Id, n: nat)
    requires n > 0
    ensures Steps(db, r, pick, n) == Steps(Step(db, r, pick).0, Step(db, r, pick).1, pick, n - 1)
  {}

  lemma {:induction false} StepsEnded(db: Db, outcome: Outcome, pick: Id, n: nat)
    ensures Steps(db, Ended(outcome), pick, n) == (db, Ended(outcome))
  {
    if n > 0 {
      StepsEnded(db, outcome, pick, n - 1);
    }
  }

  /** Three more steps, as far as the request still runs. */
  lemma StepsThree(db: Db, r: Request, pick: Id, n: nat)
    ensures var (d1, r1) := Step(db, r, pick);
            var (d2, r2) := Step(d1, r1, pick);
            var (d3, r3) := Step(d2, r2, pick);
            Steps(db, r, pick, n + 3) == Steps(d3, r3, pick, n)
  {
    var (d1, r1) := Step(db, r, pick);
    var (d2, r2) := Step(d1, r1, pick);
    StepsUnfold(db, r, pick, n + 3);
    StepsUnfold(d1, r1, pick, n + 2);
    StepsUnfold(d2, r2, pick, n + 1);
  }

  /** The statement a request issues last, and what it leaves. */
  lemma SendIsItsSteps(db: Db, userId: Id, email: string)
    ensures var (after, outcome) := SendInvite(db, userId, email);
            Steps(db, SendFindMe(userId, email), 0, 7) == (after, Ended(outcome))
  {
    hide Steps;
    StepsThree(db, SendFindMe(userId, email), 0, 4);
    if userId in db.users && email in db.emails && db.emails[email] != userId && !IsMember(db.members, userId) {
      var invitee := db.emails[email];
      StepsThree(db, SendCheckInvitee(userId, invitee), 0, 1);
      if !IsMember(db.members, invitee) {
        var d1 := db.(invites := CancelPendingFrom(db.invites, userId));
        StepsUnfold(CreateCouple(d1), SendCreateInvite(userId, invitee, db.nextId), 0, 1);
        StepsEnded(SendInvite(db, userId, email).0, Done, 0, 0);
      } else {
        StepsEnded(db, InviteeCoupled, 0, 1);
      }
    } else {
      StepsEnded(db, SendInvite(db, userId, email).1, 0, 4);
    }
  }

  lemma AcceptIsItsSteps(db: Db, inviteId: Id, userId: Id)
    ensures var (after, outcome) := AcceptInvite(db, inviteId, userId);
            Steps(db, AcceptFind(inviteId, userId), 0, 7) == (after, Ended(outcome))
  {
    hide Steps;
    StepsThree(db, AcceptFind(inviteId, userId), 0, 4);
    var (d1, r1) := Step(db, AcceptFind(inviteId, userId), 0);
    var (d2, r2) := Step(d1, r1, 0);
    var (d3, r3) := Step(d2, r2, 0);
    StepsUnfold(d3, r3, 0, 4);
    StepsEnded(AcceptInvite(db, inviteId, userId).0, AcceptInvite(db, inviteId, userId).1, 0, 3);
  }

  lemma DeclineIsItsSteps(db: Db, inviteId: Id, userId: Id)
    ensures var (after, outcome) := DeclineInvite(db, inviteId, userId);
            Steps(db, DeclineFind(inviteId, userId), 0, 7) == (after, Ended(outcome))
  {
    hide Steps;
    StepsThree(db, DeclineFind(inviteId, userId), 0, 4);
    StepsEnded(DeclineInvite(db, inviteId, userId).0, DeclineInvite(db, inviteId, userId).1, 0, 4);
  }

  lemma CancelIsItsSteps(db: Db, userId: Id, pick: Id)
    requires Callable(db, Cancel(userId, pick))
    ensures var (after, outcome) := CancelInvite(db, userId, pick);
            Steps(db, CancelFind(userId), pick, 7) == (after, Ended(outcome))
  {
    hide Steps;
    StepsThree(db, CancelFind(userId), pick, 4);
    StepsEnded(CancelInvite(db, userId, pick).0, Done, pick, 4);
  }

  lemma BreakIsItsSteps(db: Db, coupleId: Id, userId: Id)
    ensures var (after, outcome) := BreakUp(db, coupleId, userId);
            Steps(db, BreakCheck(coupleId, userId), 0, 7) == (after, Ended(outcome))
  {
    hide Steps;
    StepsThree(db, BreakCheck(coupleId, userId), 0, 4);
    StepsEnded(BreakUp(db, coupleId, userId).0, BreakUp(db, coupleId, userId).1, 0, 4);
  }

  /** Served alone, every request ends within seven statements with the result above. */
  lemma ServeIsItsSteps(db: Db, call: Call)
    requires Callable(db, call)
    ensures var (after, outcome) := Serve(db, call);
            Steps(db, Opening(call), if call.Cancel? then call.pick else 0, 7) == (after, Ended(outcome))
  {
    match call
    case Send(userId, email) => SendIsItsSteps(db, userId, email);
    case Accept(inviteId, userId) => AcceptIsItsSteps(db, inviteId, userId);
    case Decline(inviteId, userId) => DeclineIsItsSteps(db, inviteId, userId);
    case Cancel(userId, pick) => CancelIsItsSteps(db, userId, pick);
    case Break(coupleId, userId) => BreakIsItsSteps(db, coupleId, userId);
  }

  // ----- What serial runs keep -----

  predicate IsOpen(invite: Invite)
  {
    invite.status == Pending
  }

  /** Nobody has two open invites out. */
  ghost predicate OneOpenInviteEach(db: Db)
  {
    forall i, j :: i in db.invites && j in db.invites && i != j && IsOpen(db.invites[i]) && IsOpen(db.invites[j]) ==>
                     db.invites[i].inviterUserId != db.invites[j].inviterUserId
  }

  /** No member of a couple sends or holds an open invite. */
  ghost predicate OpenInvitesAreFree(db: Db)
  {
    forall i, m :: i in db.invites && IsOpen(db.invites[i]) && m in db.members ==>
                     !Involves(db.invites[i], db.members[m].userId)
  }

  /**
    Every invite has its couple and every pending couple its invite, and an invite is ACCEPTED
    exactly when its couple is ACTIVE.
    */
  ghost predicate InvitesMirrorCouples(db: Db)
  {
    && (forall i :: i in db.invites ==>
                      db.invites[i].coupleId in db.couples
                      && (db.invites[i].status == Accepted <==> db.couples[db.invites[i].coupleId] == ActiveCouple))
    && (forall c :: c in db.couples && db.couples[c] == PendingCouple ==>
                      exists i :: i in db.invites && db.invites[i].coupleId == c)
  }

  ghost predicate SerialInv(db: Db)
  {
    Membership(db) && OneOpenInviteEach(db) && OpenInvitesAreFree(db) && InvitesMirrorCouples(db)
  }

  /** A status other than PENDING is final, and the rest of an invite row never changes. */
  ghost predicate StatusesAreFinal(db: Db, after: Db)
  {
    forall i :: i in db.invites && i in after.invites ==>
                  && after.invites[i] == db.invites[i].(status := after.invites[i].status)
                  && (db.invites[i].status != Pending ==> after.invites[i].status == db.invites[i].status)
  }

  lemma SendKeepsMirror(db: Db, userId: Id, email: string)
    requires KeysAreOld(db) && InvitesMirrorCouples(db)
    ensures InvitesMirrorCouples(SendInvite(db, userId, email).0)
  {
    var (after, outcome) := SendInvite(db, userId, email);
    if outcome == Done {
      forall c | c in after.couples && after.couples[c] == PendingCouple
        ensures exists i :: i in after.invites && after.invites[i].coupleId == c
      {
        if c == db.nextId {
          assert after.invites[db.nextId + 1].coupleId == c;
        } else {
          var i :| i in db.invites && db.invites[i].coupleId == c;
          assert after.invites[i].coupleId == c;
        }
      }
    }
  }

  lemma SendKeepsMembership(db: Db, userId: Id, email: string)
    requires Membership(db)
    ensures Membership(SendInvite(db, userId, email).0)
  {
    var (after, outcome) := SendInvite(db, userId, email);
    if outcome == Done {
      var d1 := db.(invites := CancelPendingFrom(db.invites, userId));
      StatusesKeepMembership(db, d1.invites);
      CreateCoupleKeepsMembership(d1);
      CreateInviteKeepsMembership(CreateCouple(d1), db.nextId, userId, db.emails[email]);
      assert CreateInvite(CreateCouple(d1), db.nextId, userId, db.emails[email]) == Some(after);
    }
  }

  lemma SendKeepsOneEach(db: Db, userId: Id, email: string)
    requires KeysAreOld(db) && OneOpenInviteEach(db)
    ensures OneOpenInviteEach(SendInvite(db, userId, email).0)
  {
    hide IsMember;
  }

  lemma SendKeepsFree(db: Db, userId: Id, email: string)
    requires KeysAreOld(db) && OpenInvitesAreFree(db)
    ensures OpenInvitesAreFree(SendInvite(db, userId, email).0)
  {}

  lemma SendKeepsFinal(db: Db, userId: Id, email: string)
    requires KeysAreOld(db)
    ensures StatusesAreFinal(db, SendInvite(db, userId, email).0)
  {
    hide IsMember;
  }

  lemma SendKeepsOpenInvites(db: Db, userId: Id, email: string)
    requires KeysAreOld(db) && OneOpenInviteEach(db) && OpenInvitesAreFree(db)
    ensures var after := SendInvite(db, userId, email).0;
            OneOpenInviteEach(after) && OpenInvitesAreFree(after) && StatusesAreFinal(db, after)
  {
    hide SendInvite, KeysAreOld, OneOpenInviteEach, OpenInvitesAreFree, StatusesAreFinal;
    SendKeepsOneEach(db, userId, email);
    SendKeepsFree(db, userId, email);
    SendKeepsFinal(db, userId, email);
  }

  lemma SendKeepsInv(db: Db, userId: Id, email: string)
    requires SerialInv(db)
    ensures SerialInv(SendInvite(db, userId, email).0)
    ensures StatusesAreFinal(db, SendInvite(db, userId, email).0)
  {
    SendKeepsMembership(db, userId, email);
    SendKeepsOpenInvites(db, userId, email);
    SendKeepsMirror(db, userId, email);
  }

  /**
    An open invite can always be accepted by its invitee: neither of the two rejections for
    users who are already in a couple is reachable, and the transaction does not fail.
    */
  lemma OpenInviteIsAcceptable(db: Db, inviteId: Id, userId: Id)
    requires SerialInv(db)
    ensures AcceptInvite(db, inviteId, userId).1 == Done <==>
            && inviteId in db.invites
            && db.invites[inviteId].status == Pending
            && db.invites[inviteId].inviteeUserId == Some(userId)
  {
    hide OneOpenInviteEach, InvitesMirrorCouples, KeysAreOld, OneCoupleEach, CouplesAreComplete, InvitesNameMembers;
    if && inviteId in db.invites
       && db.invites[inviteId].status == Pending && db.invites[inviteId].inviteeUserId == Some(userId) {
      var invite := db.invites[inviteId];
      forall m | m in db.members
        ensures db.members[m].userId != userId && db.members[m].userId != invite.inviterUserId
      {
        assert !Involves(invite, db.members[m].userId);
      }
    }
  }

  /** Where an acceptance is done, the transaction has had its effect. */
  lemma AcceptDone(db: Db, inviteId: Id, userId: Id)
    requires AcceptInvite(db, inviteId, userId).1 == Done
    ensures var invite, after := db.invites[inviteId], AcceptInvite(db, inviteId, userId).0;
            && AcceptTransaction(db, inviteId, invite.coupleId, invite.inviterUserId, userId) == Some(after)
            && AcceptEffect(db, after, inviteId, invite.coupleId, invite.inviterUserId, userId)
            && RowAgrees(db, inviteId, invite.coupleId, invite.inviterUserId, userId)
            && IsOpen(invite)
  {
    var invite, after := db.invites[inviteId], AcceptInvite(db, inviteId, userId).0;
    AcceptHasEffect(db, after, inviteId, invite.coupleId, invite.inviterUserId, userId);
  }

  lemma AcceptKeepsMirror(db: Db, after: Db, inviteId: Id, coupleId: Id, inviter: Id, userId: Id)
    requires InvitesMirrorCouples(db) && InvitesOwnCouples(db)
    requires AcceptEffect(db, after, inviteId, coupleId, inviter, userId)
    requires db.invites[inviteId].coupleId == coupleId && IsOpen(db.invites[inviteId])
    ensures InvitesMirrorCouples(after) && StatusesAreFinal(db, after)
  {
    hide IsMember, Involves;
    AcceptKeepsInvites(db, after, inviteId, coupleId, inviter, userId);
    forall c | c in after.couples && after.couples[c] == PendingCouple
      ensures exists i :: i in after.invites && after.invites[i].coupleId == c
    {
      var i :| i in db.invites && db.invites[i].coupleId == c;
      assert after.invites[i].coupleId == c;
    }
  }

  lemma AcceptKeepsOpenInvites(db: Db, after: Db, inviteId: Id, coupleId: Id, inviter: Id, userId: Id)
    requires KeysAreOld(db) && OneOpenInviteEach(db) && OpenInvitesAreFree(db)
    requires AcceptEffect(db, after, inviteId, coupleId, inviter, userId)
    ensures OneOpenInviteEach(after) && OpenInvitesAreFree(after)
  {
    assert forall i :: i in after.invites && IsOpen(after.invites[i]) ==>
                         && after.invites[i] == db.invites[i]
                         && !Involves(db.invites[i], inviter) && !Involves(db.invites[i], userId);
    assert forall m :: m in after.members ==>
                         (m in db.members && after.members[m] == db.members[m])
                         || after.members[m].userId == inviter || after.members[m].userId == userId;
  }

  lemma AcceptKeepsInv(db: Db, inviteId: Id, userId: Id)
    requires SerialInv(db)
    ensures SerialInv(AcceptInvite(db, inviteId, userId).0)
    ensures StatusesAreFinal(db, AcceptInvite(db, inviteId, userId).0)
  {
    if AcceptInvite(db, inviteId, userId).1 == Done {
      var invite, after := db.invites[inviteId], AcceptInvite(db, inviteId, userId).0;
      AcceptDone(db, inviteId, userId);
      AcceptKeepsMembership(db, after, inviteId, invite.coupleId, invite.inviterUserId, userId);
      AcceptKeepsMirror(db, after, inviteId, invite.coupleId, invite.inviterUserId, userId);
      AcceptKeepsOpenInvites(db, after, inviteId, invite.coupleId, invite.inviterUserId, userId);
    }
  }

  /** Dropping a couple takes its rows with it and touches nothing else. */
  lemma DropKeepsInv(db: Db, coupleId: Id)
    requires SerialInv(db)
    ensures SerialInv(DropCouple(db, coupleId))
    ensures StatusesAreFinal(db, DropCouple(db, coupleId))
  {
    DeleteKeepsMembership(db, coupleId);
    var after := DropCouple(db, coupleId);
    forall c | c in after.couples && after.couples[c] == PendingCouple
      ensures exists i :: i in after.invites && after.invites[i].coupleId == c
    {
      var i :| i in db.invites && db.invites[i].coupleId == c;
      assert i in after.invites;
    }
  }

  /** Marking an invite first makes no difference: the row is deleted with its couple. */
  lemma MarkedInviteIsDropped(db: Db, inviteId: Id, status: InviteStatus)
    requires inviteId in db.invites && db.invites[inviteId].coupleId in db.couples
    ensures DropCouple(SetStatus(db, inviteId, status).value, db.invites[inviteId].coupleId)
         == DropCouple(db, db.invites[inviteId].coupleId)
    ensures inviteId !in DropCouple(db, db.invites[inviteId].coupleId).invites
  {}

  lemma DeclineKeepsInv(db: Db, inviteId: Id, userId: Id)
    requires SerialInv(db)
    ensures var after := DeclineInvite(db, inviteId, userId).0; SerialInv(after) && StatusesAreFinal(db, after)
  {
    if DeclineInvite(db, inviteId, userId).1 == Done {
      MarkedInviteIsDropped(db, inviteId, Declined);
      DropKeepsInv(db, db.invites[inviteId].coupleId);
    }
  }

  lemma CancelKeepsInv(db: Db, userId: Id, pick: Id)
    requires SerialInv(db) && Callable(db, Cancel(userId, pick))
    ensures var after := CancelInvite(db, userId, pick).0; SerialInv(after) && StatusesAreFinal(db, after)
  {
    if PendingFrom(db.invites, userId) != {} {
      MarkedInviteIsDropped(db, pick, Canceled);
      DropKeepsInv(db, db.invites[pick].coupleId);
    }
  }

  /** Every request keeps the tables in order and moves statuses only away from PENDING. */
  lemma ServeKeepsInv(db: Db, call: Call)
    requires SerialInv(db) && Callable(db, call)
    ensures SerialInv(Serve(db, call).0) && StatusesAreFinal(db, Serve(db, call).0)
  {
    match call
    case Send(userId, email) => SendKeepsInv(db, userId, email);
    case Accept(inviteId, userId) => AcceptKeepsInv(db, inviteId, userId);
    case Decline(inviteId, userId) => DeclineKeepsInv(db, inviteId, userId);
    case Cancel(userId, pick) => CancelKeepsInv(db, userId, pick);
    case Break(coupleId, userId) => DropKeepsInv(db, coupleId);
  }

  /** Tables with users only are in order. */
  lemma FreshTablesAreInOrder(users: set<Id>, emails: map<string, Id>)
    requires emails.Values <= users
    ensures SerialInv(Db(users, emails, map[], map[], map[], 0))
    ensures SystemInv(System(Db(users, emails, map[], map[], map[], 0), map[]))
  {}

  // ----- Runs of whole requests -----

  /** Each call is served on the tables the previous ones left. */
  ghost predicate Run(dbs: seq<Db>, calls: seq<Call>)
  {
    && |dbs| == |calls| + 1
    && (forall n {:trigger calls[n]} :: 0 <= n < |calls| ==>
          Callable(dbs[n], calls[n]) && dbs[n + 1] == Serve(dbs[n], calls[n]).0)
  }

  lemma {:induction false} RunKeepsInv(dbs: seq<Db>, calls: seq<Call>, n: nat)
    requires Run(dbs, calls) && SerialInv(dbs[0]) && n <= |calls|
    ensures SerialInv(dbs[n])
  {
    if n > 0 {
      RunKeepsInv(dbs, calls, n - 1);
      ServeKeepsInv(dbs[n - 1], calls[n - 1]);
    }
  }

  /** Ids are never used twice, so a row that disappears does not come back. */
  lemma ServeUsesFreshIds(db: Db, call: Call)
    requires KeysAreOld(db) && Callable(db, call)
    ensures db.nextId <= Serve(db, call).0.nextId
    ensures forall i :: i in Serve(db, call).0.invites && i < db.nextId ==> i in db.invites
  {}

  /** Once handled, an invite keeps its status for as long as its row exists. */
  lemma {:induction false} HandledInvitesStayHandled(dbs: seq<Db>, calls: seq<Call>, n: nat, m: nat, i: Id)
    requires Run(dbs, calls) && SerialInv(dbs[0]) && n <= m <= |calls|
    requires i in dbs[n].invites && dbs[n].invites[i].status != Pending && i in dbs[m].invites
    ensures dbs[m].invites[i] == dbs[n].invites[i]
    decreases m
  {
    if n < m {
      HandledStepBack(dbs, calls, n, m, i);
      HandledInvitesStayHandled(dbs, calls, n, m - 1, i);
    }
  }

  /** A row that is there after a request was there before it, and a final status has not moved. */
  lemma HandledStepBack(dbs: seq<Db>, calls: seq<Call>, n: nat, m: nat, i: Id)
    requires Run(dbs, calls) && SerialInv(dbs[0]) && n < m <= |calls|
    requires i in dbs[n].invites && i in dbs[m].invites
    ensures i in dbs[m - 1].invites
    ensures dbs[m - 1].invites[i].status != Pending ==> dbs[m].invites[i] == dbs[m - 1].invites[i]
  {
    assert i < dbs[m - 1].nextId by {
      RunKeepsInv(dbs, calls, n);
      RunIdsGrow(dbs, calls, n, m - 1);
    }
    assert SerialInv(dbs[m - 1]) by {
      RunKeepsInv(dbs, calls, m - 1);
    }
    HandledOnce(dbs[m - 1], calls[m - 1], i);
  }

  lemma HandledOnce(db: Db, call: Call, i: Id)
    requires SerialInv(db) && Callable(db, call) && i < db.nextId && i in Serve(db, call).0.invites
    ensures i in db.invites
    ensures db.invites[i].status != Pending ==> Serve(db, call).0.invites[i] == db.invites[i]
  {
    ServeUsesFreshIds(db, call);
    ServeKeepsInv(db, call);
  }

  lemma {:induction false} RunIdsGrow(dbs: seq<Db>, calls: seq<Call>, n: nat, m: nat)
    requires Run(dbs, calls) && SerialInv(dbs[0]) && n <= m <= |calls|
    ensures dbs[n].nextId <= dbs[m].nextId
    decreases m
  {
    if n < m {
      RunIdsGrow(dbs, calls, n, m - 1);
      RunKeepsInv(dbs, calls, m - 1);
      ServeUsesFreshIds(dbs[m - 1], calls[m - 1]);
    }
  }

  // ----- What one request undoes -----

  lemma NothingToCancel(db: Db, userId: Id)
    requires PendingFrom(db.invites, userId) == {}
    ensures CancelPendingFrom(db.invites, userId) == db.invites
  {}

  /** What a first invite adds. */
  lemma FirstInvite(db: Db, userId: Id, email: string)
    requires KeysAreOld(db) && PendingFrom(db.invites, userId) == {}
    requires SendInvite(db, userId, email).1 == Done
    ensures var sent := SendInvite(db, userId, email).0;
            var invite := Invite(db.nextId, userId, Some(db.emails[email]), Pending);
            && sent == db.(couples := db.couples[db.nextId := PendingCouple],
                           invites := db.invites[db.nextId + 1 := invite],
                           nextId := db.nextId + 2)
            && PendingFrom(sent.invites, userId) == {db.nextId + 1}
  {}

  /** Dropping a couple that was just added with its one invite. */
  lemma DropUndoesSend(db: Db, sent: Db, invite: Invite)
    requires KeysAreOld(db)
    requires forall m :: m in db.members ==> db.members[m].coupleId in db.couples
    requires forall i :: i in db.invites ==> db.invites[i].coupleId in db.couples
    requires invite.coupleId == db.nextId
    requires sent == db.(couples := db.couples[db.nextId := PendingCouple],
                         invites := db.invites[db.nextId + 1 := invite],
                         nextId := db.nextId + 2)
    ensures DropCouple(sent, db.nextId) == db.(nextId := sent.nextId)
  {}

  lemma CouplesExist(db: Db)
    requires SerialInv(db)
    ensures KeysAreOld(db)
    ensures forall m :: m in db.members ==> db.members[m].coupleId in db.couples
    ensures forall i :: i in db.invites ==> db.invites[i].coupleId in db.couples
  {}

  /** Taking a first invite back leaves the tables as they were, apart from the ids used up. */
  lemma CancelUndoesSend(db: Db, userId: Id, email: string)
    requires SerialInv(db) && PendingFrom(db.invites, userId) == {}
    requires SendInvite(db, userId, email).1 == Done
    ensures var sent := SendInvite(db, userId, email).0;
            && PendingFrom(sent.invites, userId) == {db.nextId + 1}
            && CancelInvite(sent, userId, db.nextId + 1) == (db.(nextId := sent.nextId), Done)
  {
    CouplesExist(db);
    hide SerialInv, CancelPendingFrom, IsMember;
    var sent := SendInvite(db, userId, email).0;
    FirstInvite(db, userId, email);
    DropUndoesSend(db, sent, sent.invites[db.nextId + 1]);
    MarkedInviteIsDropped(sent, db.nextId + 1, Canceled);
  }

  /** So does the invitee's refusal: no row remembers a declined invite. */
  lemma DeclineUndoesSend(db: Db, userId: Id, email: string)
    requires SerialInv(db) && PendingFrom(db.invites, userId) == {}
    requires SendInvite(db, userId, email).1 == Done
    ensures var sent := SendInvite(db, userId, email).0;
            DeclineInvite(sent, db.nextId + 1, db.emails[email]) == (db.(nextId := sent.nextId), Done)
  {
    CouplesExist(db);
    hide SerialInv, CancelPendingFrom, IsMember;
    var sent := SendInvite(db, userId, email).0;
    FirstInvite(db, userId, email);
    DropUndoesSend(db, sent, sent.invites[db.nextId + 1]);
    MarkedInviteIsDropped(sent, db.nextId + 1, Declined);
  }

  /** A refused or withdrawn invite is gone at once, so no table ever shows it DECLINED. */
  lemma DeclineLeavesNoRow(db: Db, inviteId: Id, userId: Id)
    requires SerialInv(db) && DeclineInvite(db, inviteId, userId).1 == Done
    ensures inviteId !in DeclineInvite(db, inviteId, userId).0.invites
    ensures db.invites[inviteId].coupleId !in DeclineInvite(db, inviteId, userId).0.couples
  {
    MarkedInviteIsDropped(db, inviteId, Declined);
  }

  /** Breaking up right after acceptance frees both users; their other invites stay canceled. */
  lemma BreakUpUndoesAccept(db: Db, inviteId: Id, userId: Id, leaver: Id)
    requires SerialInv(db) && AcceptInvite(db, inviteId, userId).1 == Done
    requires leaver == userId || leaver == db.invites[inviteId].inviterUserId
    ensures var invite, accepted := db.invites[inviteId], AcceptInvite(db, inviteId, userId).0;
            var (after, outcome) := BreakUp(accepted, invite.coupleId, leaver);
            && outcome == Done
            && after.members == db.members
            && after.couples == db.couples - {invite.coupleId}
            && after.invites == accepted.invites - {inviteId}
  {
    var invite, accepted := db.invites[inviteId], AcceptInvite(db, inviteId, userId).0;
    AcceptDone(db, inviteId, userId);
    AcceptedCoupleWasPending(db, accepted, inviteId, invite.coupleId, invite.inviterUserId, userId);
    AcceptKeepsInvites(db, accepted, inviteId, invite.coupleId, invite.inviterUserId, userId);
    DropUndoesAccept(db, accepted, inviteId, invite.coupleId, invite.inviterUserId, userId);
    assert accepted.members[db.nextId].userId == leaver || accepted.members[db.nextId + 1].userId == leaver;
  }

  lemma DropUndoesAccept(db: Db, after: Db, inviteId: Id, coupleId: Id, inviter: Id, userId: Id)
    requires KeysAreOld(db) && AcceptEffect(db, after, inviteId, coupleId, inviter, userId)
    requires InvitesOwnCouples(after) && after.invites[inviteId].coupleId == coupleId
    requires forall m :: m in db.members ==> db.members[m].coupleId != coupleId
    ensures MembersOutside(after.members, coupleId) == db.members
    ensures InvitesOutside(after.invites, coupleId) == after.invites - {inviteId}
    ensures after.couples - {coupleId} == db.couples - {coupleId}
  {}
}
