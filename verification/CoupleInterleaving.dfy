/**
  Couple requests running at the same time.  Every awaited statement is one step, steps of
  different requests interleave freely, and a request may stop for good at any statement.
  */
module CoupleInterleaving {
  import opened Common
  import opened CoupleTables

  /** How a request ends: done, or the exception it raises. */
  datatype Outcome =
    | Done
    | UserNotFound | InviteeNotFound | SelfInvite | AlreadyCoupled | InviteeCoupled
    | InviteNotFound | NotYourInvite | AlreadyHandled | InviterCoupled
    | NotAMember | StatementFailed

  /** A request and how far it has got; each constructor names the next statement. */
  datatype Request =
    | SendFindMe(userId: Id, email: string)
    | SendFindInvitee(userId: Id, email: string)
    | SendCheckMe(userId: Id, invitee: Id)
    | SendCheckInvitee(userId: Id, invitee: Id)
    | SendCancelOld(userId: Id, invitee: Id)
    | SendCreateCouple(userId: Id, invitee: Id)
    | SendCreateInvite(userId: Id, invitee: Id, coupleId: Id)
    | AcceptFind(inviteId: Id, userId: Id)
    | AcceptCheckMe(inviteId: Id, userId: Id, coupleId: Id, inviter: Id)
    | AcceptCheckInviter(inviteId: Id, userId: Id, coupleId: Id, inviter: Id)
    | AcceptCommit(inviteId: Id, userId: Id, coupleId: Id, inviter: Id)
    | DeclineFind(inviteId: Id, userId: Id)
    | DeclineMark(inviteId: Id, coupleId: Id)
    | CancelFind(userId: Id)
    | CancelMark(inviteId: Id, coupleId: Id)
    | DropPending(coupleId: Id)
    | BreakCheck(coupleId: Id, userId: Id)
    | BreakListPhotos(coupleId: Id)
    | BreakDelete(coupleId: Id)
    | Ended(outcome: Outcome)

  predicate IsCall(r: Request)
  {
    r.SendFindMe? || r.AcceptFind? || r.DeclineFind? || r.CancelFind? || r.BreakCheck?
  }

  /**
    Run the next statement of a request.  `pick` is the row an unordered "find first" returns;
    a pick that is not among the candidates leaves the request waiting.
    */
  function Step(db: Db, r: Request, pick: Id): (Db, Request)
  {
    match r
    case SendFindMe(userId, email) =>
      if userId !in db.users then (db, Ended(UserNotFound)) else (db, SendFindInvitee(userId, email))
    case SendFindInvitee(userId, email) =>
      if email !in db.emails then (db, Ended(InviteeNotFound))
      else if db.emails[email] == userId then (db, Ended(SelfInvite))
      else (db, SendCheckMe(userId, db.emails[email]))
    case SendCheckMe(userId, invitee) =>
      if IsMember(db.members, userId) then (db, Ended(AlreadyCoupled)) else (db, SendCheckInvitee(userId, invitee))
    case SendCheckInvitee(userId, invitee) =>
      if IsMember(db.members, invitee) then (db, Ended(InviteeCoupled)) else (db, SendCancelOld(userId, invitee))
    case SendCancelOld(userId, invitee) =>
      (db.(invites := CancelPendingFrom(db.invites, userId)), SendCreateCouple(userId, invitee))
    case SendCreateCouple(userId, invitee) =>
      (CreateCouple(db), SendCreateInvite(userId, invitee, db.nextId))
    case SendCreateInvite(userId, invitee, coupleId) =>
      (match CreateInvite(db, coupleId, userId, invitee)
       case Some(after) => (after, Ended(Done))
       case None => (db, Ended(StatementFailed)))
    case AcceptFind(inviteId, userId) =>
      if inviteId !in db.invites then (db, Ended(InviteNotFound))
      else
        var invite := db.invites[inviteId];
        if invite.inviteeUserId != Some(userId) then (db, Ended(NotYourInvite))
        else if invite.status != Pending then (db, Ended(AlreadyHandled))
        else (db, AcceptCheckMe(inviteId, userId, invite.coupleId, invite.inviterUserId))
    case AcceptCheckMe(inviteId, userId, coupleId, inviter) =>
      if IsMember(db.members, userId) then (db, Ended(AlreadyCoupled))
      else (db, AcceptCheckInviter(inviteId, userId, coupleId, inviter))
    case AcceptCheckInviter(inviteId, userId, coupleId, inviter) =>
      if IsMember(db.members, inviter) then (db, Ended(InviterCoupled))
      else (db, AcceptCommit(inviteId, userId, coupleId, inviter))
    case AcceptCommit(inviteId, userId, coupleId, inviter) =>
      (match AcceptTransaction(db, inviteId, coupleId, inviter, userId)
       case Some(after) => (after, Ended(Done))
       case None => (db, Ended(StatementFailed)))
    case DeclineFind(inviteId, userId) =>
      if inviteId !in db.invites then (db, Ended(InviteNotFound))
      else
        var invite := db.invites[inviteId];
        if invite.inviteeUserId != Some(userId) then (db, Ended(NotYourInvite))
        else if invite.status != Pending then (db, Ended(AlreadyHandled))
        else (db, DeclineMark(inviteId, invite.coupleId))
    case DeclineMark(inviteId, coupleId) =>
      (match SetStatus(db, inviteId, Declined)
       case Some(after) => (after, DropPending(coupleId))
       case None => (db, Ended(StatementFailed)))
    case CancelFind(userId) =>
      var sent := PendingFrom(db.invites, userId);
      if sent == {} then (db, Ended(Done))
      else if pick in sent then (db, CancelMark(pick, db.invites[pick].coupleId))
      else (db, r)
    case CancelMark(inviteId, coupleId) =>
      (match SetStatus(db, inviteId, Canceled)
       case Some(after) => (after, DropPending(coupleId))
       case None => (db, Ended(StatementFailed)))
    case DropPending(coupleId) =>
      (DropCouple(db, coupleId), Ended(Done))
    case BreakCheck(coupleId, userId) =>
      if IsMemberOf(db.members, coupleId, userId) then (db, BreakListPhotos(coupleId)) else (db, Ended(NotAMember))
    case BreakListPhotos(coupleId) =>
      (db, BreakDelete(coupleId))
    case BreakDelete(coupleId) =>
      (match DeleteCouple(db, coupleId)
       case Some(after) => (after, Ended(Done))
       case None => (db, Ended(StatementFailed)))
    case Ended(_) => (db, r)
  }

  // ----- Runs -----

  datatype System = System(db: Db, requests: map<nat, Request>)

  /** A new call arrives, one request makes a step, or one request stops where it is. */
  datatype Event =
    | Arrive(tid: nat, call: Request)
    | Advance(tid: nat, pick: Id)
    | Crash(tid: nat)

  function Apply(s: System, e: Event): System
  {
    match e
    case Arrive(tid, call) =>
      if tid in s.requests || !IsCall(call) then s else s.(requests := s.requests[tid := call])
    case Advance(tid, pick) =>
      if tid !in s.requests then s
      else
        var (db, r) := Step(s.db, s.requests[tid], pick);
        System(db, s.requests[tid := r])
    case Crash(tid) =>
      if tid !in s.requests then s else s.(requests := s.requests[tid := Ended(StatementFailed)])
  }

  function Exec(s: System, events: seq<Event>): System
  {
    if events == [] then s else Apply(Exec(s, events[..|events| - 1]), events[|events| - 1])
  }

  // ----- Membership survives every interleaving -----

  /** What a request in flight has learnt and can still rely on. */
  ghost predicate Knows(db: Db, r: Request)
  {
    match r
    case SendCheckMe(userId, invitee) => userId != invitee
    case SendCheckInvitee(userId, invitee) => userId != invitee
    case SendCancelOld(userId, invitee) => userId != invitee
    case SendCreateCouple(userId, invitee) => userId != invitee
    case SendCreateInvite(userId, invitee, coupleId) =>
      && userId != invitee && coupleId < db.nextId
      && (coupleId in db.couples ==> db.couples[coupleId] == PendingCouple)
      && (forall i :: i in db.invites ==> db.invites[i].coupleId != coupleId)
    case AcceptCheckMe(inviteId, userId, coupleId, inviter) =>
      inviteId < db.nextId && RowAgrees(db, inviteId, coupleId, inviter, userId)
    case AcceptCheckInviter(inviteId, userId, coupleId, inviter) =>
      inviteId < db.nextId && RowAgrees(db, inviteId, coupleId, inviter, userId)
    case AcceptCommit(inviteId, userId, coupleId, inviter) =>
      inviteId < db.nextId && RowAgrees(db, inviteId, coupleId, inviter, userId)
    case _ => true
  }

  /** No two requests are about to attach an invite to one couple. */
  ghost predicate Disjoint(r: Request, q: Request)
  {
    r.SendCreateInvite? && q.SendCreateInvite? ==> r.coupleId != q.coupleId
  }

  ghost predicate SystemInv(s: System)
  {
    && Membership(s.db)
    && (forall t :: t in s.requests ==> Knows(s.db, s.requests[t]))
    && (forall t, u :: t in s.requests && u in s.requests && t != u ==> Disjoint(s.requests[t], s.requests[u]))
  }

  lemma StepKeepsMembership(db: Db, r: Request, pick: Id)
    requires Membership(db) && Knows(db, r)
    ensures Membership(Step(db, r, pick).0)
  {
    match r
    case SendCancelOld(userId, _) =>
      StatusesKeepMembership(db, CancelPendingFrom(db.invites, userId));
    case SendCreateCouple(_, _) =>
      CreateCoupleKeepsMembership(db);
    case SendCreateInvite(userId, invitee, coupleId) =>
      CreateInviteKeepsMembership(db, coupleId, userId, invitee);
    case AcceptCommit(inviteId, userId, coupleId, inviter) =>
      var after := AcceptTransaction(db, inviteId, coupleId, inviter, userId);
      if after.Some? {
        AcceptKeepsMembership(db, after.value, inviteId, coupleId, inviter, userId);
      }
    case DeclineMark(inviteId, _) =>
      if inviteId in db.invites {
        MarkKeepsMembership(db, inviteId, Declined);
      }
    case CancelMark(inviteId, _) =>
      if inviteId in db.invites {
        MarkKeepsMembership(db, inviteId, Canceled);
      }
    case DropPending(coupleId) =>
      DeleteKeepsMembership(db, coupleId);
    case BreakDelete(coupleId) =>
      DeleteKeepsMembership(db, coupleId);
    case _ =>
  }

  /** How rows can change in one statement, as far as the other requests care. */
  ghost predicate Evolves(db: Db, after: Db)
  {
    && db.nextId <= after.nextId
    && (forall i :: i in after.invites && i < db.nextId ==>
                      i in db.invites && after.invites[i] == db.invites[i].(status := after.invites[i].status))
  }

  /** A couple without invites stays pending and unclaimed unless `r` itself is attaching one. */
  ghost predicate LeavesAlone(db: Db, after: Db, c: Id)
  {
    && (c in after.couples ==> c in db.couples && after.couples[c] == db.couples[c])
    && (forall i :: i in after.invites && after.invites[i].coupleId == c ==>
          i in db.invites && db.invites[i].coupleId == c)
  }

  lemma StepEvolves(db: Db, r: Request, pick: Id)
    requires KeysAreOld(db)
    ensures Evolves(db, Step(db, r, pick).0)
  {
    if r.AcceptCommit? {
      var after := AcceptTransaction(db, r.inviteId, r.coupleId, r.inviter, r.userId);
      if after.Some? {
        AcceptHasEffect(db, after.value, r.inviteId, r.coupleId, r.inviter, r.userId);
      }
    }
  }

  lemma StepKnows(db: Db, r: Request, pick: Id)
    requires KeysAreOld(db) && InvitesOwnCouples(db) && Knows(db, r)
    ensures Knows(Step(db, r, pick).0, Step(db, r, pick).1)
  {
    if r.SendCreateCouple? {
      assert forall i :: i in db.invites ==> db.invites[i].coupleId != db.nextId;
    }
  }

  lemma StepLeavesAlone(db: Db, r: Request, pick: Id, c: Id)
    requires KeysAreOld(db) && Knows(db, r)
    requires c < db.nextId && forall i :: i in db.invites ==> db.invites[i].coupleId != c
    requires r.SendCreateInvite? ==> r.coupleId != c
    ensures LeavesAlone(db, Step(db, r, pick).0, c)
  {
    if r.AcceptCommit? {
      var after := AcceptTransaction(db, r.inviteId, r.coupleId, r.inviter, r.userId);
      if after.Some? {
        AcceptHasEffect(db, after.value, r.inviteId, r.coupleId, r.inviter, r.userId);
      }
    }
  }

  lemma OthersStillKnow(db: Db, r: Request, pick: Id, q: Request)
    requires Membership(db) && Knows(db, r) && Knows(db, q) && Disjoint(r, q)
    ensures var (after, next) := Step(db, r, pick); Knows(after, q) && Disjoint(next, q)
  {
    StepEvolves(db, r, pick);
    if q.SendCreateInvite? {
      StepLeavesAlone(db, r, pick, q.coupleId);
    }
  }

  lemma ApplyKeepsInv(s: System, e: Event)
    requires SystemInv(s)
    ensures SystemInv(Apply(s, e))
  {
    if e.Advance? && e.tid in s.requests {
      var r := s.requests[e.tid];
      StepKeepsMembership(s.db, r, e.pick);
      StepKnows(s.db, r, e.pick);
      forall u | u in s.requests && u != e.tid
        ensures var (after, next) := Step(s.db, r, e.pick);
                Knows(after, s.requests[u]) && Disjoint(next, s.requests[u])
      {
        OthersStillKnow(s.db, r, e.pick, s.requests[u]);
      }
    }
  }

  /**
    Whatever the interleaving and whatever stops half-way, each user is in at most one couple,
    each ACTIVE couple has one owner and one member, who are the inviter and the invitee of any
    invite it has, and each PENDING couple has nobody.
    */
  lemma {:induction false} MembershipAlways(s: System, events: seq<Event>)
    requires SystemInv(s)
    ensures SystemInv(Exec(s, events))
  {
    if events != [] {
      MembershipAlways(s, events[..|events| - 1]);
      ApplyKeepsInv(Exec(s, events[..|events| - 1]), events[|events| - 1]);
    }
  }
}
