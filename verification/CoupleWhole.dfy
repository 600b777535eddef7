/**
  What each couple consists of, and which invite belongs to it, in every interleaving.  An ACTIVE
  couple always has its invite and is exactly its inviter and invitee.  A PENDING couple lacks an
  invite exactly where a send is about to add it or was stopped there.
  */
module CoupleWhole {
  import opened Common
  import opened CoupleTables
  import opened CoupleInterleaving
  import opened CoupleRequests
  import opened CoupleInvites
  import opened CoupleOverlap

  // ----- Couples without an invite -----

  predicate Attaches(r: Request, c: Id)
  {
    r.SendCreateInvite? && r.coupleId == c
  }

  /** Some request is about to add the invite of couple c. */
  ghost predicate Attaching(s: System, c: Id)
  {
    exists t :: t in s.requests && Attaches(s.requests[t], c)
  }

  /** The couple of a send that the event stops just before its last statement. */
  function StoppedBy(s: System, e: Event): set<Id>
  {
    if e.Crash? && e.tid in s.requests && s.requests[e.tid].SendCreateInvite? then {s.requests[e.tid].coupleId} else {}
  }

  /** The couples that had no invite to begin with, and those of sends stopped since. */
  ghost function Forsaken(s: System, events: seq<Event>, n: nat): set<Id>
    requires n <= |events|
  {
    if n == 0 then set c | c in s.db.couples && !HasInvite(s.db, c) && !Attaching(s, c)
    else Forsaken(s, events, n - 1) + StoppedBy(After(s, events, n - 1), events[n - 1])
  }

  /** Nobody will add an invite to this couple, and nobody can accept one. */
  ghost predicate IsForsaken(s: System, c: Id)
  {
    && c < s.db.nextId && (forall i :: i in s.db.invites ==> s.db.invites[i].coupleId != c)
    && (forall t :: t in s.requests ==> !Attaches(s.requests[t], c))
    && (c in s.db.couples ==> s.db.couples[c] == PendingCouple)
  }

  /** A send that has found its user. */
  ghost predicate SenderExists(db: Db, r: Request)
  {
    Sender(r).Some? && !r.SendFindMe? ==> Sender(r).value in db.users
  }

  ghost predicate Accounted(s: System, lost: set<Id>)
  {
    && (forall c :: c in s.db.couples ==> HasInvite(s.db, c) || Attaching(s, c) || c in lost)
    && (forall c :: c in lost ==> IsForsaken(s, c))
    && (forall t :: t in s.requests ==> SenderExists(s.db, s.requests[t]))
  }

  /** What a statement does to couples and to the invites they have. */
  ghost predicate CarriesInvites(db: Db, r: Request, after: Db)
  {
    && after.users == db.users && db.nextId <= after.nextId
    && (forall i :: i in db.invites && db.invites[i].coupleId in after.couples ==>
          i in after.invites && after.invites[i].coupleId == db.invites[i].coupleId)
    && (forall c :: c in after.couples && c !in db.couples ==> r.SendCreateCouple? && c == db.nextId)
  }

  lemma StepCarriesInvites(db: Db, r: Request, pick: Id)
    requires KeysAreOld(db)
    ensures CarriesInvites(db, r, Step(db, r, pick).0)
  {
    hide IsMember, IsMemberOf;
    if r.AcceptCommit? {
      var after := AcceptTransaction(db, r.inviteId, r.coupleId, r.inviter, r.userId);
      if after.Some? {
        AcceptHasEffect(db, after.value, r.inviteId, r.coupleId, r.inviter, r.userId);
      }
      hide AcceptTransaction;
    }
  }

  lemma StepKeepsSender(db: Db, r: Request, pick: Id)
    requires SenderExists(db, r)
    ensures SenderExists(db, Step(db, r, pick).1)
    ensures r.SendCreateInvite? && r.coupleId in Step(db, r, pick).0.couples ==>
              HasInvite(Step(db, r, pick).0, r.coupleId)
    ensures r.SendCreateCouple? ==> Attaches(Step(db, r, pick).1, db.nextId)
    ensures forall c :: Attaches(Step(db, r, pick).1, c) ==> c == db.nextId
  {
    hide IsMember, IsMemberOf, AcceptTransaction, DropCouple, DeleteCouple, CancelPendingFrom;
    if r.SendCreateInvite? && r.coupleId in db.couples {
      assert Step(db, r, pick).0.invites[db.nextId].coupleId == r.coupleId;
    }
  }

  /** A couple after a statement has an invite, a request about to add one, or is given up on. */
  lemma CoupleStaysAccounted(s: System, tid: nat, pick: Id, lost: set<Id>, c: Id)
    requires SystemInv(s) && Accounted(s, lost) && tid in s.requests
    requires c in Apply(s, Advance(tid, pick)).db.couples
    ensures var after := Apply(s, Advance(tid, pick)); HasInvite(after.db, c) || Attaching(after, c) || c in lost
  {
    var r, after := s.requests[tid], Apply(s, Advance(tid, pick));
    StepCarriesInvites(s.db, r, pick);
    assert SenderExists(s.db, r);
    StepKeepsSender(s.db, r, pick);
    hide Step, SystemInv, SenderExists, IsForsaken;
    if c !in s.db.couples {
      assert Attaches(after.requests[tid], c);
    } else if HasInvite(s.db, c) {
      var i :| i in s.db.invites && s.db.invites[i].coupleId == c;
      assert after.db.invites[i].coupleId == c;
    } else if Attaching(s, c) {
      var t :| t in s.requests && Attaches(s.requests[t], c);
      assert t != tid ==> Attaches(after.requests[t], c);
    }
  }

  lemma ForsakenStays(s: System, tid: nat, pick: Id, c: Id)
    requires SystemInv(s) && IsForsaken(s, c) && tid in s.requests && SenderExists(s.db, s.requests[tid])
    ensures IsForsaken(Apply(s, Advance(tid, pick)), c)
  {
    var r := s.requests[tid];
    assert Knows(s.db, r);
    StepLeavesAlone(s.db, r, pick, c);
    StepCarriesInvites(s.db, r, pick);
    StepKeepsSender(s.db, r, pick);
    hide Step, SystemInv, SenderExists;
  }

  lemma AdvanceStaysAccounted(s: System, tid: nat, pick: Id, lost: set<Id>)
    requires SystemInv(s) && Accounted(s, lost) && tid in s.requests
    ensures Accounted(Apply(s, Advance(tid, pick)), lost)
  {
    var r, after := s.requests[tid], Apply(s, Advance(tid, pick));
    StepCarriesInvites(s.db, r, pick);
    assert SenderExists(s.db, r);
    StepKeepsSender(s.db, r, pick);
    hide Step, SystemInv, IsForsaken;
    forall c | c in after.db.couples
      ensures HasInvite(after.db, c) || Attaching(after, c) || c in lost
    {
      CoupleStaysAccounted(s, tid, pick, lost, c);
    }
    forall c | c in lost
      ensures IsForsaken(after, c)
    {
      ForsakenStays(s, tid, pick, c);
    }
  }

  lemma CrashStaysAccounted(s: System, tid: nat, lost: set<Id>)
    requires SystemInv(s) && Accounted(s, lost) && tid in s.requests
    ensures Accounted(Apply(s, Crash(tid)), lost + StoppedBy(s, Crash(tid)))
  {
    var after := Apply(s, Crash(tid));
    assert Knows(s.db, s.requests[tid]);
    forall c | c in s.db.couples && Attaching(s, c)
      ensures Attaching(after, c) || c in StoppedBy(s, Crash(tid))
    {
      var t :| t in s.requests && Attaches(s.requests[t], c);
      assert t != tid ==> Attaches(after.requests[t], c);
    }
    forall c | c in StoppedBy(s, Crash(tid))
      ensures IsForsaken(after, c)
    {
      assert forall t :: t in s.requests && t != tid ==> Disjoint(s.requests[tid], s.requests[t]);
    }
  }

  lemma ArriveStaysAccounted(s: System, tid: nat, call: Request, lost: set<Id>)
    requires SystemInv(s) && Accounted(s, lost)
    ensures Accounted(Apply(s, Arrive(tid, call)), lost)
  {
    var after := Apply(s, Arrive(tid, call));
    forall c | c in s.db.couples && Attaching(s, c)
      ensures Attaching(after, c)
    {
      var t :| t in s.requests && Attaches(s.requests[t], c);
      assert Attaches(after.requests[t], c);
    }
  }

  /** Every ACTIVE couple has an invite, and sends in flight are those of users. */
  ghost predicate Begins(s: System)
  {
    && SystemInv(s) && (forall t :: t in s.requests ==> SenderExists(s.db, s.requests[t]))
    && (forall c :: c in s.db.couples && s.db.couples[c] == ActiveCouple ==> HasInvite(s.db, c))
  }

  lemma BeginsAccounted(s: System, events: seq<Event>)
    requires Begins(s)
    ensures Accounted(s, Forsaken(s, events, 0))
  {
    assert forall c, i :: c in Forsaken(s, events, 0) && i in s.db.invites && s.db.invites[i].coupleId == c ==>
                            HasInvite(s.db, c);
    assert forall c, t :: c in Forsaken(s, events, 0) && t in s.requests && Attaches(s.requests[t], c) ==>
                            Attaching(s, c);
  }

  lemma SystemInvAfter(s: System, events: seq<Event>, n: nat)
    requires SystemInv(s) && n <= |events|
    ensures SystemInv(After(s, events, n))
  {
    MembershipAlways(s, events[..n]);
  }

  lemma {:induction false} CouplesAreAccounted(s: System, events: seq<Event>, n: nat)
    requires Begins(s) && n <= |events|
    ensures Accounted(After(s, events, n), Forsaken(s, events, n))
  {
    hide SystemInv, Accounted, After, Apply;
    if n == 0 {
      BeginsAccounted(s, events);
      NoneYet(s, events);
    } else {
      CouplesAreAccounted(s, events, n - 1);
      SystemInvAfter(s, events, n - 1);
      AfterStep(s, events, n - 1);
      var before, lost := After(s, events, n - 1), Forsaken(s, events, n - 1);
      assert !events[n - 1].Crash? ==> lost + StoppedBy(before, events[n - 1]) == lost;
      match events[n - 1]
      case Arrive(tid, call) => ArriveStaysAccounted(before, tid, call, lost);
      case Advance(tid, pick) => AdvanceOrWait(before, tid, pick, lost);
      case Crash(tid) => CrashOrWait(before, tid, lost);
    }
  }

  lemma NoneYet(s: System, events: seq<Event>)
    ensures After(s, events, 0) == s
  {}

  lemma AdvanceOrWait(s: System, tid: nat, pick: Id, lost: set<Id>)
    requires SystemInv(s) && Accounted(s, lost)
    ensures Accounted(Apply(s, Advance(tid, pick)), lost)
  {
    hide Accounted, SystemInv, Step;
    if tid in s.requests {
      AdvanceStaysAccounted(s, tid, pick, lost);
    }
  }

  lemma CrashOrWait(s: System, tid: nat, lost: set<Id>)
    requires SystemInv(s) && Accounted(s, lost)
    ensures Accounted(Apply(s, Crash(tid)), lost + StoppedBy(s, Crash(tid)))
  {
    hide Accounted, SystemInv;
    if tid in s.requests {
      CrashStaysAccounted(s, tid, lost);
    } else {
      assert lost + StoppedBy(s, Crash(tid)) == lost;
    }
  }

  /**
    In every interleaving, requests stopping anywhere: a couple has no invite if and only if a
    send is about to add it, was stopped just before adding it, or the couple had none to begin
    with; and such a couple is PENDING.
    */
  lemma InviteIsMissingIff(s: System, events: seq<Event>, n: nat, c: Id)
    requires Begins(s) && n <= |events| && c in After(s, events, n).db.couples
    ensures var now := After(s, events, n);
            && (!HasInvite(now.db, c) <==> Attaching(now, c) || c in Forsaken(s, events, n))
            && (now.db.couples[c] == ActiveCouple ==> HasInvite(now.db, c))
  {
    CouplesAreAccounted(s, events, n);
    SystemInvAfter(s, events, n);
    var now := After(s, events, n);
    hide After, Forsaken, Membership;
    if Attaching(now, c) {
      var t :| t in now.requests && Attaches(now.requests[t], c);
      assert Knows(now.db, now.requests[t]);
    }
  }

  /** Couple c consists of the inviter of its one invite i, as owner in row o, and the invitee in row m. */
  ghost predicate JoinsItsTwo(db: Db, c: Id, i: Id, o: Id, m: Id)
  {
    && i in db.invites && db.invites[i].coupleId == c && db.invites[i].inviteeUserId.Some?
    && (forall j :: j in db.invites && db.invites[j].coupleId == c ==> j == i)
    && o in db.members && m in db.members && HasExactly(db, c, {o, m})
    && db.members[o] == MemberRow(c, db.invites[i].inviterUserId, Owner)
    && db.members[m] == MemberRow(c, db.invites[i].inviteeUserId.value, Member)
  }

  /**
    What a couple is in every interleaving.  ACTIVE: the inviter of its one invite as owner, the
    invitee as member, and nobody else.  PENDING: nobody.
    */
  lemma CoupleIsWhole(s: System, events: seq<Event>, n: nat, c: Id)
    requires Begins(s) && n <= |events| && c in After(s, events, n).db.couples
    ensures var db := After(s, events, n).db;
            if db.couples[c] == ActiveCouple then exists i, o, m :: JoinsItsTwo(db, c, i, o, m)
            else HasExactly(db, c, {})
  {
    InviteIsMissingIff(s, events, n, c);
    SystemInvAfter(s, events, n);
    var now := After(s, events, n);
    hide After, Forsaken, Knows, Membership, HasInvite;
    if now.db.couples[c] == ActiveCouple {
      ActiveIsWhole(now.db, c);
    } else {
      CoupleHasItsTwo(now.db, c);
    }
  }

  lemma ActiveIsWhole(db: Db, c: Id)
    requires Membership(db) && c in db.couples && db.couples[c] == ActiveCouple && HasInvite(db, c)
    ensures exists i, o, m :: JoinsItsTwo(db, c, i, o, m)
  {
    hide KeysAreOld, OneCoupleEach, CouplesAreComplete, InvitesNameMembers, InvitesOwnCouples, HasExactly;
    OneInviteOnly(db, c);
    var i :| i in db.invites && db.invites[i].coupleId == c;
    var o, m := SeatsOf(db, c);
    NameIn(db, i, o);
    NameIn(db, i, m);
    assert JoinsItsTwo(db, c, i, o, m);
  }

  lemma OneInviteOnly(db: Db, c: Id)
    requires Membership(db)
    ensures forall i, j :: i in db.invites && j in db.invites ==>
              db.invites[i].coupleId == c == db.invites[j].coupleId ==> i == j
  {}

  /** Interleavings can begin with any tables in which every couple has its invite. */
  lemma TablesBegin(db: Db)
    requires Membership(db) && AllInvited(db)
    ensures Begins(System(db, map[]))
  {}

  // ----- Statuses where no user is relied on twice -----

  /** An invite is ACCEPTED exactly where its couple is ACTIVE. */
  ghost predicate StatusesMatch(db: Db)
  {
    forall i :: i in db.invites && db.invites[i].coupleId in db.couples ==>
                  (db.invites[i].status == Accepted <==> db.couples[db.invites[i].coupleId] == ActiveCouple)
  }

  /** The couple's invite has been handled. */
  ghost predicate HasHandled(db: Db, c: Id)
  {
    exists i :: i in db.invites && db.invites[i].coupleId == c && !IsOpen(db.invites[i])
  }

  /** What a refusal or withdrawal knows of its couple. */
  ghost predicate KnowsCouple(db: Db, r: Request)
  {
    match r
    case DeclineMark(i, c) => i < db.nextId && c < db.nextId && (i in db.invites ==> db.invites[i].coupleId == c)
    case CancelMark(i, c) => i < db.nextId && c < db.nextId && (i in db.invites ==> db.invites[i].coupleId == c)
    case DropPending(c) =>
      c < db.nextId && (c in db.couples ==> db.couples[c] == PendingCouple && HasHandled(db, c))
    case _ => true
  }

  lemma CommitMatches(db: Db, after: Db, i: Id, c: Id, v: Id, u: Id)
    requires InvitesOwnCouples(db) && StatusesMatch(db) && RowAgrees(db, i, c, v, u)
    requires AcceptEffect(db, after, i, c, v, u)
    ensures StatusesMatch(after)
  {
    hide IsMember, Involves;
  }

  lemma MarkMatches(db: Db, i: Id, status: InviteStatus)
    requires StatusesMatch(db) && i in db.invites && IsOpen(db.invites[i]) && status != Accepted
    ensures StatusesMatch(SetStatus(db, i, status).value)
  {}

  lemma DropMatches(db: Db, c: Id)
    requires StatusesMatch(db)
    ensures StatusesMatch(DropCouple(db, c))
  {}

  lemma CreateMatches(db: Db, r: Request, pick: Id)
    requires KeysAreOld(db) && InvitesOwnCouples(db) && Knows(db, r) && StatusesMatch(db)
    requires r.SendCancelOld? || r.SendCreateCouple? || r.SendCreateInvite?
    ensures StatusesMatch(Step(db, r, pick).0)
  {}

  lemma StepMatches(db: Db, r: Request, pick: Id)
    requires KeysAreOld(db) && InvitesOwnCouples(db) && Knows(db, r) && StillTrue(db, r) && StatusesMatch(db)
    ensures StatusesMatch(Step(db, r, pick).0)
  {
    hide StatusesMatch, IsMember, IsMemberOf, AcceptTransaction, CreateInvite, DropCouple, CancelPendingFrom;
    hide KeysAreOld, InvitesOwnCouples;
    match r
    case SendCancelOld(_, _) => CreateMatches(db, r, pick);
    case SendCreateCouple(_, _) => CreateMatches(db, r, pick);
    case SendCreateInvite(_, _, _) => CreateMatches(db, r, pick);
    case AcceptCommit(i, u, c, v) =>
      if AcceptTransaction(db, i, c, v, u).Some? {
        AcceptHasEffect(db, AcceptTransaction(db, i, c, v, u).value, i, c, v, u);
        CommitMatches(db, AcceptTransaction(db, i, c, v, u).value, i, c, v, u);
      }
    case DeclineMark(i, _) =>
      if i in db.invites {
        MarkMatches(db, i, Declined);
      }
    case CancelMark(i, _) =>
      if i in db.invites {
        MarkMatches(db, i, Canceled);
      }
    case DropPending(c) => DropMatches(db, c);
    case BreakDelete(c) =>
      DropMatches(db, c);
      DeletingIsDropping(db, c);
    case _ =>
  }

  lemma OwnCoupleIsKnown(db: Db, r: Request, pick: Id)
    requires KeysAreOld(db) && InvitesOwnCouples(db) && StatusesMatch(db) && StillTrue(db, r) && KnowsCouple(db, r)
    ensures KnowsCouple(Step(db, r, pick).0, Step(db, r, pick).1)
  {
    hide IsMember, IsMemberOf, AcceptTransaction, CreateInvite, DropCouple, DeleteCouple, CancelPendingFrom;
    if (r.DeclineMark? || r.CancelMark?) && r.inviteId in db.invites {
      var after := Step(db, r, pick).0;
      assert after.invites[r.inviteId].coupleId == r.coupleId && !IsOpen(after.invites[r.inviteId]);
    }
  }

  /** What a statement leaves of a PENDING couple whose invite is handled. */
  lemma HandledStaysPending(db: Db, r: Request, pick: Id, c: Id)
    requires Membership(db) && Knows(db, r) && StillTrue(db, r)
    requires c < db.nextId && (c in db.couples ==> db.couples[c] == PendingCouple && HasHandled(db, c))
    requires StatusesAreFinal(db, Step(db, r, pick).0) && CarriesInvites(db, r, Step(db, r, pick).0)
    ensures var after := Step(db, r, pick).0;
            c in after.couples ==> after.couples[c] == PendingCouple && HasHandled(after, c)
  {
    var after := Step(db, r, pick).0;
    if c in after.couples {
      OnlyItsCommitActivates(db, r, pick, c);
      assert c in db.couples;
      hide Step;
      var i :| i in db.invites && db.invites[i].coupleId == c && !IsOpen(db.invites[i]);
      assert i in after.invites && after.invites[i] == db.invites[i];
      hide Membership, Knows, StillTrue;
    }
  }

  lemma OnlyItsCommitActivates(db: Db, r: Request, pick: Id, c: Id)
    requires InvitesOwnCouples(db) && Knows(db, r) && StillTrue(db, r) && HasHandled(db, c)
    requires KeysAreOld(db) && c in db.couples && c in Step(db, r, pick).0.couples
    ensures Step(db, r, pick).0.couples[c] == db.couples[c]
  {
    hide IsMember, IsMemberOf, CancelPendingFrom;
    if r.AcceptCommit? && r.inviteId in db.invites {
      var i :| i in db.invites && db.invites[i].coupleId == c && !IsOpen(db.invites[i]);
      assert r.coupleId != c;
    }
  }

  lemma OthersKnowCouples(db: Db, r: Request, pick: Id, q: Request)
    requires Membership(db) && Knows(db, r) && StillTrue(db, r) && KnowsCouple(db, q)
    requires StatusesAreFinal(db, Step(db, r, pick).0)
    ensures KnowsCouple(Step(db, r, pick).0, q)
  {
    StepEvolves(db, r, pick);
    StepCarriesInvites(db, r, pick);
    if q.DropPending? {
      HandledStaysPending(db, r, pick, q.coupleId);
    }
    hide Step, Membership, Knows, StillTrue, StatusesAreFinal;
  }

  /** Statuses and couples agree, and so do those that refusals and withdrawals know. */
  ghost predicate Matched(s: System)
  {
    StatusesMatch(s.db) && forall t :: t in s.requests ==> KnowsCouple(s.db, s.requests[t])
  }

  lemma AdvanceKeepsMatched(s: System, tid: nat, pick: Id)
    requires AllTrue(s) && UsersApart(s) && Matched(s) && tid in s.requests
    ensures Matched(Apply(s, Advance(tid, pick)))
  {
    var r := s.requests[tid];
    var (after, next) := Step(s.db, r, pick);
    assert Knows(s.db, r) && StillTrue(s.db, r) && KnowsCouple(s.db, r);
    AdvanceKeepsAllTrue(s, tid, pick);
    StepMatches(s.db, r, pick);
    OwnCoupleIsKnown(s.db, r, pick);
    hide Step, StatusesAreFinal, StatusesMatch, Membership, Knows, StillTrue, KnowsCouple, Rules, UsersApart;
    forall u | u in s.requests && u != tid
      ensures KnowsCouple(after, s.requests[u])
    {
      OthersKnowCouples(s.db, r, pick, s.requests[u]);
    }
  }

  lemma ApplyKeepsMatched(s: System, e: Event)
    requires AllTrue(s) && UsersApart(s) && Matched(s)
    ensures Matched(Apply(s, e))
  {
    if e.Advance? && e.tid in s.requests {
      AdvanceKeepsMatched(s, e.tid, e.pick);
    } else {
      hide StatusesMatch, Step;
    }
  }

  /**
    In every interleaving in which no user is relied on by two requests at once, an invite is
    ACCEPTED exactly where its couple is ACTIVE, and no refusal or withdrawal deletes an ACTIVE
    couple.
    */
  lemma {:induction false} StatusesMatchIfUsersApart(s: System, events: seq<Event>, n: nat)
    requires AllTrue(s) && Matched(s) && n <= |events|
    requires forall k {:trigger After(s, events, k)} :: 0 <= k < n ==> UsersApart(After(s, events, k))
    ensures Matched(After(s, events, n))
  {
    hide AllTrue, UsersApart, Apply, Matched;
    if n == 0 {
      assert events[..0] == [];
    } else {
      StatusesMatchIfUsersApart(s, events, n - 1);
      RulesHoldIfUsersApart(s, events, n - 1);
      AfterStep(s, events, n - 1);
      assert UsersApart(After(s, events, n - 1));
      hide After;
      ApplyKeepsMatched(After(s, events, n - 1), events[n - 1]);
    }
  }

  /** Whole requests can be followed by any interleaving. */
  lemma SerialTablesBegin(db: Db)
    requires SerialInv(db)
    ensures AllTrue(System(db, map[])) && Matched(System(db, map[]))
  {}

  /**
    In such an interleaving, all rules of serial runs hold if and only if no couple lacks its
    invite: no send is just about to add one, was stopped there, or found one missing.
    */
  lemma SerialRulesIff(s: System, events: seq<Event>, n: nat)
    requires AllTrue(s) && Matched(s) && Begins(s) && n <= |events|
    requires forall k {:trigger After(s, events, k)} :: 0 <= k < n ==> UsersApart(After(s, events, k))
    ensures var now := After(s, events, n);
            SerialInv(now.db) <==>
              forall c :: c in now.db.couples ==> !Attaching(now, c) && c !in Forsaken(s, events, n)
  {
    var now := After(s, events, n);
    RulesHoldIfUsersApart(s, events, n);
    StatusesMatchIfUsersApart(s, events, n);
    forall c | c in now.db.couples
      ensures !HasInvite(now.db, c) <==> Attaching(now, c) || c in Forsaken(s, events, n)
      ensures now.db.couples[c] == ActiveCouple ==> HasInvite(now.db, c)
    {
      InviteIsMissingIff(s, events, n, c);
    }
    hide After, Begins, UsersApart, Attaching, Forsaken, StillTrue, KnowsCouple, Knows;
    MirrorIffInvited(now.db);
  }

  lemma MirrorIffInvited(db: Db)
    requires InvitesOwnCouples(db) && StatusesMatch(db)
    ensures InvitesMirrorCouples(db) <==>
              forall c :: c in db.couples && db.couples[c] == PendingCouple ==> HasInvite(db, c)
  {}
}
