/**
  Invites and couples in one-to-one correspondence.  From tables of users only, every couple has
  its one invite for as long as it exists; in tables that hold older couples, no couple loses
  the invite it has.
  */
module CoupleInvites {
  import opened Common
  import opened CoupleTables
  import opened CoupleInterleaving
  import opened CoupleRequests

  /** Some invite belongs to couple c. */
  ghost predicate HasInvite(db: Db, c: Id)
  {
    exists i :: i in db.invites && db.invites[i].coupleId == c
  }

  ghost predicate AllInvited(db: Db)
  {
    forall c :: c in db.couples ==> HasInvite(db, c)
  }

  /** Every row of `db` whose couple is still there is still there, and no couple is new without an invite. */
  ghost predicate KeepsInvites(db: Db, after: Db)
  {
    && (forall i :: i in db.invites && db.invites[i].coupleId in after.couples ==>
          i in after.invites && after.invites[i].coupleId == db.invites[i].coupleId)
    && (forall c :: c in after.couples && c !in db.couples ==> HasInvite(after, c))
  }

  lemma SendKeepsInvites(db: Db, userId: Id, email: string)
    requires KeysAreOld(db)
    ensures KeepsInvites(db, SendInvite(db, userId, email).0)
  {
    var (after, outcome) := SendInvite(db, userId, email);
    if outcome == Done {
      assert after.invites[db.nextId + 1].coupleId == db.nextId;
    }
  }

  lemma EffectKeepsInvites(db: Db, after: Db, inviteId: Id, coupleId: Id, inviter: Id, userId: Id)
    requires AcceptEffect(db, after, inviteId, coupleId, inviter, userId)
    ensures KeepsInvites(db, after)
  {
    hide IsMember, Involves;
  }

  lemma AcceptKeepsInvitesToo(db: Db, inviteId: Id, userId: Id)
    ensures KeepsInvites(db, AcceptInvite(db, inviteId, userId).0)
  {
    if AcceptInvite(db, inviteId, userId).1 == Done {
      AcceptDone(db, inviteId, userId);
      hide AcceptInvite, AcceptEffect, KeepsInvites;
      var invite := db.invites[inviteId];
      EffectKeepsInvites(db, AcceptInvite(db, inviteId, userId).0, inviteId, invite.coupleId, invite.inviterUserId,
                         userId);
    }
  }

  lemma DropKeepsInvites(db: Db, coupleId: Id)
    ensures KeepsInvites(db, DropCouple(db, coupleId))
  {}

  lemma NothingKeepsInvites(db: Db)
    ensures KeepsInvites(db, db)
  {}

  lemma BreakUpDrops(db: Db, coupleId: Id, userId: Id)
    ensures BreakUp(db, coupleId, userId).0 == db || BreakUp(db, coupleId, userId).0 == DropCouple(db, coupleId)
  {}

  lemma ServeKeepsInvites(db: Db, call: Call)
    requires SerialInv(db) && Callable(db, call)
    ensures KeepsInvites(db, Serve(db, call).0)
  {
    hide SendInvite, AcceptInvite, DropCouple, KeepsInvites, IsMemberOf;
    NothingKeepsInvites(db);
    match call
    case Send(userId, email) => SendKeepsInvites(db, userId, email);
    case Accept(inviteId, userId) => AcceptKeepsInvitesToo(db, inviteId, userId);
    case Decline(inviteId, userId) =>
      if DeclineInvite(db, inviteId, userId).1 == Done {
        MarkedInviteIsDropped(db, inviteId, Declined);
        DropKeepsInvites(db, db.invites[inviteId].coupleId);
      }
    case Cancel(userId, pick) =>
      if PendingFrom(db.invites, userId) != {} {
        MarkedInviteIsDropped(db, pick, Canceled);
        DropKeepsInvites(db, db.invites[pick].coupleId);
      }
    case Break(coupleId, userId) =>
      BreakUpDrops(db, coupleId, userId);
      hide BreakUp;
      DropKeepsInvites(db, coupleId);
  }

  lemma ServeKeepsAllInvited(db: Db, call: Call)
    requires SerialInv(db) && Callable(db, call) && AllInvited(db)
    ensures AllInvited(Serve(db, call).0)
  {
    hide Serve, SerialInv;
    ServeKeepsInvites(db, call);
    var after := Serve(db, call).0;
    forall c | c in after.couples && c in db.couples
      ensures HasInvite(after, c)
    {
      assert HasInvite(db, c);
      var i :| i in db.invites && db.invites[i].coupleId == c;
      assert after.invites[i].coupleId == c;
    }
  }

  /**
    The correspondence itself: a couple has exactly one invite and an invite exactly one couple,
    and the invite is ACCEPTED exactly where the couple is ACTIVE.
    */
  ghost predicate OneToOne(db: Db)
  {
    && (forall c :: c in db.couples ==> HasInvite(db, c))
    && (forall i :: i in db.invites ==>
          && db.invites[i].coupleId in db.couples
          && (db.invites[i].status == Accepted <==> db.couples[db.invites[i].coupleId] == ActiveCouple))
    && (forall i, j :: i in db.invites && j in db.invites && db.invites[i].coupleId == db.invites[j].coupleId ==>
          i == j)
  }

  /** From tables without couples on, invites and couples correspond one to one through every run. */
  lemma {:induction false} InvitesAndCouplesCorrespond(dbs: seq<Db>, calls: seq<Call>, n: nat)
    requires Run(dbs, calls) && SerialInv(dbs[0]) && AllInvited(dbs[0]) && n <= |calls|
    ensures OneToOne(dbs[n])
  {
    RunKeepsAllInvited(dbs, calls, n);
    RunKeepsInv(dbs, calls, n);
    hide Run;
  }

  lemma {:induction false} RunKeepsAllInvited(dbs: seq<Db>, calls: seq<Call>, n: nat)
    requires Run(dbs, calls) && SerialInv(dbs[0]) && AllInvited(dbs[0]) && n <= |calls|
    ensures AllInvited(dbs[n])
  {
    hide Serve, SerialInv, AllInvited, Callable;
    if n > 0 {
      RunKeepsAllInvited(dbs, calls, n - 1);
      RunKeepsInv(dbs, calls, n - 1);
      assert dbs[n - 1 + 1] == Serve(dbs[n - 1], calls[n - 1]).0 && Callable(dbs[n - 1], calls[n - 1]);
      ServeKeepsAllInvited(dbs[n - 1], calls[n - 1]);
    }
  }

  /** A couple id that was used and is gone does not come back. */
  lemma CouplesDoNotReturn(db: Db, call: Call, c: Id)
    requires KeysAreOld(db) && Callable(db, call) && c < db.nextId && c in Serve(db, call).0.couples
    ensures c in db.couples
  {
    hide IsMember, IsMemberOf;
  }

  /** In any run, an invite is there for as long as its couple is. */
  lemma {:induction false} InviteLastsWithCouple(dbs: seq<Db>, calls: seq<Call>, n: nat, m: nat, i: Id)
    requires Run(dbs, calls) && SerialInv(dbs[0]) && n <= m <= |calls|
    requires i in dbs[n].invites && dbs[n].invites[i].coupleId in dbs[m].couples
    ensures i in dbs[m].invites && dbs[m].invites[i].coupleId == dbs[n].invites[i].coupleId
    decreases m
  {
    hide Serve, Callable, OneCoupleEach, CouplesAreComplete, InvitesNameMembers, InvitesOwnCouples, HasInvite;
    if n < m {
      var db, call, c := dbs[m - 1], calls[m - 1], dbs[n].invites[i].coupleId;
      assert dbs[m - 1 + 1] == Serve(db, call).0 && Callable(db, call);
      RunKeepsInv(dbs, calls, n);
      RunKeepsInv(dbs, calls, m - 1);
      RunIdsGrow(dbs, calls, n, m - 1);
      assert c < dbs[n].nextId;
      hide Run, OneOpenInviteEach, OpenInvitesAreFree, InvitesMirrorCouples;
      CouplesDoNotReturn(db, call, c);
      InviteLastsWithCouple(dbs, calls, n, m - 1, i);
      ServeKeepsInvites(db, call);
    }
  }

  // ----- Who may end a couple -----

  /** The couple is ACTIVE, and this user sent or accepted its invite. */
  ghost predicate IsTheirs(db: Db, coupleId: Id, userId: Id)
  {
    && coupleId in db.couples && db.couples[coupleId] == ActiveCouple
    && exists i :: i in db.invites && db.invites[i].coupleId == coupleId
                   && (db.invites[i].inviterUserId == userId || db.invites[i].inviteeUserId == Some(userId))
  }

  lemma TheirsHaveRows(db: Db, coupleId: Id, userId: Id)
    requires Membership(db) && AllInvited(db)
    ensures IsMemberOf(db.members, coupleId, userId) <==> IsTheirs(db, coupleId, userId)
  {
    if coupleId in db.couples && db.couples[coupleId] == ActiveCouple {
      assert HasInvite(db, coupleId);
      var i :| i in db.invites && db.invites[i].coupleId == coupleId;
      OnlyInvite(db, coupleId, i);
      TwoHaveRows(db, coupleId, i, userId);
      hide Membership, AllInvited, HasInvite, IsMemberOf;
    } else {
      OnlyActiveHasRows(db, coupleId);
      hide Membership, AllInvited;
    }
  }

  lemma OnlyActiveHasRows(db: Db, coupleId: Id)
    requires CouplesAreComplete(db)
    requires coupleId in db.couples ==> db.couples[coupleId] != ActiveCouple
    ensures forall m :: m in db.members ==> db.members[m].coupleId != coupleId
  {}

  lemma TwoHaveRows(db: Db, coupleId: Id, i: Id, userId: Id)
    requires Membership(db) && coupleId in db.couples && db.couples[coupleId] == ActiveCouple
    requires i in db.invites && db.invites[i].coupleId == coupleId
    ensures IsMemberOf(db.members, coupleId, userId) <==> Involves(db.invites[i], userId)
  {
    CoupleHasItsTwo(db, coupleId);
    hide Membership;
    var o, m :| o in db.members && m in db.members && HasExactly(db, coupleId, {o, m})
                && db.invites[i].inviterUserId == db.members[o].userId
                && db.invites[i].inviteeUserId == Some(db.members[m].userId);
    assert m in {o, m};
    assert o in {o, m};
  }

  lemma OnlyInvite(db: Db, coupleId: Id, i: Id)
    requires InvitesOwnCouples(db) && i in db.invites && db.invites[i].coupleId == coupleId
    ensures forall j :: j in db.invites && db.invites[j].coupleId == coupleId ==> j == i
  {}

  /**
    A couple is ended exactly by the two it consists of; anyone else is told that they are no
    member, and nothing changes.
    */
  lemma BreakUpIsForTheTwo(db: Db, coupleId: Id, userId: Id)
    requires SerialInv(db) && AllInvited(db)
    ensures var (after, outcome) := BreakUp(db, coupleId, userId);
            if IsTheirs(db, coupleId, userId) then outcome == Done && coupleId !in after.couples
            else outcome == NotAMember && after == db
  {
    TheirsHaveRows(db, coupleId, userId);
    hide SerialInv, AllInvited, IsMemberOf;
  }
}
