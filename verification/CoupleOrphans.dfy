/**
  Couples that nobody can reach: PENDING ones whose invite was canceled.  Which requests leave
  them behind, and that nothing removes them.
  */
module CoupleOrphans {
  import opened CoupleTables
  import opened CoupleInterleaving
  import opened CoupleRequests

  /** A pending couple whose invite was canceled by a later invite or acceptance. */
  ghost predicate Orphaned(db: Db, c: Id)
  {
    && c in db.couples && db.couples[c] == PendingCouple
    && exists i :: i in db.invites && db.invites[i].coupleId == c && db.invites[i].status == Canceled
  }

  /** Sending again leaves the previous pending couple behind with a canceled invite. */
  lemma ResendOrphans(db: Db, userId: Id, email: string, i: Id)
    requires SerialInv(db) && SendInvite(db, userId, email).1 == Done
    requires i in PendingFrom(db.invites, userId)
    ensures Orphaned(SendInvite(db, userId, email).0, db.invites[i].coupleId)
  {
    var after := SendInvite(db, userId, email).0;
    assert after.invites[i] == db.invites[i].(status := Canceled);
    assert db.couples[db.invites[i].coupleId] == PendingCouple;
  }

  /** Only dropping its own couple takes an invite away, and no request drops an orphan. */
  lemma OrphanOutlivesDrop(db: Db, coupleId: Id, c: Id)
    requires coupleId != c && Orphaned(db, c)
    ensures Orphaned(DropCouple(db, coupleId), c)
  {
    var i :| i in db.invites && db.invites[i].coupleId == c && db.invites[i].status == Canceled;
    assert coupleId in db.couples ==> i in DropCouple(db, coupleId).invites;
  }

  lemma OrphanOutlivesAccept(db: Db, inviteId: Id, userId: Id, c: Id)
    requires SerialInv(db) && Orphaned(db, c)
    ensures Orphaned(AcceptInvite(db, inviteId, userId).0, c)
  {
    if AcceptInvite(db, inviteId, userId).1 == Done {
      AcceptDone(db, inviteId, userId);
      var i :| i in db.invites && db.invites[i].coupleId == c && db.invites[i].status == Canceled;
      assert i in AcceptInvite(db, inviteId, userId).0.invites;
    }
  }

  lemma OrphanOutlivesSend(db: Db, userId: Id, email: string, c: Id)
    requires SerialInv(db) && Orphaned(db, c)
    ensures Orphaned(SendInvite(db, userId, email).0, c)
  {
    var i :| i in db.invites && db.invites[i].coupleId == c && db.invites[i].status == Canceled;
    assert i in SendInvite(db, userId, email).0.invites;
  }

  lemma OrphanOutlivesDecline(db: Db, inviteId: Id, userId: Id, c: Id)
    requires SerialInv(db) && Orphaned(db, c)
    ensures Orphaned(DeclineInvite(db, inviteId, userId).0, c)
  {
    if DeclineInvite(db, inviteId, userId).1 == Done {
      MarkedInviteIsDropped(db, inviteId, Declined);
      OrphanOutlivesDrop(db, db.invites[inviteId].coupleId, c);
      hide DropCouple, SetStatus;
    }
  }

  lemma OrphanOutlivesCancel(db: Db, userId: Id, pick: Id, c: Id)
    requires SerialInv(db) && Orphaned(db, c) && Callable(db, Cancel(userId, pick))
    ensures Orphaned(CancelInvite(db, userId, pick).0, c)
  {
    if PendingFrom(db.invites, userId) != {} {
      MarkedInviteIsDropped(db, pick, Canceled);
      OrphanOutlivesDrop(db, db.invites[pick].coupleId, c);
      hide DropCouple, SetStatus;
    }
  }

  lemma OrphanOutlivesBreak(db: Db, coupleId: Id, userId: Id, c: Id)
    requires SerialInv(db) && Orphaned(db, c)
    ensures Orphaned(BreakUp(db, coupleId, userId).0, c)
  {
    if IsMemberOf(db.members, coupleId, userId) {
      OrphanOutlivesDrop(db, coupleId, c);
      hide DropCouple;
    }
  }

  /** No later request removes such a couple. */
  lemma OrphansRemain(db: Db, call: Call, c: Id)
    requires SerialInv(db) && Callable(db, call) && Orphaned(db, c)
    ensures Orphaned(Serve(db, call).0, c)
  {
    hide SendInvite, AcceptInvite, DeclineInvite, CancelInvite, BreakUp, Orphaned, SerialInv;
    match call
    case Send(userId, email) => OrphanOutlivesSend(db, userId, email, c);
    case Accept(inviteId, userId) => OrphanOutlivesAccept(db, inviteId, userId, c);
    case Decline(inviteId, userId) => OrphanOutlivesDecline(db, inviteId, userId, c);
    case Cancel(userId, pick) => OrphanOutlivesCancel(db, userId, pick, c);
    case Break(coupleId, userId) => OrphanOutlivesBreak(db, coupleId, userId, c);
  }

  // ----- Which requests leave them -----

  /** The call is done and cancels open invite i: a send those of its user, an acceptance those of both users. */
  predicate Cancels(db: Db, call: Call, i: Id)
    requires Callable(db, call)
  {
    && Serve(db, call).1 == Done && i in db.invites && IsOpen(db.invites[i])
    && match call
       case Send(userId, _) => db.invites[i].inviterUserId == userId
       case Accept(k, userId) =>
         && k in db.invites && i != k
         && (Involves(db.invites[i], userId) || Involves(db.invites[i], db.invites[k].inviterUserId))
       case _ => false
  }

  lemma SendCancels(db: Db, userId: Id, email: string, i: Id)
    requires KeysAreOld(db)
    ensures var after := SendInvite(db, userId, email).0;
            i in after.invites && after.invites[i].status == Canceled <==>
              i in db.invites && (db.invites[i].status == Canceled || Cancels(db, Send(userId, email), i))
  {
    hide IsMember;
  }

  lemma AcceptCancels(db: Db, inviteId: Id, userId: Id, i: Id)
    requires KeysAreOld(db)
    ensures var after := AcceptInvite(db, inviteId, userId).0;
            i in after.invites && after.invites[i].status == Canceled <==>
              i in db.invites && (db.invites[i].status == Canceled || Cancels(db, Accept(inviteId, userId), i))
  {
    if AcceptInvite(db, inviteId, userId).1 == Done {
      AcceptDone(db, inviteId, userId);
      hide AcceptTransaction, IsMember;
    }
  }

  /** Dropping a couple cancels nothing, and leaves the rows of the others. */
  lemma DropCancels(db: Db, c: Id, i: Id)
    ensures i in DropCouple(db, c).invites ==> i in db.invites && DropCouple(db, c).invites[i] == db.invites[i]
  {}

  lemma ServeCancels(db: Db, call: Call, i: Id)
    requires SerialInv(db) && Callable(db, call) && i in Serve(db, call).0.invites
    ensures Serve(db, call).0.invites[i].status == Canceled <==>
              i in db.invites && (db.invites[i].status == Canceled || Cancels(db, call, i))
  {
    hide SendInvite, AcceptInvite, IsMemberOf, DropCouple;
    match call
    case Send(userId, email) => SendCancels(db, userId, email, i);
    case Accept(inviteId, userId) => AcceptCancels(db, inviteId, userId, i);
    case Decline(inviteId, userId) =>
      if DeclineInvite(db, inviteId, userId).1 == Done {
        MarkedInviteIsDropped(db, inviteId, Declined);
        DropCancels(db, db.invites[inviteId].coupleId, i);
      }
    case Cancel(userId, pick) =>
      if PendingFrom(db.invites, userId) != {} {
        MarkedInviteIsDropped(db, pick, Canceled);
        DropCancels(db, db.invites[pick].coupleId, i);
      }
    case Break(coupleId, userId) =>
      DropCancels(db, coupleId, i);
      BreakIsDrop(db, coupleId, userId);
  }

  lemma BreakIsDrop(db: Db, coupleId: Id, userId: Id)
    ensures BreakUp(db, coupleId, userId).0 == db || BreakUp(db, coupleId, userId).0 == DropCouple(db, coupleId)
  {}

  /** What a canceled row says of its couple, before and after. */
  lemma CanceledIsOrphan(db: Db, i: Id)
    requires SerialInv(db) && i in db.invites && db.invites[i].status == Canceled
    ensures Orphaned(db, db.invites[i].coupleId)
  {}

  /**
    After a request the orphaned couples are those before it and the couples of the invites it
    cancels.
    */
  lemma OrphansAfterIff(db: Db, call: Call, c: Id)
    requires SerialInv(db) && Callable(db, call)
    ensures Orphaned(Serve(db, call).0, c) <==>
              Orphaned(db, c) || exists i :: Cancels(db, call, i) && db.invites[i].coupleId == c
  {
    var after := Serve(db, call).0;
    ServeKeepsInv(db, call);
    hide Serve, SerialInv, Cancels;
    if Orphaned(db, c) {
      OrphansRemain(db, call, c);
    }
    if i :| Cancels(db, call, i) && db.invites[i].coupleId == c {
      CanceledRowStays(db, call, i);
      CanceledIsOrphan(after, i);
    }
    if Orphaned(after, c) {
      var i :| i in after.invites && after.invites[i].coupleId == c && after.invites[i].status == Canceled;
      ServeCancels(db, call, i);
      CoupleOfRowStays(db, call, i);
      if db.invites[i].status == Canceled {
        CanceledIsOrphan(db, i);
      }
    }
  }

  lemma CoupleOfRowStays(db: Db, call: Call, i: Id)
    requires SerialInv(db) && Callable(db, call) && i in db.invites && i in Serve(db, call).0.invites
    ensures Serve(db, call).0.invites[i].coupleId == db.invites[i].coupleId
  {
    ServeKeepsInv(db, call);
    hide Serve, SerialInv;
  }

  lemma CanceledRowStays(db: Db, call: Call, i: Id)
    requires SerialInv(db) && Callable(db, call) && Cancels(db, call, i)
    ensures var after := Serve(db, call).0;
            && i in after.invites && after.invites[i].status == Canceled
            && after.invites[i].coupleId == db.invites[i].coupleId
  {
    hide SendInvite, AcceptInvite, DeclineInvite, CancelInvite, BreakUp;
    if call.Send? {
      SendCancels(db, call.userId, call.email, i);
    } else if call.Accept? {
      AcceptCancels(db, call.inviteId, call.userId, i);
    }
    CoupleOfRowStays(db, call, i);
  }

  /** No run of requests removes such a couple. */
  lemma {:induction false} OrphansRemainForGood(dbs: seq<Db>, calls: seq<Call>, n: nat, m: nat, c: Id)
    requires Run(dbs, calls) && SerialInv(dbs[0]) && n <= m <= |calls| && Orphaned(dbs[n], c)
    ensures Orphaned(dbs[m], c)
    decreases m
  {
    hide Serve, SerialInv, Orphaned, Callable;
    if n < m {
      OrphansRemainForGood(dbs, calls, n, m - 1, c);
      RunKeepsInv(dbs, calls, m - 1);
      assert Callable(dbs[m - 1], calls[m - 1]) && dbs[m - 1 + 1] == Serve(dbs[m - 1], calls[m - 1]).0;
      OrphansRemain(dbs[m - 1], calls[m - 1], c);
    }
  }
}
