/**
  The couple service as it stands in memory of one request: tables that its methods update
  statement by statement.  Each method is proved to have the effect of the whole request, to
  keep the tables in order, and to move invites only away from PENDING.
  */
module CoupleService {
  import opened Common
  import opened CoupleTables
  import opened CoupleInterleaving
  import opened CoupleRequests
  import opened CoupleInvites

  ghost predicate InOrder(db: Db)
  {
    SerialInv(db) && AllInvited(db)
  }

  lemma ServeKeepsOrder(db: Db, call: Call)
    requires InOrder(db) && Callable(db, call)
    ensures InOrder(Serve(db, call).0) && StatusesAreFinal(db, Serve(db, call).0)
  {
    ServeKeepsInv(db, call);
    ServeKeepsAllInvited(db, call);
  }

  /** The user is in no couple. */
  ghost predicate IsFree(db: Db, userId: Id)
  {
    forall m :: m in db.members ==> db.members[m].userId != userId
  }

  ghost predicate MaySend(db: Db, userId: Id, email: string)
  {
    && userId in db.users && email in db.emails && db.emails[email] != userId
    && IsFree(db, userId) && IsFree(db, db.emails[email])
  }

  /** The row is the one it was, canceled if it was an open invite of this sender. */
  ghost predicate IsCanceledIfSentBy(was: Invite, now: Invite, userId: Id)
  {
    now == if was.inviterUserId == userId && was.status == Pending then was.(status := Canceled) else was
  }

  /** A new pending couple c with its invite i; the sender's other open invites are canceled, and that is all. */
  ghost predicate AddsInvite(db: Db, after: Db, userId: Id, invitee: Id, c: Id, i: Id)
  {
    && c !in db.couples && after.couples == db.couples[c := PendingCouple] && after.members == db.members
    && i !in db.invites && after.invites.Keys == db.invites.Keys + {i}
    && after.invites[i] == Invite(c, userId, Some(invitee), Pending)
    && forall j :: j in db.invites ==> IsCanceledIfSentBy(db.invites[j], after.invites[j], userId)
  }

  ghost predicate IsSent(db: Db, after: Db, userId: Id, invitee: Id)
  {
    exists c, i :: AddsInvite(db, after, userId, invitee, c, i)
  }

  lemma SendSends(db: Db, userId: Id, email: string)
    requires InOrder(db)
    ensures var (after, outcome) := SendInvite(db, userId, email);
            if MaySend(db, userId, email) then outcome == Done && IsSent(db, after, userId, db.emails[email])
            else outcome != Done && after == db
  {
    hide CancelPendingFrom, AddsInvite, InOrder;
    SendOnlyIf(db, userId, email);
    if MaySend(db, userId, email) {
      KeysAreOldInOrder(db);
      SendAdds(db, userId, email);
      hide SendInvite, MaySend, KeysAreOld;
      var after := SendInvite(db, userId, email).0;
      assert AddsInvite(db, after, userId, db.emails[email], db.nextId, db.nextId + 1);
    }
  }

  lemma KeysAreOldInOrder(db: Db)
    requires InOrder(db)
    ensures KeysAreOld(db)
  {
    CouplesExist(db);
  }

  lemma SendOnlyIf(db: Db, userId: Id, email: string)
    ensures var (after, outcome) := SendInvite(db, userId, email);
            (outcome == Done <==> MaySend(db, userId, email)) && (outcome != Done ==> after == db)
  {
    hide CancelPendingFrom;
  }

  lemma SendAdds(db: Db, userId: Id, email: string)
    requires KeysAreOld(db) && SendInvite(db, userId, email).1 == Done
    ensures AddsInvite(db, SendInvite(db, userId, email).0, userId, db.emails[email], db.nextId, db.nextId + 1)
  {
    hide IsMember;
  }

  /** The couple with its invites is gone, and every other couple and invite is as it was. */
  ghost predicate IsWithdrawn(db: Db, after: Db, coupleId: Id)
  {
    && after.couples == db.couples - {coupleId}
    && (forall j :: j in after.invites <==> j in db.invites && db.invites[j].coupleId != coupleId)
    && (forall j :: j in after.invites ==> after.invites[j] == db.invites[j])
    && (forall m :: m in after.members <==> m in db.members && db.members[m].coupleId != coupleId)
    && (forall m :: m in after.members ==> after.members[m] == db.members[m])
  }

  lemma DropWithdraws(db: Db, coupleId: Id)
    requires coupleId in db.couples
    ensures IsWithdrawn(db, DropCouple(db, coupleId), coupleId)
  {}

  /** An invite is refused exactly by the user it is addressed to, while it is open. */
  ghost predicate IsOpenTo(db: Db, inviteId: Id, userId: Id)
  {
    && inviteId in db.invites
    && db.invites[inviteId].inviteeUserId == Some(userId) && db.invites[inviteId].status == Pending
  }

  ghost predicate IsOpenFrom(db: Db, inviteId: Id, userId: Id)
  {
    && inviteId in db.invites
    && db.invites[inviteId].inviterUserId == userId && db.invites[inviteId].status == Pending
  }

  lemma DeclineWithdraws(db: Db, inviteId: Id, userId: Id)
    requires InOrder(db)
    ensures var (after, outcome) := DeclineInvite(db, inviteId, userId);
            if IsOpenTo(db, inviteId, userId)
            then outcome == Done && IsWithdrawn(db, after, db.invites[inviteId].coupleId)
            else outcome != Done && after == db
  {
    CouplesExist(db);
    hide InOrder, KeysAreOld, IsWithdrawn, DropCouple;
    if IsOpenTo(db, inviteId, userId) {
      MarkedInviteIsDropped(db, inviteId, Declined);
      DropWithdraws(db, db.invites[inviteId].coupleId);
    }
  }

  lemma CancelWithdraws(db: Db, userId: Id, pick: Id)
    requires InOrder(db) && pick in PendingFrom(db.invites, userId)
    ensures IsOpenFrom(db, pick, userId)
    ensures IsWithdrawn(db, CancelInvite(db, userId, pick).0, db.invites[pick].coupleId)
  {
    CouplesExist(db);
    hide InOrder, KeysAreOld, IsWithdrawn, DropCouple;
    MarkedInviteIsDropped(db, pick, Canceled);
    DropWithdraws(db, db.invites[pick].coupleId);
  }

  lemma AcceptableIffOpen(db: Db, inviteId: Id, userId: Id)
    requires InOrder(db)
    ensures AcceptInvite(db, inviteId, userId).1 == Done <==>
            && inviteId in db.invites
            && db.invites[inviteId].inviteeUserId == Some(userId) && db.invites[inviteId].status == Pending
  {
    OpenInviteIsAcceptable(db, inviteId, userId);
  }

  lemma EndableIffTheirs(db: Db, coupleId: Id, userId: Id)
    requires InOrder(db)
    ensures var (after, outcome) := CoupleRequests.BreakUp(db, coupleId, userId);
            && (outcome == Done <==> IsTheirs(db, coupleId, userId))
            && (outcome != Done ==> outcome == NotAMember && after == db)
  {
    BreakUpIsForTheTwo(db, coupleId, userId);
  }

  class CoupleService {
    var users: set<Id>
    var emails: map<string, Id>
    var couples: map<Id, CoupleStatus>
    var members: map<Id, MemberRow>
    var invites: map<Id, Invite>
    var nextId: Id

    ghost function Tables(): Db
      reads this
    {
      Db(users, emails, couples, members, invites, nextId)
    }

    /** The tables are as whole requests leave them, and invites and couples correspond one to one. */
    ghost predicate Valid()
      reads this
    {
      InOrder(Tables())
    }

    constructor (users: set<Id>, emails: map<string, Id>)
      requires emails.Values <= users
      ensures Valid() && Tables() == Db(users, emails, map[], map[], map[], 0)
    {
      this.users, this.emails := users, emails;
      couples, members, invites, nextId := map[], map[], map[], 0;
      new;
      FreshTablesAreInOrder(users, emails);
    }

    method Send(userId: Id, inviteeEmail: string) returns (outcome: Outcome)
      requires Valid()
      modifies this
      ensures (Tables(), outcome) == SendInvite(old(Tables()), userId, inviteeEmail)
      ensures if MaySend(old(Tables()), userId, inviteeEmail)
              then outcome == Done && IsSent(old(Tables()), Tables(), userId, emails[inviteeEmail])
              else outcome != Done && Tables() == old(Tables())
      ensures Valid() && StatusesAreFinal(old(Tables()), Tables())
    {
      hide InOrder, StatusesAreFinal;
      ServeKeepsOrder(Tables(), Call.Send(userId, inviteeEmail));
      SendSends(Tables(), userId, inviteeEmail);
      hide MaySend, IsSent;
      if userId !in users {
        return UserNotFound;
      }
      if inviteeEmail !in emails {
        return InviteeNotFound;
      }
      var invitee := emails[inviteeEmail];
      if invitee == userId {
        return SelfInvite;
      }
      if IsMember(members, userId) {
        return AlreadyCoupled;
      }
      if IsMember(members, invitee) {
        return InviteeCoupled;
      }
      invites := CancelPendingFrom(invites, userId);
      var coupleId := nextId;
      couples, nextId := couples[coupleId := PendingCouple], nextId + 1;
      invites := invites[nextId := Invite(coupleId, userId, Some(invitee), Pending)];
      nextId := nextId + 1;
      outcome := Done;
    }

    method Accept(inviteId: Id, userId: Id) returns (outcome: Outcome)
      requires Valid()
      modifies this
      ensures (Tables(), outcome) == AcceptInvite(old(Tables()), inviteId, userId)
      ensures Valid() && StatusesAreFinal(old(Tables()), Tables())
      ensures outcome == Done <==>
                && inviteId in old(invites)
                && old(invites)[inviteId].inviteeUserId == Some(userId) && old(invites)[inviteId].status == Pending
    {
      hide InOrder, StatusesAreFinal;
      ServeKeepsOrder(Tables(), Call.Accept(inviteId, userId));
      AcceptableIffOpen(Tables(), inviteId, userId);
      if inviteId !in invites {
        return InviteNotFound;
      }
      var invite := invites[inviteId];
      if invite.inviteeUserId != Some(userId) {
        return NotYourInvite;
      }
      if invite.status != Pending {
        return AlreadyHandled;
      }
      if IsMember(members, userId) {
        return AlreadyCoupled;
      }
      if IsMember(members, invite.inviterUserId) {
        return InviterCoupled;
      }
      // The transaction: its writes are kept only if every statement in it succeeds.
      var txInvites := invites[inviteId := invite.(status := Accepted)];
      if invite.coupleId !in couples {
        return StatementFailed;
      }
      var txCouples := couples[invite.coupleId := ActiveCouple];
      if invite.inviterUserId == userId {
        return StatementFailed;
      }
      var txMembers := members[nextId := MemberRow(invite.coupleId, invite.inviterUserId, Owner)]
                              [nextId + 1 := MemberRow(invite.coupleId, userId, Member)];
      txInvites := CancelPendingOf(txInvites, inviteId, invite.inviterUserId, userId);
      invites, couples, members, nextId := txInvites, txCouples, txMembers, nextId + 2;
      outcome := Done;
    }

    method Decline(inviteId: Id, userId: Id) returns (outcome: Outcome)
      requires Valid()
      modifies this
      ensures (Tables(), outcome) == DeclineInvite(old(Tables()), inviteId, userId)
      ensures if IsOpenTo(old(Tables()), inviteId, userId)
              then outcome == Done && IsWithdrawn(old(Tables()), Tables(), old(invites)[inviteId].coupleId)
              else outcome != Done && Tables() == old(Tables())
      ensures Valid() && StatusesAreFinal(old(Tables()), Tables())
    {
      hide InOrder, StatusesAreFinal;
      ServeKeepsOrder(Tables(), Call.Decline(inviteId, userId));
      DeclineWithdraws(Tables(), inviteId, userId);
      hide IsOpenTo, IsWithdrawn;
      if inviteId !in invites {
        return InviteNotFound;
      }
      var invite := invites[inviteId];
      if invite.inviteeUserId != Some(userId) {
        return NotYourInvite;
      }
      if invite.status != Pending {
        return AlreadyHandled;
      }
      invites := invites[inviteId := invite.(status := Declined)];
      RemoveCouple(invite.coupleId);
      outcome := Done;
    }

    method Cancel(userId: Id) returns (outcome: Outcome, ghost pick: Id)
      requires Valid()
      modifies this
      ensures PendingFrom(old(invites), userId) == {} || pick in PendingFrom(old(invites), userId)
      ensures (Tables(), outcome) == CancelInvite(old(Tables()), userId, pick)
      ensures outcome == Done
      ensures if exists i :: i in old(invites) && IsOpenFrom(old(Tables()), i, userId)
              then IsOpenFrom(old(Tables()), pick, userId)
                   && IsWithdrawn(old(Tables()), Tables(), old(invites)[pick].coupleId)
              else Tables() == old(Tables())
      ensures Valid() && StatusesAreFinal(old(Tables()), Tables())
    {
      hide InOrder, StatusesAreFinal;
      var sent := PendingFrom(invites, userId);
      pick := 0;
      if sent == {} {
        ServeKeepsOrder(Tables(), Call.Cancel(userId, pick));
        assert forall i :: i in invites && IsOpenFrom(Tables(), i, userId) ==> i in sent;
        return Done, pick;
      }
      var first :| first in sent;
      pick := first;
      ServeKeepsOrder(Tables(), Call.Cancel(userId, pick));
      CancelWithdraws(Tables(), userId, pick);
      hide IsWithdrawn, IsOpenFrom;
      var invite := invites[first];
      invites := invites[first := invite.(status := Canceled)];
      RemoveCouple(invite.coupleId);
      outcome := Done;
    }

    method BreakUp(coupleId: Id, userId: Id) returns (outcome: Outcome)
      requires Valid()
      modifies this
      ensures (Tables(), outcome) == CoupleRequests.BreakUp(old(Tables()), coupleId, userId)
      ensures outcome == Done <==>
                && coupleId in old(couples) && old(couples)[coupleId] == ActiveCouple
                && exists i :: i in old(invites) && old(invites)[i].coupleId == coupleId
                               && (old(invites)[i].inviterUserId == userId
                                   || old(invites)[i].inviteeUserId == Some(userId))
      ensures outcome != Done ==> outcome == NotAMember && Tables() == old(Tables())
      ensures Valid() && StatusesAreFinal(old(Tables()), Tables())
    {
      hide InOrder, StatusesAreFinal;
      ServeKeepsOrder(Tables(), Call.Break(coupleId, userId));
      EndableIffTheirs(Tables(), coupleId, userId);
      if !IsMemberOf(members, coupleId, userId) {
        return NotAMember;
      }
      if coupleId !in couples {
        return StatementFailed;
      }
      RemoveCouple(coupleId);
      outcome := Done;
    }

    /** Delete a couple, cascading; a missing row is not an error here. */
    method RemoveCouple(coupleId: Id)
      modifies this
      ensures Tables() == DropCouple(old(Tables()), coupleId)
    {
      if coupleId in couples {
        couples := couples - {coupleId};
        members := MembersOutside(members, coupleId);
        invites := InvitesOutside(invites, coupleId);
      }
    }
  }
}
