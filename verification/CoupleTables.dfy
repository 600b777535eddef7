/**
  The tables behind couple registration, and the single statements the service issues against
  them: unique keys, foreign keys and cascading deletes as the schema declares them.
  */
module CoupleTables {
  import opened Common

  type Id = nat

  datatype CoupleStatus = PendingCouple | ActiveCouple

  datatype Role = Owner | Member

  datatype InviteStatus = Pending | Accepted | Declined | Expired | Canceled

  datatype MemberRow = MemberRow(coupleId: Id, userId: Id, role: Role)

  datatype Invite = Invite(coupleId: Id, inviterUserId: Id, inviteeUserId: Option<Id>, status: InviteStatus)

  /** `emails` is the unique index on the users' addresses; `nextId` has never been used as a key. */
  datatype Db = Db(
    users: set<Id>,
    emails: map<string, Id>,
    couples: map<Id, CoupleStatus>,
    members: map<Id, MemberRow>,
    invites: map<Id, Invite>,
    nextId: Id
  )

  // ----- Queries -----

  predicate IsMember(members: map<Id, MemberRow>, userId: Id)
  {
    exists m :: m in members && members[m].userId == userId
  }

  predicate IsMemberOf(members: map<Id, MemberRow>, coupleId: Id, userId: Id)
  {
    exists m :: m in members && members[m].coupleId == coupleId && members[m].userId == userId
  }

  function PendingFrom(invites: map<Id, Invite>, userId: Id): set<Id>
  {
    set i | i in invites && invites[i].inviterUserId == userId && invites[i].status == Pending
  }

  // ----- Updates -----

  function Canceling(invites: map<Id, Invite>, ids: set<Id>): (r: map<Id, Invite>)
    requires ids <= invites.Keys
    ensures r.Keys == invites.Keys
    ensures forall i :: i in invites ==> r[i] == if i in ids then invites[i].(status := Canceled) else invites[i]
  {
    invites + map i | i in ids :: invites[i].(status := Canceled)
  }

  /** Update every pending invite sent by `userId` to CANCELED. */
  function CancelPendingFrom(invites: map<Id, Invite>, userId: Id): map<Id, Invite>
  {
    Canceling(invites, PendingFrom(invites, userId))
  }

  predicate Involves(invite: Invite, userId: Id)
  {
    invite.inviterUserId == userId || invite.inviteeUserId == Some(userId)
  }

  /** Update every pending invite that involves one of the two users, except `kept`, to CANCELED. */
  function CancelPendingOf(invites: map<Id, Invite>, kept: Id, x: Id, y: Id): map<Id, Invite>
  {
    Canceling(invites, set i | i in invites && i != kept && invites[i].status == Pending
                                 && (Involves(invites[i], x) || Involves(invites[i], y)))
  }

  function MembersOutside(members: map<Id, MemberRow>, coupleId: Id): map<Id, MemberRow>
  {
    members - set m | m in members && members[m].coupleId == coupleId
  }

  function InvitesOutside(invites: map<Id, Invite>, coupleId: Id): map<Id, Invite>
  {
    invites - set i | i in invites && invites[i].coupleId == coupleId
  }

  /** Delete a couple; its members and invites go with it.  None when there is no such row. */
  function DeleteCouple(db: Db, coupleId: Id): Option<Db>
  {
    if coupleId !in db.couples then None
    else Some(db.(
      couples := db.couples - {coupleId},
      members := MembersOutside(db.members, coupleId),
      invites := InvitesOutside(db.invites, coupleId)))
  }

  /** The same delete with its error swallowed. */
  function DropCouple(db: Db, coupleId: Id): Db
  {
    match DeleteCouple(db, coupleId)
    case Some(after) => after
    case None => db
  }

  /** Update the status of one invite.  None when there is no such row. */
  function SetStatus(db: Db, inviteId: Id, status: InviteStatus): Option<Db>
  {
    if inviteId !in db.invites then None
    else Some(db.(invites := db.invites[inviteId := db.invites[inviteId].(status := status)]))
  }

  /** Insert a pending couple under a fresh id. */
  function CreateCouple(db: Db): Db
  {
    db.(couples := db.couples[db.nextId := PendingCouple], nextId := db.nextId + 1)
  }

  /** Insert a pending invite under a fresh id.  None when its couple or its inviter is missing. */
  function CreateInvite(db: Db, coupleId: Id, inviter: Id, invitee: Id): Option<Db>
  {
    if coupleId !in db.couples || inviter !in db.users then None
    else Some(db.(
      invites := db.invites[db.nextId := Invite(coupleId, inviter, Some(invitee), Pending)],
      nextId := db.nextId + 1))
  }

  /**
    The accepting transaction.  None, and nothing written, when the invite or the couple row is
    missing or when a user already has a member row.
    */
  function AcceptTransaction(db: Db, inviteId: Id, coupleId: Id, inviter: Id, userId: Id): Option<Db>
  {
    if inviteId !in db.invites || coupleId !in db.couples then None
    else if IsMember(db.members, inviter) || IsMember(db.members, userId) || inviter == userId then None
    else
      var accepted := db.invites[inviteId := db.invites[inviteId].(status := Accepted)];
      Some(db.(
        invites := CancelPendingOf(accepted, inviteId, inviter, userId),
        couples := db.couples[coupleId := ActiveCouple],
        members := db.members[db.nextId := MemberRow(coupleId, inviter, Owner)]
                             [db.nextId + 1 := MemberRow(coupleId, userId, Member)],
        nextId := db.nextId + 2))
  }

  // ----- What the tables keep under every interleaving -----

  ghost predicate KeysAreOld(db: Db)
  {
    && (forall c :: c in db.couples ==> c < db.nextId)
    && (forall m :: m in db.members ==> m < db.nextId)
    && (forall i :: i in db.invites ==> i < db.nextId)
    && (forall e :: e in db.emails ==> db.emails[e] in db.users)
  }

  /** Each user is in at most one couple. */
  ghost predicate OneCoupleEach(db: Db)
  {
    forall m, n :: m in db.members && n in db.members && db.members[m].userId == db.members[n].userId ==> m == n
  }

  predicate SameSeat(x: MemberRow, y: MemberRow)
  {
    x.coupleId == y.coupleId && x.role == y.role
  }

  /** Some row gives couple c a member in this role. */
  ghost predicate Filled(db: Db, c: Id, role: Role)
  {
    exists m :: m in db.members && db.members[m].coupleId == c && db.members[m].role == role
  }

  /** An ACTIVE couple has one row in each role; a PENDING couple has none. */
  ghost predicate CouplesAreComplete(db: Db)
  {
    && (forall c :: c in db.couples && db.couples[c] == ActiveCouple ==> Filled(db, c, Owner) && Filled(db, c, Member))
    && (forall m :: m in db.members ==>
                      db.members[m].coupleId in db.couples && db.couples[db.members[m].coupleId] == ActiveCouple)
    && (forall m, n :: m in db.members && n in db.members && SameSeat(db.members[m], db.members[n]) ==> m == n)
  }

  /** The user an invite puts into a role. */
  function Placed(invite: Invite, role: Role): Option<Id>
  {
    if role == Owner then Some(invite.inviterUserId) else invite.inviteeUserId
  }

  /** A couple that has an invite consists of its inviter, as owner, and its invitee. */
  ghost predicate InvitesNameMembers(db: Db)
  {
    forall i, m :: i in db.invites && m in db.members && db.invites[i].coupleId == db.members[m].coupleId ==>
                     Placed(db.invites[i], db.members[m].role) == Some(db.members[m].userId)
  }

  /** Every invite has its own couple and joins two different users. */
  ghost predicate InvitesOwnCouples(db: Db)
  {
    && (forall i :: i in db.invites ==>
                      && db.invites[i].coupleId in db.couples
                      && db.invites[i].inviterUserId in db.users
                      && db.invites[i].inviteeUserId.Some?
                      && db.invites[i].inviteeUserId != Some(db.invites[i].inviterUserId))
    && (forall i, j :: i in db.invites && j in db.invites && db.invites[i].coupleId == db.invites[j].coupleId ==>
          i == j)
  }

  ghost predicate Membership(db: Db)
  {
    KeysAreOld(db) && OneCoupleEach(db) && CouplesAreComplete(db) && InvitesNameMembers(db) && InvitesOwnCouples(db)
  }

  /** The rows of couple c: nobody, or exactly an owner and a different member. */
  ghost predicate HasExactly(db: Db, c: Id, rows: set<Id>)
  {
    forall m :: m in rows <==> m in db.members && db.members[m].coupleId == c
  }

  lemma SeatsOf(db: Db, c: Id) returns (o: Id, m: Id)
    requires CouplesAreComplete(db) && c in db.couples && db.couples[c] == ActiveCouple
    ensures o in db.members && db.members[o].coupleId == c && db.members[o].role == Owner
    ensures m in db.members && db.members[m].coupleId == c && db.members[m].role == Member
    ensures HasExactly(db, c, {o, m})
  {
    assert Filled(db, c, Owner) && Filled(db, c, Member);
    o :| o in db.members && db.members[o].coupleId == c && db.members[o].role == Owner;
    m :| m in db.members && db.members[m].coupleId == c && db.members[m].role == Member;
  }

  lemma NameIn(db: Db, i: Id, k: Id)
    requires InvitesNameMembers(db) && i in db.invites && k in db.members
    requires db.invites[i].coupleId == db.members[k].coupleId
    ensures Placed(db.invites[i], db.members[k].role) == Some(db.members[k].userId)
  {}

  /**
    What the invariant says of one couple: an ACTIVE couple has exactly two rows, an owner and
    a different user as member, the inviter and the invitee where it has an invite; a PENDING
    couple has no rows.
    */
  lemma CoupleHasItsTwo(db: Db, c: Id)
    requires Membership(db) && c in db.couples
    ensures db.couples[c] == PendingCouple ==> HasExactly(db, c, {})
    ensures db.couples[c] == ActiveCouple ==>
              exists o, m ::
                && o in db.members && m in db.members && HasExactly(db, c, {o, m})
                && db.members[o].role == Owner && db.members[m].role == Member
                && db.members[o].userId != db.members[m].userId
                && (forall i :: i in db.invites && db.invites[i].coupleId == c ==>
                                  db.invites[i].inviterUserId == db.members[o].userId
                                  && db.invites[i].inviteeUserId == Some(db.members[m].userId))
  {
    hide KeysAreOld, OneCoupleEach, CouplesAreComplete, InvitesNameMembers, InvitesOwnCouples, HasExactly;
    if db.couples[c] == ActiveCouple {
      var o, m := SeatsOf(db, c);
      forall i | i in db.invites && db.invites[i].coupleId == c
        ensures db.invites[i].inviterUserId == db.members[o].userId
        ensures db.invites[i].inviteeUserId == Some(db.members[m].userId)
      {
        NameIn(db, i, o);
        NameIn(db, i, m);
      }
      TwoDiffer(db, o, m);
    } else {
      PendingIsEmpty(db, c);
    }
  }

  lemma TwoDiffer(db: Db, o: Id, m: Id)
    requires OneCoupleEach(db) && o in db.members && m in db.members && db.members[o].role != db.members[m].role
    ensures db.members[o].userId != db.members[m].userId
  {}

  lemma PendingIsEmpty(db: Db, c: Id)
    requires CouplesAreComplete(db) && c in db.couples && db.couples[c] == PendingCouple
    ensures HasExactly(db, c, {})
  {}

  // ----- What each statement does to them -----

  lemma DeleteKeepsMembership(db: Db, coupleId: Id)
    requires Membership(db)
    ensures Membership(DropCouple(db, coupleId))
  {
    DropKeepsSeats(db, coupleId);
    hide Filled;
  }

  lemma DropKeepsSeats(db: Db, coupleId: Id)
    ensures var after := DropCouple(db, coupleId);
            forall c, role :: c in after.couples && Filled(db, c, role) ==> Filled(after, c, role)
  {
    var after := DropCouple(db, coupleId);
    forall c, role | c in after.couples && Filled(db, c, role)
      ensures Filled(after, c, role)
    {
      var m :| m in db.members && db.members[m].coupleId == c && db.members[m].role == role;
      assert m in after.members;
    }
  }

  /** Changing only the statuses of invites. */
  lemma StatusesKeepMembership(db: Db, invites: map<Id, Invite>)
    requires Membership(db)
    requires invites.Keys == db.invites.Keys
    requires forall i :: i in invites ==> invites[i] == db.invites[i].(status := invites[i].status)
    ensures Membership(db.(invites := invites))
  {
    assert forall i :: i in invites ==> SameTerms(db.invites[i], invites[i]);
    SameTermsKeepMembership(db, invites);
    hide Membership;
  }

  predicate SameTerms(x: Invite, y: Invite)
  {
    x.coupleId == y.coupleId && x.inviterUserId == y.inviterUserId && x.inviteeUserId == y.inviteeUserId
  }

  lemma SameTermsKeepMembership(db: Db, invites: map<Id, Invite>)
    requires Membership(db) && invites.Keys == db.invites.Keys
    requires forall i :: i in invites ==> SameTerms(db.invites[i], invites[i])
    ensures Membership(db.(invites := invites))
  {
    SameTermsNameMembers(db, invites);
    SameTermsOwnCouples(db, invites);
    SameRowsAreComplete(db, db.(invites := invites));
    hide SameTerms, CouplesAreComplete, InvitesNameMembers, InvitesOwnCouples;
  }

  lemma SameRowsAreComplete(db: Db, after: Db)
    requires CouplesAreComplete(db) && after.couples == db.couples && after.members == db.members
    ensures CouplesAreComplete(after)
  {
    assert forall c, role :: Filled(after, c, role) <==> Filled(db, c, role);
    hide Filled;
  }

  lemma SameTermsOwnCouples(db: Db, invites: map<Id, Invite>)
    requires InvitesOwnCouples(db) && invites.Keys == db.invites.Keys
    requires forall i :: i in invites ==> SameTerms(db.invites[i], invites[i])
    ensures InvitesOwnCouples(db.(invites := invites))
  {}

  lemma SameTermsNameMembers(db: Db, invites: map<Id, Invite>)
    requires InvitesNameMembers(db) && invites.Keys == db.invites.Keys
    requires forall i :: i in invites ==> SameTerms(db.invites[i], invites[i])
    ensures InvitesNameMembers(db.(invites := invites))
  {}

  lemma MarkKeepsMembership(db: Db, inviteId: Id, status: InviteStatus)
    requires Membership(db) && inviteId in db.invites
    ensures Membership(SetStatus(db, inviteId, status).value)
  {
    StatusesKeepMembership(db, SetStatus(db, inviteId, status).value.invites);
  }

  lemma CreateCoupleKeepsMembership(db: Db)
    requires Membership(db)
    ensures Membership(CreateCouple(db))
  {
    var after := CreateCouple(db);
    assert forall c, role :: Filled(after, c, role) <==> Filled(db, c, role);
  }

  lemma CreateInviteKeepsMembership(db: Db, coupleId: Id, inviter: Id, invitee: Id)
    requires Membership(db) && inviter != invitee
    requires coupleId in db.couples ==> db.couples[coupleId] == PendingCouple
    requires forall i :: i in db.invites ==> db.invites[i].coupleId != coupleId
    ensures CreateInvite(db, coupleId, inviter, invitee).Some? ==>
              Membership(CreateInvite(db, coupleId, inviter, invitee).value)
  {
    if CreateInvite(db, coupleId, inviter, invitee).Some? {
      var after := CreateInvite(db, coupleId, inviter, invitee).value;
      SameRowsAreComplete(db, after);
      CreatedNamesMembers(db, after, coupleId, inviter, invitee);
      CreatedOwnsCouple(db, after, coupleId, inviter, invitee);
      hide CouplesAreComplete, InvitesNameMembers, InvitesOwnCouples;
    }
  }

  lemma CreatedNamesMembers(db: Db, after: Db, coupleId: Id, inviter: Id, invitee: Id)
    requires InvitesNameMembers(db) && CouplesAreComplete(db)
    requires coupleId in db.couples && db.couples[coupleId] == PendingCouple
    requires CreateInvite(db, coupleId, inviter, invitee) == Some(after)
    ensures InvitesNameMembers(after)
  {
    hide Filled;
  }

  lemma CreatedOwnsCouple(db: Db, after: Db, coupleId: Id, inviter: Id, invitee: Id)
    requires InvitesOwnCouples(db) && inviter != invitee
    requires forall i :: i in db.invites ==> db.invites[i].coupleId != coupleId
    requires CreateInvite(db, coupleId, inviter, invitee) == Some(after)
    ensures InvitesOwnCouples(after)
  {}

  /** The accepted row agrees with the arguments the request read earlier. */
  ghost predicate RowAgrees(db: Db, inviteId: Id, coupleId: Id, inviter: Id, userId: Id)
  {
    inviteId in db.invites ==>
      && db.invites[inviteId].coupleId == coupleId
      && db.invites[inviteId].inviterUserId == inviter
      && db.invites[inviteId].inviteeUserId == Some(userId)
  }

  /** What a committed transaction has done, row by row. */
  ghost predicate AcceptEffect(db: Db, after: Db, inviteId: Id, coupleId: Id, inviter: Id, userId: Id)
  {
    && inviteId in db.invites && coupleId in db.couples && inviter != userId
    && !IsMember(db.members, inviter) && !IsMember(db.members, userId)
    && after.users == db.users && after.emails == db.emails && after.nextId == db.nextId + 2
    && after.couples == db.couples[coupleId := ActiveCouple]
    && after.members.Keys == db.members.Keys + {db.nextId, db.nextId + 1}
    && after.members[db.nextId] == MemberRow(coupleId, inviter, Owner)
    && after.members[db.nextId + 1] == MemberRow(coupleId, userId, Member)
    && (forall m :: m in db.members && m < db.nextId ==> after.members[m] == db.members[m])
    && after.invites.Keys == db.invites.Keys
    && after.invites[inviteId] == db.invites[inviteId].(status := Accepted)
    && (forall i :: i in db.invites && i != inviteId ==>
          after.invites[i] == if db.invites[i].status == Pending
                                 && (Involves(db.invites[i], inviter) || Involves(db.invites[i], userId))
                              then db.invites[i].(status := Canceled) else db.invites[i])
  }

  lemma AcceptHasEffect(db: Db, after: Db, inviteId: Id, coupleId: Id, inviter: Id, userId: Id)
    requires AcceptTransaction(db, inviteId, coupleId, inviter, userId) == Some(after)
    ensures AcceptEffect(db, after, inviteId, coupleId, inviter, userId)
  {}

  /** Where the transaction commits, the couple was still pending and had no members. */
  lemma AcceptedCoupleWasPending(db: Db, after: Db, inviteId: Id, coupleId: Id, inviter: Id, userId: Id)
    requires CouplesAreComplete(db) && InvitesNameMembers(db)
    requires RowAgrees(db, inviteId, coupleId, inviter, userId)
    requires AcceptEffect(db, after, inviteId, coupleId, inviter, userId)
    ensures db.couples[coupleId] == PendingCouple
    ensures forall m :: m in db.members ==> db.members[m].coupleId != coupleId
  {}

  lemma AcceptKeepsSeats(db: Db, after: Db, inviteId: Id, coupleId: Id, inviter: Id, userId: Id)
    requires KeysAreOld(db) && CouplesAreComplete(db)
    requires AcceptEffect(db, after, inviteId, coupleId, inviter, userId)
    requires forall m :: m in db.members ==> db.members[m].coupleId != coupleId
    ensures forall m :: m in after.members ==>
              && after.members[m].coupleId in after.couples
              && after.couples[after.members[m].coupleId] == ActiveCouple
    ensures forall m, n :: m in after.members && n in after.members ==>
              SameSeat(after.members[m], after.members[n]) ==> m == n
  {}

  lemma AcceptFillsCouple(db: Db, after: Db, inviteId: Id, coupleId: Id, inviter: Id, userId: Id, c: Id, role: Role)
    requires KeysAreOld(db)
    requires AcceptEffect(db, after, inviteId, coupleId, inviter, userId)
    requires c == coupleId || Filled(db, c, role)
    ensures Filled(after, c, role)
  {}

  lemma AcceptCompletesCouples(db: Db, after: Db, inviteId: Id, coupleId: Id, inviter: Id, userId: Id)
    requires KeysAreOld(db) && CouplesAreComplete(db) && InvitesNameMembers(db)
    requires RowAgrees(db, inviteId, coupleId, inviter, userId)
    requires AcceptEffect(db, after, inviteId, coupleId, inviter, userId)
    ensures CouplesAreComplete(after)
  {
    AcceptedCoupleWasPending(db, after, inviteId, coupleId, inviter, userId);
    AcceptKeepsSeats(db, after, inviteId, coupleId, inviter, userId);
    forall c | c in after.couples && after.couples[c] == ActiveCouple
      ensures Filled(after, c, Owner) && Filled(after, c, Member)
    {
      AcceptFillsCouple(db, after, inviteId, coupleId, inviter, userId, c, Owner);
      AcceptFillsCouple(db, after, inviteId, coupleId, inviter, userId, c, Member);
    }
  }

  /** Apart from their statuses, the invites are what they were. */
  ghost predicate SameInvites(db: Db, after: Db)
  {
    && after.invites.Keys == db.invites.Keys
    && (forall i :: i in db.invites ==> after.invites[i] == db.invites[i].(status := after.invites[i].status))
  }

  lemma AcceptKeepsInvites(db: Db, after: Db, inviteId: Id, coupleId: Id, inviter: Id, userId: Id)
    requires InvitesOwnCouples(db)
    requires AcceptEffect(db, after, inviteId, coupleId, inviter, userId)
    ensures SameInvites(db, after) && InvitesOwnCouples(after)
  {}

  lemma AcceptNamesMembers(db: Db, after: Db, inviteId: Id, coupleId: Id, inviter: Id, userId: Id)
    requires KeysAreOld(db) && InvitesNameMembers(db) && InvitesOwnCouples(db)
    requires RowAgrees(db, inviteId, coupleId, inviter, userId)
    requires AcceptEffect(db, after, inviteId, coupleId, inviter, userId)
    ensures InvitesNameMembers(after)
  {
    AcceptKeepsInvites(db, after, inviteId, coupleId, inviter, userId);
    forall i, m | i in after.invites && m in after.members && after.invites[i].coupleId == after.members[m].coupleId
      ensures Placed(after.invites[i], after.members[m].role) == Some(after.members[m].userId)
    {
      if m in db.members {
        assert after.members[m] == db.members[m];
      } else {
        assert db.invites[i].coupleId == db.invites[inviteId].coupleId;
      }
    }
  }

  lemma AcceptedUsersAreDistinct(db: Db, after: Db, inviteId: Id, coupleId: Id, inviter: Id, userId: Id)
    requires KeysAreOld(db) && OneCoupleEach(db)
    requires AcceptEffect(db, after, inviteId, coupleId, inviter, userId)
    ensures KeysAreOld(after) && OneCoupleEach(after)
  {
    assert forall m :: m in db.members ==> db.members[m].userId != inviter && db.members[m].userId != userId;
  }

  lemma AcceptKeepsMembership(db: Db, after: Db, inviteId: Id, coupleId: Id, inviter: Id, userId: Id)
    requires Membership(db) && RowAgrees(db, inviteId, coupleId, inviter, userId)
    requires AcceptTransaction(db, inviteId, coupleId, inviter, userId) == Some(after)
    ensures Membership(after)
  {
    AcceptHasEffect(db, after, inviteId, coupleId, inviter, userId);
    AcceptCompletesCouples(db, after, inviteId, coupleId, inviter, userId);
    AcceptKeepsInvites(db, after, inviteId, coupleId, inviter, userId);
    AcceptNamesMembers(db, after, inviteId, coupleId, inviter, userId);
    AcceptedUsersAreDistinct(db, after, inviteId, coupleId, inviter, userId);
  }

  /**
    The committed transaction joins exactly the invite's two users: its couple had no rows and
    has theirs, and the rows of every other couple are as they were.
    */
  lemma AcceptJoinsTheTwo(db: Db, after: Db, inviteId: Id, coupleId: Id, inviter: Id, userId: Id)
    requires Membership(db) && RowAgrees(db, inviteId, coupleId, inviter, userId)
    requires AcceptTransaction(db, inviteId, coupleId, inviter, userId) == Some(after)
    ensures HasExactly(db, coupleId, {}) && HasExactly(after, coupleId, {db.nextId, db.nextId + 1})
    ensures after.members[db.nextId] == MemberRow(coupleId, inviter, Owner)
    ensures after.members[db.nextId + 1] == MemberRow(coupleId, userId, Member)
    ensures forall c, rows :: c != coupleId ==> (HasExactly(after, c, rows) <==> HasExactly(db, c, rows))
  {
    AcceptHasEffect(db, after, inviteId, coupleId, inviter, userId);
    AcceptedCoupleWasPending(db, after, inviteId, coupleId, inviter, userId);
    hide AcceptTransaction, CouplesAreComplete, InvitesNameMembers, InvitesOwnCouples, OneCoupleEach;
    hide Involves, IsMember, HasExactly;
    assert forall m :: m in db.members ==> m < db.nextId;
    TwoRowsMore(db, after, coupleId);
  }

  /** Two more rows of one couple leave the other couples what they were. */
  lemma TwoRowsMore(db: Db, after: Db, c: Id)
    requires after.members.Keys == db.members.Keys + {db.nextId, db.nextId + 1}
    requires forall m :: m in db.members ==> m < db.nextId && after.members[m] == db.members[m]
    requires forall m :: m in db.members ==> db.members[m].coupleId != c
    requires after.members[db.nextId].coupleId == c && after.members[db.nextId + 1].coupleId == c
    ensures HasExactly(db, c, {}) && HasExactly(after, c, {db.nextId, db.nextId + 1})
    ensures forall d, rows :: d != c ==> (HasExactly(after, d, rows) <==> HasExactly(db, d, rows))
  {}
}
