/**
  Concrete runs in which overlapping requests break a rule that holds for requests served one at
  a time.  Each starts from tables that are in order.
  */
module CoupleRaces {
  import opened Common
  import opened CoupleTables
  import opened CoupleInterleaving
  import opened CoupleRequests
  import opened CoupleOverlap
  import opened CoupleSchedules

  /** Three users who know each other's addresses, and nothing else. */
  function Newcomers(): Db
  {
    Db({1, 2, 3}, map["one" := 1, "two" := 2, "three" := 3], map[], map[], map[], 10)
  }

  /** The first user has invited the second. */
  function OneInvited(): Db
  {
    Db({1, 2, 3}, map["one" := 1, "two" := 2, "three" := 3], map[10 := PendingCouple], map[],
       map[11 := Invite(10, 1, Some(2), Pending)], 12)
  }

  lemma NewcomersAreInOrder()
    ensures SerialInv(Newcomers())
    ensures SendInvite(Newcomers(), 1, "two") == (OneInvited(), Done)
    ensures SendInvite(Newcomers(), 1, "three").1 == Done
  {
    NothingToCancel(Newcomers(), 1);
  }

  lemma OneInvitedIsInOrder()
    ensures SerialInv(OneInvited())
  {
    NewcomersAreInOrder();
    SendKeepsInv(Newcomers(), 1, "two");
  }

  /** Tables in order, and no request under way. */
  ghost predicate Quiet(s: System)
  {
    SerialInv(s.db) && s.requests == map[]
  }

  /** The events behind a system that can follow the arrival of two calls. */
  lemma Follows(s0: System, events: seq<Event>, t: System, u: System) returns (more: seq<Event>)
    requires Exec(s0, events) == t && Leads(t, u)
    ensures Exec(s0, more) == u && events <= more
  {
    var rest :| Continues(rest) && Exec(t, rest) == u;
    more := events + rest;
    ExecSplits(s0, events, rest);
  }

  /** Two calls of one user at the same time leave that user with two open invites. */
  lemma TwoOpenInvites() returns (s0: System, events: seq<Event>)
    ensures Quiet(s0)
    ensures !OneOpenInviteEach(Exec(s0, events).db)
  {
    NewcomersAreInOrder();
    var d, a, b := Newcomers(), SendFindMe(1, "two"), SendFindMe(1, "three");
    hide SendInvite, Newcomers, OneOpenInviteEach, Leads, Exec, SerialInv;
    s0 := System(d, map[]);
    events := SecondArrives(d, a, b, 0);
    SerialKeys(d);
    var t := SecondSendGoesWrong(d, 1, "two", "three", 0);
    events := Follows(s0, events, Joined(d, a, b, 0), t);
  }

  /**
    The invite goes from DECLINED to ACCEPTED, and then the couple that the acceptance reported
    disappears.
    */
  lemma DeclinedThenAccepted() returns (s0: System, declined: seq<Event>, accepted: seq<Event>, gone: seq<Event>)
    ensures Quiet(s0)
    ensures declined <= accepted <= gone
    ensures HasStatus(Exec(s0, declined), 11, Declined) && HasStatus(Exec(s0, accepted), 11, Accepted)
    ensures HasVanished(Exec(s0, gone), 10)
  {
    OneInvitedIsInOrder();
    assert OpenTo(OneInvited(), 11, 2) && OneInvited().invites[11].coupleId == 10;
    hide OneInvited, Leads, Exec, SerialInv, OpenTo;
    var d, a, b := OneInvited(), AcceptFind(11, 2), DeclineFind(11, 2);
    s0 := System(d, map[]);
    var events := SecondArrives(d, a, b, 0);
    var t, u, v := RefusalGoesWrong(d, 11, 2, b, 0);
    declined := Follows(s0, events, Joined(d, a, b, 0), t);
    accepted := Follows(s0, declined, t, u);
    gone := Follows(s0, accepted, u, v);
  }

  lemma ThirdMaySend()
    ensures SendInvite(OneInvited(), 3, "two").1 == Done && OneInvited().emails["two"] == 2
    ensures OpenTo(OneInvited(), 11, 2) && Touches(OneInvited().invites[11], 2, 3, 2)
  {}

  /** Invite i is open, and user x, who is in a couple, can only be rejected. */
  ghost predicate IsHeldLate(db: Db, i: Id, x: Id)
  {
    && !OpenInvitesAreFree(db) && i in db.invites && IsOpen(db.invites[i])
    && AcceptInvite(db, i, x) == (db, AlreadyCoupled)
  }

  /** The invitee ends up in a couple and with an open invite that can only be rejected. */
  lemma MemberHoldsOpenInvite() returns (s0: System, events: seq<Event>, i: Id)
    ensures Quiet(s0)
    ensures IsHeldLate(Exec(s0, events).db, i, 2)
  {
    OneInvitedIsInOrder();
    ThirdMaySend();
    hide OneInvited, Leads, Exec, SerialInv, OpenTo, SendInvite, AcceptInvite, OpenInvitesAreFree;
    var d, a, b := OneInvited(), AcceptFind(11, 2), SendFindMe(3, "two");
    s0 := System(d, map[]);
    events := SecondArrives(d, a, b, 0);
    var t, late := SendGoesWrong(d, 11, 2, 3, "two", 0);
    events := Follows(s0, events, Joined(d, a, b, 0), t);
    MembersInviteIsNotFree(t.db, late, 3, 2);
    i := late;
  }

  /** A send that is stopped leaves a PENDING couple without an invite. */
  lemma CoupleWithoutInvite() returns (s0: System, events: seq<Event>)
    ensures Quiet(s0)
    ensures forall k {:trigger After(s0, events, k)} :: 0 <= k <= |events| ==> UsersApart(After(s0, events, k))
    ensures !InvitesMirrorCouples(Exec(s0, events).db)
  {
    NewcomersAreInOrder();
    hide Newcomers, SerialInv, SendInvite, UsersApart, InvitesMirrorCouples, Exec;
    s0 := System(Newcomers(), map[]);
    events := StoppedSendLeavesCouple(Newcomers(), 1, "two");
  }
}
