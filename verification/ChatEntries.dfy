/**
  Where the entries of a chat log come from: each tells a message that was brought or sent, as it
  was brought or sent, and each message that is brought is shown.
  */
module ChatEntries {
  import opened Common
  import opened ChatStore
  import opened ChatLog

  /** The entry tells this message to this user; a message without a time has the present one. */
  ghost predicate Tells(me: Id, v: View, now: int, e: Entry)
  {
    && e.id == v.id && v.id != "" && e.content == v.content && (e.mine <==> v.sender == me)
    && (match v.sentAtMs case Some(t) => e.sentAtMs == t case None => e.sentAtMs == now)
  }

  ghost predicate TellsSome(me: Id, vs: seq<View>, now: int, e: Entry)
  {
    exists v :: v in vs && Tells(me, v, now, e)
  }

  /** What an operation may add to the log. */
  ghost predicate Adds(me: Id, op: Op, now: int, e: Entry)
  {
    match op
    case Incoming(v) => Tells(me, v, now, e) && !e.sendFailed
    case Synced(vs) => TellsSome(me, vs, now, e) && !e.sendFailed
    case Loaded(vs) => TellsSome(me, vs, now, e) && !e.sendFailed
    case OlderLoaded(vs) => TellsSome(me, vs, now, e) && !e.sendFailed
    case Sent(cid, content) => e == Entry(cid, true, now, content, false)
    case _ => false
  }

  /** The entry was added, and flagged if at all, by some of the first n operations. */
  ghost predicate Genuine(me: Id, ops: seq<Op>, times: seq<int>, n: nat, e: Entry)
    requires n <= |ops| == |times|
  {
    && (exists k :: 0 <= k < n && Adds(me, ops[k], times[k], e.(sendFailed := false)))
    && (e.sendFailed ==> exists k :: 0 <= k < n && ops[k] == SendFailed(e.id))
  }

  lemma {:induction false} MappedAllTells(me: Id, vs: seq<View>, now: int)
    ensures forall e :: e in MappedAll(me, vs, now) ==> TellsSome(me, vs, now, e) && !e.sendFailed
    ensures (forall v :: v in vs ==> v.id != "") ==> |MappedAll(me, vs, now)| == |vs|
  {
    if vs != [] {
      MappedAllTells(me, vs[1..], now);
      assert vs == [vs[0]] + vs[1..];
      forall e | e in MappedAll(me, vs[1..], now)
        ensures TellsSome(me, vs, now, e)
      {
        var v :| v in vs[1..] && Tells(me, v, now, e);
        assert v in vs;
      }
      if vs[0].id != "" {
        assert Tells(me, vs[0], now, Mapped(me, vs[0], now).value);
      }
    }
  }

  lemma {:induction false} ReceiveAllTells(c: Client, me: Id, vs: seq<View>, now: int)
    ensures forall e :: e in ReceiveAll(c, me, vs, now).log ==>
              e in c.log || (TellsSome(me, vs, now, e) && !e.sendFailed)
    decreases |vs|
  {
    if vs != [] {
      var next := Receive(c, me, vs[0], now);
      ReceiveAllTells(next, me, vs[1..], now);
      assert vs[0] in vs;
      forall e | e in ReceiveAll(next, me, vs[1..], now).log && e !in c.log
        ensures TellsSome(me, vs, now, e) && !e.sendFailed
      {
        if e in next.log {
          assert Tells(me, vs[0], now, e);
        } else {
          var v :| v in vs[1..] && Tells(me, v, now, e);
          assert v in vs;
        }
      }
    }
  }

  /** What one operation leaves in the log was there, was there unflagged, or is new. */
  lemma StepIsGenuine(c: Client, me: Id, op: Op, now: int, e: Entry)
    requires e in Do(c, me, op, now).log
    ensures || e in c.log || Adds(me, op, now, e)
            || (op == SendFailed(e.id) && e.(sendFailed := false) in c.log)
            || (op == SendFailed(e.id) && e.sendFailed && e in c.log)
  {
    match op
    case Synced(vs) => ReceiveAllTells(c, me, vs, now);
    case Loaded(vs) => MappedAllTells(me, vs, now);
    case OlderLoaded(vs) => MappedAllTells(me, vs, now);
    case SendFailed(cid) =>
      var i :| 0 <= i < |Failed(c.log, cid)| && Failed(c.log, cid)[i] == e;
      assert c.log[i] in c.log;
      assert c.log[i].(sendFailed := e.sendFailed) == e;
      if c.log[i].id == cid && !c.log[i].sendFailed {
        assert e.(sendFailed := false) == c.log[i];
      }
    case _ =>
  }

  lemma GenuineLasts(me: Id, ops: seq<Op>, times: seq<int>, n: nat, m: nat, e: Entry)
    requires n <= m <= |ops| == |times| && Genuine(me, ops, times, n, e)
    ensures Genuine(me, ops, times, m, e)
  {
    hide Adds;
  }

  lemma GenuineFlagged(me: Id, ops: seq<Op>, times: seq<int>, n: nat, e: Entry)
    requires n < |ops| == |times| && Genuine(me, ops, times, n, e.(sendFailed := false))
    requires e.sendFailed ==> ops[n] == SendFailed(e.id)
    ensures Genuine(me, ops, times, n + 1, e)
  {
    hide Adds;
    assert e.(sendFailed := false).(sendFailed := false) == e.(sendFailed := false);
  }

  /**
    Over every run, each entry in the log has the id, the text, the sender and the time of a
    message that was brought, or of one that was sent from here, and is flagged as failed only
    after that send failed.
    */
  lemma {:induction false} EntriesAreGenuine(
      me: Id, cs: seq<Client>, ops: seq<Op>, times: seq<int>, n: nat, e: Entry)
    requires Run(me, cs, ops, times) && n <= |ops| && e in cs[n].log
    ensures Genuine(me, ops, times, n, e)
  {
    hide Do, Possible, Adds, Genuine;
    if n > 0 {
      var op, now := ops[n - 1], times[n - 1];
      assert cs[n - 1 + 1] == Do(cs[n - 1], me, op, now);
      StepIsGenuine(cs[n - 1], me, op, now, e);
      if e in cs[n - 1].log {
        EntriesAreGenuine(me, cs, ops, times, n - 1, e);
        GenuineLasts(me, ops, times, n - 1, n, e);
      } else if Adds(me, op, now, e) {
        AddedIsGenuine(me, ops, times, n, e);
      } else {
        EntriesAreGenuine(me, cs, ops, times, n - 1, e.(sendFailed := false));
        GenuineFlagged(me, ops, times, n - 1, e);
      }
    }
  }

  lemma AddedIsGenuine(me: Id, ops: seq<Op>, times: seq<int>, n: nat, e: Entry)
    requires 0 < n <= |ops| == |times| && Adds(me, ops[n - 1], times[n - 1], e)
    ensures Genuine(me, ops, times, n, e)
  {
    assert !e.sendFailed && e.(sendFailed := false) == e;
    hide Adds;
  }

  /** Every message an operation brings is shown afterwards, unless it is dropped for its client id. */
  lemma BroughtIsShown(c: Client, me: Id, op: Op, now: int, id: Id)
    requires Tidy(c) && Possible(c, op) && id != ""
    requires op.Synced? ==> forall v :: v in op.views ==> v.clientMessageId == None
    ensures Brings(c, op, id) || (op.Loaded? && Carries(op.views, id)) ==> id in Ids(Do(c, me, op, now).log)
    ensures op.Loaded? && !Carries(op.views, id) ==> id !in Ids(Do(c, me, op, now).log)
  {
    DoIsTidy(c, me, op, now);
    match op
    case Synced(vs) => ReceiveAllSees(c, me, vs, now, id);
    case Loaded(vs) => MappedAllCarries(me, vs, now, id);
    case OlderLoaded(vs) => FinishOlderSees(c, me, vs, now, id);
    case _ =>
  }

  // ----- What each handler does -----

  ghost predicate IsDropped(c: Client, v: View)
  {
    v.id == "" || v.id in c.seen || exists cid :: v.clientMessageId == Some(cid) && cid != "" && cid in c.seen
  }

  /** A message not seen under either of its ids is added at the end; it is the last seen unless it is earlier. */
  ghost predicate IsDelivered(c: Client, after: Client, me: Id, v: View, now: int)
  {
    if IsDropped(c, v) then after == c
    else
      && |after.log| == |c.log| + 1 && after.log[..|c.log|] == c.log
      && var e := after.log[|c.log|];
         && Tells(me, v, now, e) && !e.sendFailed
         && (c.lastSeen.Some? && e.sentAtMs < c.lastSeen.value.sentAtMs ==> after.lastSeen == c.lastSeen)
         && (c.lastSeen.None? || e.sentAtMs >= c.lastSeen.value.sentAtMs ==>
               after.lastSeen == Some(Mark(v.id, e.sentAtMs)))
         && after.seen == c.seen + {v.id} && after.hasMore == c.hasMore && after.fetching == c.fetching
  }

  lemma ReceiveDelivers(c: Client, me: Id, v: View, now: int)
    ensures IsDelivered(c, Receive(c, me, v, now), me, v, now)
  {}

  ghost predicate AllNamed(vs: seq<View>)
  {
    forall v :: v in vs ==> v.id != ""
  }

  /** The log is the first page, and its latest message the last seen; a page of fewer than 50 ends the history. */
  ghost predicate IsLoaded(c: Client, after: Client, me: Id, vs: seq<View>, now: int)
  {
    && (forall e :: e in after.log ==> TellsSome(me, vs, now, e) && !e.sendFailed)
    && (forall id :: id != "" ==> (id in after.seen <==> Carries(vs, id)))
    && (AllNamed(vs) ==> |after.log| == |vs| && after.hasMore == (c.hasMore && |vs| >= 50))
    && (after.log == [] ==> after.lastSeen == c.lastSeen)
    && (after.log != [] ==>
          && (exists e :: e in after.log && after.lastSeen == Some(Mark(e.id, e.sentAtMs)))
          && forall e :: e in after.log ==> e.sentAtMs <= after.lastSeen.value.sentAtMs)
    && after.fetching == c.fetching
  }

  lemma LoadLoads(c: Client, me: Id, vs: seq<View>, now: int)
    ensures IsLoaded(c, Load(c, me, vs, now), me, vs, now)
  {
    MappedAllTells(me, vs, now);
    forall id | id != ""
      ensures id in Load(c, me, vs, now).seen <==> Carries(vs, id)
    {
      MappedAllCarries(me, vs, now, id);
    }
    hide MappedAll, TellsSome, Carries;
  }

  /** Unseen messages of the page stand in front; a page of fewer than 20 ends the history. */
  ghost predicate IsExtended(c: Client, after: Client, me: Id, vs: seq<View>, now: int)
  {
    && |after.log| >= |c.log| && after.log[|after.log| - |c.log|..] == c.log
    && (forall e :: e in after.log[..|after.log| - |c.log|] ==>
          TellsSome(me, vs, now, e) && !e.sendFailed && e.id !in c.seen)
    && (forall id :: id != "" ==> (id in after.seen <==> id in c.seen || Carries(vs, id)))
    && (AllNamed(vs) ==> after.hasMore == (c.hasMore && |vs| >= 20))
    && after.lastSeen == c.lastSeen && after.fetching == None
  }

  lemma FinishExtends(c: Client, me: Id, vs: seq<View>, now: int)
    ensures IsExtended(c, FinishOlder(c, me, vs, now), me, vs, now)
  {
    MappedAllTells(me, vs, now);
    forall id | id != ""
      ensures id in FinishOlder(c, me, vs, now).seen <==> id in c.seen || Carries(vs, id)
    {
      FinishOlderSees(c, me, vs, now, id);
    }
    var more := Unseen(MappedAll(me, vs, now), c.seen);
    assert FinishOlder(c, me, vs, now).log == more + c.log;
    hide MappedAll, TellsSome, Carries;
  }

  /** One request at a time, for what is older than everything shown, while there is more. */
  ghost predicate IsAsked(c: Client, after: Client)
  {
    if !c.hasMore || c.fetching.Some? || c.log == [] then after == c
    else
      && after == c.(fetching := after.fetching) && after.fetching.Some?
      && (exists e :: e in c.log && after.fetching == Some(e.sentAtMs))
      && forall e :: e in c.log ==> after.fetching.value <= e.sentAtMs
  }

  lemma StartAsks(c: Client)
    ensures IsAsked(c, StartOlder(c))
  {}
}
