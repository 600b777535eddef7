/**
  The message log of a chat client: optimistic sends, messages that arrive over the socket,
  resynchronisation after a drop, and pages of older messages.
  */
module ChatLog {
  import opened Common
  import opened ChatStore

  const INITIAL_PAGE := 50
  const OLDER_PAGE := 20
  const SYNC_PAGE := 50

  datatype Entry = Entry(id: Id, mine: bool, sentAtMs: int, content: string, sendFailed: bool)

  /** The id and time of the last message received. */
  datatype Mark = Mark(id: Id, sentAtMs: int)

  /** What the server sends for a message; `clientMessageId` travels only over the socket. */
  datatype View = View(id: Id, sender: Id, sentAtMs: Option<int>, content: string, clientMessageId: Option<Id>)

  /** `fetching` holds the bound of the page of older messages that is under way. */
  datatype Client = Client(
    log: seq<Entry>, seen: set<Id>, lastSeen: Option<Mark>, hasMore: bool, fetching: Option<int>)

  function Fresh(): Client
  {
    Client([], {}, None, true, None)
  }

  // ----- Receiving -----

  function Mapped(me: Id, v: View, now: int): Option<Entry>
  {
    if v.id == "" then None
    else Some(Entry(v.id, v.sender == me, if v.sentAtMs.Some? then v.sentAtMs.value else now, v.content, false))
  }

  function Append(c: Client, e: Entry, optimistic: bool): Client
  {
    if e.id in c.seen then c
    else
      var moves := !optimistic && (c.lastSeen.None? || c.lastSeen.value.sentAtMs <= e.sentAtMs);
      c.(log := c.log + [e], seen := c.seen + {e.id},
         lastSeen := if moves then Some(Mark(e.id, e.sentAtMs)) else c.lastSeen)
  }

  function Receive(c: Client, me: Id, v: View, now: int): Client
  {
    if v.clientMessageId.Some? && v.clientMessageId.value != "" && v.clientMessageId.value in c.seen then c
    else
      match Mapped(me, v, now)
      case None => c
      case Some(e) => Append(c, e, false)
  }

  function ReceiveAll(c: Client, me: Id, vs: seq<View>, now: int): Client
    decreases |vs|
  {
    if vs == [] then c else ReceiveAll(Receive(c, me, vs[0], now), me, vs[1..], now)
  }

  // ----- Sending -----

  function Send(c: Client, clientMessageId: Id, content: string, now: int): Client
  {
    Append(c, Entry(clientMessageId, true, now, content, false), true)
  }

  function Failed(log: seq<Entry>, id: Id): (r: seq<Entry>)
    ensures |r| == |log|
    ensures forall i :: 0 <= i < |r| ==>
              r[i] == if log[i].id == id then log[i].(sendFailed := true) else log[i]
  {
    if log == [] then []
    else [if log[0].id == id then log[0].(sendFailed := true) else log[0]] + Failed(log[1..], id)
  }

  function MarkFailed(c: Client, clientMessageId: Id): Client
  {
    c.(log := Failed(c.log, clientMessageId))
  }

  // ----- Loading -----

  function MappedAll(me: Id, vs: seq<View>, now: int): (r: seq<Entry>)
    ensures |r| <= |vs|
  {
    if vs == [] then []
    else
      var rest := MappedAll(me, vs[1..], now);
      match Mapped(me, vs[0], now) case Some(e) => [e] + rest case None => rest
  }

  function Ids(log: seq<Entry>): set<Id>
  {
    set e | e in log :: e.id
  }

  /** The first entry of the latest time. */
  function Latest(log: seq<Entry>): (e: Entry)
    requires log != []
    ensures e in log && forall f :: f in log ==> f.sentAtMs <= e.sentAtMs
  {
    var front, last := log[..|log| - 1], log[|log| - 1];
    if front == [] then last
    else
      assert log == front + [last];
      if last.sentAtMs > Latest(front).sentAtMs then last else Latest(front)
  }

  /** Nothing later stands in the log, and nothing as late stands before it. */
  lemma {:induction false} LatestIsFirst(log: seq<Entry>) returns (i: nat)
    requires log != []
    ensures i < |log| && log[i] == Latest(log)
    ensures forall j :: 0 <= j < i ==> log[j].sentAtMs < log[i].sentAtMs
  {
    var front := log[..|log| - 1];
    i := |log| - 1;
    if front != [] {
      var k := LatestIsFirst(front);
      assert forall e :: e in front ==> e.sentAtMs <= Latest(front).sentAtMs;
      if log[i].sentAtMs > Latest(front).sentAtMs {
        assert forall j :: 0 <= j < i ==> log[j] in front;
      } else {
        i := k;
      }
    }
  }

  /** The first page replaces the log and what was seen. */
  function Load(c: Client, me: Id, vs: seq<View>, now: int): Client
  {
    var mapped := MappedAll(me, vs, now);
    c.(log := mapped, seen := Ids(mapped),
       lastSeen := if mapped == [] then c.lastSeen else Some(Mark(Latest(mapped).id, Latest(mapped).sentAtMs)),
       hasMore := c.hasMore && |mapped| >= INITIAL_PAGE)
  }

  /** The earliest time in the log. */
  function Oldest(log: seq<Entry>): (t: int)
    requires log != []
    ensures (exists e :: e in log && e.sentAtMs == t) && forall e :: e in log ==> t <= e.sentAtMs
  {
    var front, last := log[..|log| - 1], log[|log| - 1];
    if front == [] then
      assert last in log;
      last.sentAtMs
    else
      assert log == front + [last];
      if last.sentAtMs < Oldest(front) then last.sentAtMs else Oldest(front)
  }

  function StartOlder(c: Client): Client
  {
    if !c.hasMore || c.fetching.Some? || c.log == [] then c else c.(fetching := Some(Oldest(c.log)))
  }

  function Unseen(log: seq<Entry>, seen: set<Id>): (r: seq<Entry>)
    ensures forall e :: e in r <==> e in log && e.id !in seen
  {
    if log == [] then []
    else if log[0].id in seen then Unseen(log[1..], seen)
    else [log[0]] + Unseen(log[1..], seen)
  }

  function FinishOlder(c: Client, me: Id, vs: seq<View>, now: int): Client
  {
    var mapped := MappedAll(me, vs, now);
    var more := Unseen(mapped, c.seen);
    c.(log := more + c.log, seen := c.seen + Ids(more),
       hasMore := c.hasMore && |mapped| >= OLDER_PAGE, fetching := None)
  }

  // ----- Runs -----

  datatype Op =
    | Incoming(view: View)
    | Synced(views: seq<View>)
    | Sent(clientMessageId: Id, content: string)
    | SendFailed(clientMessageId: Id)
    | Loaded(views: seq<View>)
    | OlderStarted
    | OlderLoaded(views: seq<View>)
    | OlderFailed

  function Do(c: Client, me: Id, op: Op, now: int): Client
  {
    match op
    case Incoming(v) => Receive(c, me, v, now)
    case Synced(vs) => ReceiveAll(c, me, vs, now)
    case Sent(cid, content) => Send(c, cid, content, now)
    case SendFailed(cid) => MarkFailed(c, cid)
    case Loaded(vs) => Load(c, me, vs, now)
    case OlderStarted => StartOlder(c)
    case OlderLoaded(vs) => FinishOlder(c, me, vs, now)
    case OlderFailed => c.(fetching := None)
  }

  ghost predicate DistinctViews(vs: seq<View>)
  {
    forall i, j :: 0 <= i < j < |vs| ==> vs[i].id != vs[j].id
  }

  /** A page the server returns has no row twice; a page of older messages answers a request. */
  ghost predicate Possible(c: Client, op: Op)
  {
    match op
    case Loaded(vs) => DistinctViews(vs)
    case OlderLoaded(vs) => DistinctViews(vs) && c.fetching.Some?
    case _ => true
  }

  ghost predicate Run(me: Id, cs: seq<Client>, ops: seq<Op>, times: seq<int>)
  {
    && |cs| == |ops| + 1 && |times| == |ops|
    && cs[0] == Fresh()
    && forall n {:trigger ops[n]} :: 0 <= n < |ops| ==>
         Possible(cs[n], ops[n]) && cs[n + 1] == Do(cs[n], me, ops[n], times[n])
  }

  // ----- No message twice -----

  ghost predicate DistinctIds(log: seq<Entry>)
  {
    forall i, j :: 0 <= i < j < |log| ==> log[i].id != log[j].id
  }

  ghost predicate Tidy(c: Client)
  {
    DistinctIds(c.log) && Ids(c.log) == c.seen
  }

  lemma AppendIsTidy(c: Client, e: Entry, optimistic: bool)
    requires Tidy(c)
    ensures Tidy(Append(c, e, optimistic))
  {}

  lemma ReceiveIsTidy(c: Client, me: Id, v: View, now: int)
    requires Tidy(c)
    ensures Tidy(Receive(c, me, v, now))
  {}

  lemma {:induction false} ReceiveAllIsTidy(c: Client, me: Id, vs: seq<View>, now: int)
    requires Tidy(c)
    ensures Tidy(ReceiveAll(c, me, vs, now))
    decreases |vs|
  {
    if vs != [] {
      ReceiveIsTidy(c, me, vs[0], now);
      ReceiveAllIsTidy(Receive(c, me, vs[0], now), me, vs[1..], now);
    }
  }

  lemma {:induction false} MappedIds(me: Id, vs: seq<View>, now: int)
    requires DistinctViews(vs)
    ensures DistinctIds(MappedAll(me, vs, now))
    ensures forall e :: e in MappedAll(me, vs, now) ==> exists i :: 0 <= i < |vs| && Mapped(me, vs[i], now) == Some(e)
  {
    if vs != [] {
      MappedIds(me, vs[1..], now);
      var rest := MappedAll(me, vs[1..], now);
      forall e | e in rest
        ensures e.id != vs[0].id && exists i :: 0 <= i < |vs| && Mapped(me, vs[i], now) == Some(e)
      {
        var i :| 0 <= i < |vs[1..]| && Mapped(me, vs[1..][i], now) == Some(e);
        assert vs[i + 1] == vs[1..][i];
      }
    }
  }

  lemma {:induction false} UnseenIsDistinct(log: seq<Entry>, seen: set<Id>)
    requires DistinctIds(log)
    ensures DistinctIds(Unseen(log, seen))
  {
    if log != [] {
      UnseenIsDistinct(log[1..], seen);
      forall e | e in Unseen(log[1..], seen)
        ensures e.id != log[0].id
      {
        var i :| 0 <= i < |log[1..]| && log[1..][i] == e;
        assert log[i + 1] == e;
      }
    }
  }

  lemma FinishOlderIsTidy(c: Client, me: Id, vs: seq<View>, now: int)
    requires Tidy(c) && DistinctViews(vs)
    ensures Tidy(FinishOlder(c, me, vs, now))
  {
    MappedIds(me, vs, now);
    var mapped := MappedAll(me, vs, now);
    var more := Unseen(mapped, c.seen);
    UnseenIsDistinct(mapped, c.seen);
    assert Ids(more + c.log) == Ids(more) + Ids(c.log);
    forall i, j | 0 <= i < |more| && 0 <= j < |c.log|
      ensures more[i].id != c.log[j].id
    {
      assert more[i] in more && c.log[j] in c.log;
    }
  }

  lemma MarkFailedIsTidy(c: Client, cid: Id)
    requires Tidy(c)
    ensures Tidy(MarkFailed(c, cid))
  {}

  lemma DoIsTidy(c: Client, me: Id, op: Op, now: int)
    requires Tidy(c) && Possible(c, op)
    ensures Tidy(Do(c, me, op, now))
  {
    match op
    case Incoming(v) => ReceiveIsTidy(c, me, v, now);
    case Synced(vs) => ReceiveAllIsTidy(c, me, vs, now);
    case Sent(cid, content) => AppendIsTidy(c, Entry(cid, true, now, content, false), true);
    case SendFailed(cid) => MarkFailedIsTidy(c, cid);
    case Loaded(vs) => MappedIds(me, vs, now);
    case OlderLoaded(vs) => FinishOlderIsTidy(c, me, vs, now);
    case _ =>
  }

  /**
    Whatever is sent, delivered, delivered again, resynchronised, loaded and loaded again: the
    ids in the log are pairwise distinct, and they are exactly the ids counted as seen.
    */
  lemma {:induction false} LogHasNoRepeats(me: Id, cs: seq<Client>, ops: seq<Op>, times: seq<int>, n: nat)
    requires Run(me, cs, ops, times) && n <= |ops|
    ensures Tidy(cs[n])
  {
    if n > 0 {
      LogHasNoRepeats(me, cs, ops, times, n - 1);
      hide Do, Possible, Tidy;
      var op := ops[n - 1];
      assert cs[n - 1 + 1] == Do(cs[n - 1], me, op, times[n - 1]);
      DoIsTidy(cs[n - 1], me, op, times[n - 1]);
    }
  }

  // ----- A message of one's own -----

  /** Both the optimistic entry of a message and the message as the server stored it are in the log. */
  ghost predicate ShownTwice(c: Client, clientId: Id, serverId: Id)
  {
    clientId in Ids(c.log) && serverId in Ids(c.log)
  }

  predicate Carries(vs: seq<View>, id: Id)
  {
    exists v :: v in vs && v.id == id
  }

  /** The views an operation brings that are not dropped for the client id they carry. */
  predicate Brings(c: Client, op: Op, id: Id)
  {
    match op
    case Incoming(v) =>
      && v.id == id
      && !(v.clientMessageId.Some? && v.clientMessageId.value != "" && v.clientMessageId.value in c.seen)
    case Synced(vs) => Carries(vs, id)
    case OlderLoaded(vs) => Carries(vs, id)
    case _ => false
  }

  /** Views read from the store carry no client id, and no row has the client id as its own. */
  ghost predicate FromStore(op: Op, clientId: Id)
  {
    match op
    case Incoming(v) => v.id != clientId
    case Synced(vs) => (forall v :: v in vs ==> v.clientMessageId == None) && !Carries(vs, clientId)
    case Loaded(vs) => !Carries(vs, clientId)
    case OlderLoaded(vs) => !Carries(vs, clientId)
    case _ => true
  }

  lemma {:induction false} ReceiveAllSees(c: Client, me: Id, vs: seq<View>, now: int, id: Id)
    requires (forall v :: v in vs ==> v.clientMessageId == None) && id != ""
    ensures id in ReceiveAll(c, me, vs, now).seen <==> id in c.seen || Carries(vs, id)
    decreases |vs|
  {
    if vs != [] {
      ReceiveAllSees(Receive(c, me, vs[0], now), me, vs[1..], now, id);
      assert Carries(vs, id) <==> vs[0].id == id || Carries(vs[1..], id);
    }
  }

  lemma {:induction false} MappedAllCarries(me: Id, vs: seq<View>, now: int, id: Id)
    requires id != ""
    ensures id in Ids(MappedAll(me, vs, now)) <==> Carries(vs, id)
  {
    if vs != [] {
      MappedAllCarries(me, vs[1..], now, id);
      var rest := MappedAll(me, vs[1..], now);
      assert Carries(vs, id) <==> vs[0].id == id || Carries(vs[1..], id);
      if vs[0].id != "" {
        var e := Mapped(me, vs[0], now).value;
        assert Ids([e] + rest) == {e.id} + Ids(rest);
      }
    }
  }

  lemma FinishOlderSees(c: Client, me: Id, vs: seq<View>, now: int, id: Id)
    requires id != ""
    ensures id in FinishOlder(c, me, vs, now).seen <==> id in c.seen || Carries(vs, id)
  {
    MappedAllCarries(me, vs, now, id);
    var mapped := MappedAll(me, vs, now);
    var more := Unseen(mapped, c.seen);
    if id in Ids(mapped) && id !in c.seen {
      var e :| e in mapped && e.id == id;
      assert e in more;
    }
  }

  /**
    A message comes to be shown twice exactly when it is brought without its client id, or
    with one that is not counted as seen, while its optimistic entry is in the log.
    */
  lemma ShownTwiceIff(c: Client, me: Id, op: Op, now: int, clientId: Id, serverId: Id)
    requires Tidy(c) && Possible(c, op) && clientId != "" && serverId != "" && clientId != serverId
    requires FromStore(op, clientId) && !ShownTwice(c, clientId, serverId)
    requires op.Sent? ==> op.clientMessageId != clientId && op.clientMessageId != serverId
    ensures ShownTwice(Do(c, me, op, now), clientId, serverId) <==> clientId in c.seen && Brings(c, op, serverId)
  {
    DoIsTidy(c, me, op, now);
    match op
    case Synced(vs) =>
      ReceiveAllSees(c, me, vs, now, clientId);
      ReceiveAllSees(c, me, vs, now, serverId);
    case Loaded(vs) => MappedAllCarries(me, vs, now, clientId);
    case OlderLoaded(vs) =>
      FinishOlderSees(c, me, vs, now, clientId);
      FinishOlderSees(c, me, vs, now, serverId);
    case _ =>
  }

  /** The stored message reaches the client over the socket only, with its client id; the client id is used first. */
  ghost predicate FanoutOnly(c: Client, op: Op, clientId: Id, serverId: Id)
  {
    && FromStore(op, clientId)
    && match op
       case Incoming(v) => v.id == serverId ==> v.clientMessageId == Some(clientId)
       case Sent(cid, _) => cid != serverId && (cid == clientId ==> serverId !in c.seen)
       case Synced(vs) => !Carries(vs, serverId)
       case Loaded(vs) => !Carries(vs, serverId)
       case OlderLoaded(vs) => !Carries(vs, serverId)
       case _ => true
  }

  lemma FanoutStep(c: Client, me: Id, op: Op, now: int, clientId: Id, serverId: Id)
    requires Tidy(c) && Possible(c, op) && clientId != "" && serverId != "" && clientId != serverId
    requires FanoutOnly(c, op, clientId, serverId) && !ShownTwice(c, clientId, serverId)
    ensures !ShownTwice(Do(c, me, op, now), clientId, serverId)
  {
    if op.Sent? {
      DoIsTidy(c, me, op, now);
    } else {
      ShownTwiceIff(c, me, op, now, clientId, serverId);
    }
  }

  /** However often it is delivered, a message that returns only over the socket is shown once. */
  lemma {:induction false} OwnMessageShownOnce(
      me: Id, cs: seq<Client>, ops: seq<Op>, times: seq<int>, n: nat, clientId: Id, serverId: Id)
    requires Run(me, cs, ops, times) && n <= |ops| && clientId != "" && serverId != "" && clientId != serverId
    requires forall j {:trigger ops[j]} :: 0 <= j < n ==> FanoutOnly(cs[j], ops[j], clientId, serverId)
    ensures !ShownTwice(cs[n], clientId, serverId)
  {
    if n > 0 {
      OwnMessageShownOnce(me, cs, ops, times, n - 1, clientId, serverId);
      LogHasNoRepeats(me, cs, ops, times, n - 1);
      hide Do, Possible, Tidy, ShownTwice, FanoutOnly;
      var op := ops[n - 1];
      assert cs[n - 1 + 1] == Do(cs[n - 1], me, op, times[n - 1]);
      FanoutStep(cs[n - 1], me, op, times[n - 1], clientId, serverId);
    }
  }

  /** A message of one's own that comes back by resynchronisation is shown twice. */
  lemma SyncShowsOwnMessageTwice(me: Id, content: string, t: int) returns (cs: seq<Client>, ops: seq<Op>)
    ensures Run(me, cs, ops, [t, t]) && ShownTwice(cs[2], "client-1", "row-1")
    ensures ops == [Sent("client-1", content), Synced([View("row-1", me, Some(t), content, None)])]
  {
    ops := [Sent("client-1", content), Synced([View("row-1", me, Some(t), content, None)])];
    var sent := Do(Fresh(), me, ops[0], t);
    var synced := Do(sent, me, ops[1], t);
    cs := [Fresh(), sent, synced];
    DoIsTidy(Fresh(), me, ops[0], t);
    DoIsTidy(sent, me, ops[1], t);
    ReceiveAllSees(sent, me, ops[1].views, t, "client-1");
    ReceiveAllSees(sent, me, ops[1].views, t, "row-1");
    assert ops[1].views[0] in ops[1].views;
  }
}
