/**
  The gateway's side of a chat connection: one interval per accepted socket that drops it after
  a silence, and the maps that explain and count disconnects.
  */
module ChatHeartbeat {

  type SocketId = string

  /** Interval and timeout in milliseconds; both are positive. */
  datatype Settings = Settings(interval: int, timeout: int)

  predicate ValidSettings(s: Settings)
  {
    s.interval > 0 && s.timeout > 0
  }

  /** A connected socket.  `stopped`: its heartbeat dropped it.  `closing`: it announced its end. */
  datatype Peer = Peer(accepted: bool, lastSeen: int, stopped: bool, closing: bool)

  datatype Interval = Interval(client: SocketId, due: int)

  /** `intervals` are the timers the environment runs; `timers` is what the gateway remembers of them. */
  datatype Gateway = Gateway(
    now: int, peers: map<SocketId, Peer>, used: set<SocketId>,
    timers: map<SocketId, nat>, intervals: map<nat, Interval>, nextTimer: nat,
    reasons: map<SocketId, string>, overrides: map<SocketId, string>, metrics: map<string, nat>)

  function Start(now: int): Gateway
  {
    Gateway(now, map[], {}, map[], map[], 0, map[], map[], map[])
  }

  // ----- Handlers -----

  function StartHeartbeat(s: Settings, g: Gateway, id: SocketId): Gateway
  {
    g.(timers := g.timers[id := g.nextTimer], nextTimer := g.nextTimer + 1,
       intervals := g.intervals[g.nextTimer := Interval(id, g.now + s.interval)])
  }

  /** A handshake that is not accepted gets neither data nor heartbeat. */
  function Connect(s: Settings, g: Gateway, id: SocketId, accepted: bool): Gateway
  {
    var arrived := g.(peers := g.peers[id := Peer(accepted, g.now, false, false)], used := g.used + {id});
    if accepted then StartHeartbeat(s, arrived, id) else arrived
  }

  function Touch(g: Gateway, id: SocketId): Gateway
    requires id in g.peers
  {
    g.(peers := g.peers[id := g.peers[id].(lastSeen := g.now)])
  }

  function StopHeartbeat(g: Gateway, id: SocketId): Gateway
  {
    g.(intervals := if id in g.timers then g.intervals - {g.timers[id]} else g.intervals, timers := g.timers - {id})
  }

  predicate Silent(s: Settings, g: Gateway, id: SocketId)
    requires id in g.peers
  {
    g.now - g.peers[id].lastSeen > s.timeout
  }

  /** One run of an interval: the socket is dropped, or pinged and looked at again later. */
  function Tick(s: Settings, g: Gateway, timer: nat): Gateway
    requires timer in g.intervals && g.intervals[timer].client in g.peers
  {
    var id := g.intervals[timer].client;
    if Silent(s, g, id) then
      var stopped := StopHeartbeat(g.(overrides := g.overrides[id := "heartbeat-timeout"]), id);
      stopped.(peers := g.peers[id := g.peers[id].(stopped := true)])
    else g.(intervals := g.intervals[timer := Interval(id, g.now + s.interval)])
  }

  /** Only accepted sockets have the handler that notes the reason. */
  function Announce(g: Gateway, id: SocketId, reason: string): Gateway
    requires id in g.peers
  {
    var noted := if g.peers[id].accepted then g.(reasons := g.reasons[id := reason]) else g;
    noted.(peers := g.peers[id := g.peers[id].(closing := true)])
  }

  function Reason(g: Gateway, id: SocketId): string
  {
    if id in g.overrides then g.overrides[id] else if id in g.reasons then g.reasons[id] else "unknown"
  }

  function Count(m: map<string, nat>, reason: string): nat
  {
    if reason in m then m[reason] else 0
  }

  function Disconnect(g: Gateway, id: SocketId): Gateway
    requires id in g.peers
  {
    var stopped := StopHeartbeat(g, id);
    var reason := Reason(g, id);
    stopped.(metrics := g.metrics[reason := Count(g.metrics, reason) + 1],
             reasons := g.reasons - {id}, overrides := g.overrides - {id}, peers := g.peers - {id})
  }

  datatype Op =
    | Connects(id: SocketId, accepted: bool)
    | Message(id: SocketId)
    | Fires(timer: nat)
    | Disconnecting(id: SocketId, reason: string)
    | Disconnected(id: SocketId)
    | Wait(ms: nat)

  /** Socket ids are not reused, a socket announces its end before it ends, and intervals run on time. */
  predicate Possible(g: Gateway, op: Op)
  {
    match op
    case Connects(id, _) => id !in g.used
    case Message(id) => id in g.peers && g.peers[id].accepted && !g.peers[id].closing
    case Fires(t) => t in g.intervals && g.intervals[t].due == g.now && g.intervals[t].client in g.peers
    case Disconnecting(id, _) => id in g.peers && !g.peers[id].closing
    case Disconnected(id) => id in g.peers && g.peers[id].closing
    case Wait(ms) => forall t :: t in g.intervals ==> g.now + ms <= g.intervals[t].due
  }

  function Do(s: Settings, g: Gateway, op: Op): Gateway
    requires Possible(g, op)
  {
    match op
    case Connects(id, accepted) => Connect(s, g, id, accepted)
    case Message(id) => Touch(g, id)
    case Fires(t) => Tick(s, g, t)
    case Disconnecting(id, reason) => Announce(g, id, reason)
    case Disconnected(id) => Disconnect(g, id)
    case Wait(ms) => g.(now := g.now + ms)
  }

  ghost predicate Run(s: Settings, gs: seq<Gateway>, ops: seq<Op>)
  {
    && ValidSettings(s) && |gs| == |ops| + 1
    && gs[0] == Start(gs[0].now)
    && forall n {:trigger ops[n]} :: 0 <= n < |ops| ==> Possible(gs[n], ops[n]) && gs[n + 1] == Do(s, gs[n], ops[n])
  }

  // ----- What every run keeps -----

  /** The sockets the heartbeat watches. */
  predicate Watched(g: Gateway, id: SocketId)
  {
    id in g.peers && g.peers[id].accepted && !g.peers[id].stopped
  }

  /** Timers are exactly those of the watched sockets, and each is the one interval running for its socket. */
  ghost predicate TimersMatch(g: Gateway)
  {
    && (forall id :: id in g.timers <==> Watched(g, id))
    && (forall id :: id in g.timers ==>
          g.timers[id] in g.intervals && g.intervals[g.timers[id]].client == id && g.timers[id] < g.nextTimer)
    && (forall t :: t in g.intervals ==>
          g.intervals[t].client in g.timers && g.timers[g.intervals[t].client] == t)
  }

  /** A watched socket was seen recently enough for its next check to come in time. */
  ghost predicate SeenInTime(s: Settings, g: Gateway)
  {
    && (forall t :: t in g.intervals ==> g.now <= g.intervals[t].due <= g.now + s.interval)
    && (forall t :: t in g.intervals && g.intervals[t].client in g.peers ==>
          g.intervals[t].due - g.peers[g.intervals[t].client].lastSeen <= s.timeout + s.interval)
  }

  /** Only sockets that are still there have a reason or an override noted. */
  ghost predicate NothingLeaks(g: Gateway)
  {
    && (forall id :: id in g.peers ==> id in g.used)
    && (forall id :: id in g.reasons <==> id in g.peers && g.peers[id].closing && g.peers[id].accepted)
    && (forall id :: id in g.overrides <==> id in g.peers && g.peers[id].stopped)
    && (forall id :: id in g.overrides ==> g.overrides[id] == "heartbeat-timeout" && g.peers[id].accepted)
  }

  ghost predicate Inv(s: Settings, g: Gateway)
  {
    TimersMatch(g) && SeenInTime(s, g) && NothingLeaks(g)
  }

  lemma ConnectKeepsTimers(s: Settings, g: Gateway, id: SocketId, accepted: bool)
    requires TimersMatch(g) && id !in g.peers
    ensures TimersMatch(Connect(s, g, id, accepted))
  {
    assert id !in g.timers && g.nextTimer !in g.intervals;
  }

  lemma ConnectKeepsTime(s: Settings, g: Gateway, id: SocketId, accepted: bool)
    requires ValidSettings(s) && TimersMatch(g) && SeenInTime(s, g) && id !in g.peers
    ensures SeenInTime(s, Connect(s, g, id, accepted))
  {
    assert id !in g.timers;
  }

  lemma ConnectKeepsReasons(s: Settings, g: Gateway, id: SocketId, accepted: bool)
    requires NothingLeaks(g) && id !in g.used
    ensures NothingLeaks(Connect(s, g, id, accepted))
  {}

  /** The peers, timers and intervals of a gateway fit together after one socket is no longer watched. */
  lemma StopKeepsTimers(g: Gateway, id: SocketId, after: Gateway)
    requires TimersMatch(g)
    requires after.timers == StopHeartbeat(g, id).timers && after.intervals == StopHeartbeat(g, id).intervals
    requires after.nextTimer == g.nextTimer && !Watched(after, id)
    requires forall j :: j != id ==> (Watched(after, j) <==> Watched(g, j))
    ensures TimersMatch(after)
  {
    forall t | t in after.intervals
      ensures after.intervals[t].client in after.timers && after.timers[after.intervals[t].client] == t
    {
      assert g.intervals[t].client != id;
    }
  }

  lemma TickKeepsTimers(s: Settings, g: Gateway, t: nat)
    requires TimersMatch(g) && t in g.intervals && g.intervals[t].client in g.peers
    ensures TimersMatch(Tick(s, g, t))
  {
    if Silent(s, g, g.intervals[t].client) {
      StopKeepsTimers(g, g.intervals[t].client, Tick(s, g, t));
    }
  }

  lemma TickKeepsRest(s: Settings, g: Gateway, t: nat)
    requires ValidSettings(s) && Inv(s, g) && t in g.intervals && g.intervals[t].client in g.peers
    requires g.intervals[t].due == g.now
    ensures SeenInTime(s, Tick(s, g, t)) && NothingLeaks(Tick(s, g, t))
  {
    TickKeepsTime(s, g, t);
    TickKeepsReasons(s, g, t);
    hide SeenInTime, NothingLeaks, TimersMatch, Tick;
  }

  lemma TickKeepsTime(s: Settings, g: Gateway, t: nat)
    requires ValidSettings(s) && SeenInTime(s, g) && t in g.intervals && g.intervals[t].client in g.peers
    requires g.intervals[t].due == g.now
    ensures SeenInTime(s, Tick(s, g, t))
  {}

  lemma TickKeepsReasons(s: Settings, g: Gateway, t: nat)
    requires TimersMatch(g) && NothingLeaks(g) && t in g.intervals && g.intervals[t].client in g.peers
    ensures NothingLeaks(Tick(s, g, t))
  {
    var id, after := g.intervals[t].client, Tick(s, g, t);
    assert id in g.timers && Watched(g, id);
    hide TimersMatch;
    if Silent(s, g, id) {
      DroppedKeepsReasons(g, after, id);
      hide NothingLeaks;
    }
  }

  lemma DroppedKeepsReasons(g: Gateway, after: Gateway, id: SocketId)
    requires NothingLeaks(g) && id in g.peers && g.peers[id].accepted
    requires after.peers == g.peers[id := g.peers[id].(stopped := true)] && after.used == g.used
    requires after.reasons == g.reasons && after.overrides == g.overrides[id := "heartbeat-timeout"]
    ensures NothingLeaks(after)
  {}

  lemma DisconnectKeepsInv(s: Settings, g: Gateway, id: SocketId)
    requires Inv(s, g) && id in g.peers
    ensures Inv(s, Disconnect(g, id))
  {
    StopKeepsTimers(g, id, Disconnect(g, id));
  }

  lemma AnnounceKeepsInv(s: Settings, g: Gateway, id: SocketId, reason: string)
    requires Inv(s, g) && id in g.peers
    ensures Inv(s, Announce(g, id, reason))
  {
    SameWatch(g, Announce(g, id, reason));
    AnnounceKeepsReasons(g, id, reason);
    hide TimersMatch, NothingLeaks;
  }

  lemma AnnounceKeepsReasons(g: Gateway, id: SocketId, reason: string)
    requires NothingLeaks(g) && id in g.peers
    ensures NothingLeaks(Announce(g, id, reason))
  {
    var after := Announce(g, id, reason);
    forall j
      ensures j in after.reasons <==> j in after.peers && after.peers[j].closing && after.peers[j].accepted
      ensures j in after.overrides <==> j in after.peers && after.peers[j].stopped
    {
      assert j in g.reasons <==> j in g.peers && g.peers[j].closing && g.peers[j].accepted;
      assert j in g.overrides <==> j in g.peers && g.peers[j].stopped;
    }
  }

  lemma TouchKeepsInv(s: Settings, g: Gateway, id: SocketId)
    requires ValidSettings(s) && Inv(s, g) && id in g.peers
    ensures Inv(s, Touch(g, id))
  {
    SameWatch(g, Touch(g, id));
  }

  lemma SameWatch(g: Gateway, after: Gateway)
    requires TimersMatch(g) && after.timers == g.timers && after.intervals == g.intervals
    requires after.nextTimer == g.nextTimer
    requires forall j :: Watched(after, j) <==> Watched(g, j)
    ensures TimersMatch(after)
  {}

  lemma DoKeepsInv(s: Settings, g: Gateway, op: Op)
    requires ValidSettings(s) && Inv(s, g) && Possible(g, op)
    ensures Inv(s, Do(s, g, op))
  {
    match op
    case Connects(id, accepted) =>
      assert id !in g.peers;
      ConnectKeepsTimers(s, g, id, accepted);
      ConnectKeepsTime(s, g, id, accepted);
      ConnectKeepsReasons(s, g, id, accepted);
    case Message(id) => TouchKeepsInv(s, g, id);
    case Fires(t) =>
      TickKeepsTimers(s, g, t);
      TickKeepsRest(s, g, t);
    case Disconnecting(id, reason) => AnnounceKeepsInv(s, g, id, reason);
    case Disconnected(id) => DisconnectKeepsInv(s, g, id);
    case Wait(ms) => SameWatch(g, Do(s, g, op));
  }

  lemma {:induction false} RunKeepsInv(s: Settings, gs: seq<Gateway>, ops: seq<Op>, n: nat)
    requires Run(s, gs, ops) && n <= |ops|
    ensures Inv(s, gs[n])
  {
    if n > 0 {
      RunKeepsInv(s, gs, ops, n - 1);
      hide Do, Possible, Inv;
      assert gs[n - 1 + 1] == Do(s, gs[n - 1], ops[n - 1]);
      DoKeepsInv(s, gs[n - 1], ops[n - 1]);
    }
  }

  // ----- What the heartbeat guarantees -----

  /** Timers and their intervals exist for exactly the sockets that are watched. */
  lemma TimersAreTheWatched(s: Settings, gs: seq<Gateway>, ops: seq<Op>, n: nat)
    requires Run(s, gs, ops) && n <= |ops|
    ensures forall id :: id in gs[n].timers <==> Watched(gs[n], id)
    ensures forall t :: t in gs[n].intervals ==> Watched(gs[n], gs[n].intervals[t].client)
    ensures gs[n].intervals.Keys == gs[n].timers.Values
  {
    RunKeepsInv(s, gs, ops, n);
    var g := gs[n];
    forall t
      ensures t in g.intervals.Keys <==> t in g.timers.Values
    {
      if t in g.intervals {
        assert g.timers[g.intervals[t].client] == t;
      }
    }
  }

  /** No watched socket has been silent for longer than the timeout and one interval. */
  lemma SilenceIsBounded(s: Settings, gs: seq<Gateway>, ops: seq<Op>, n: nat, id: SocketId)
    requires Run(s, gs, ops) && n <= |ops| && Watched(gs[n], id)
    ensures gs[n].now <= gs[n].peers[id].lastSeen + s.timeout + s.interval
  {
    RunKeepsInv(s, gs, ops, n);
    assert id in gs[n].timers;
  }

  /** A message or an accepted connection of this socket. */
  predicate Sees(op: Op, id: SocketId)
  {
    op == Message(id) || op == Connects(id, true)
  }

  /** While a socket stays, when it was last seen only moves forward. */
  lemma {:induction false} LastSeenIsLatest(s: Settings, gs: seq<Gateway>, ops: seq<Op>, j: nat, n: nat, id: SocketId)
    requires Run(s, gs, ops) && j < n <= |ops| && Sees(ops[j], id) && id in gs[n].peers
    ensures gs[n].peers[id].lastSeen >= gs[j].now
    decreases n
  {
    hide Do, Possible, Sees, TimersMatch, SeenInTime;
    var g, op := gs[n - 1], ops[n - 1];
    assert gs[n - 1 + 1] == Do(s, g, op);
    if j == n - 1 {
      SeenNow(s, g, op, id);
    } else {
      RunKeepsInv(s, gs, ops, n - 1);
      UsedStays(s, gs, ops, j, n - 1, id);
      StaysIfUsed(s, g, op, id);
      LastSeenIsLatest(s, gs, ops, j, n - 1, id);
      TimeGrows(s, gs, ops, j, n - 1);
      LastSeenStep(s, g, op, id);
    }
  }

  lemma SeenNow(s: Settings, g: Gateway, op: Op, id: SocketId)
    requires Possible(g, op) && Sees(op, id) && id in Do(s, g, op).peers
    ensures Do(s, g, op).peers[id].lastSeen == g.now
  {}

  /** A socket whose id was used before the step was there before it. */
  lemma StaysIfUsed(s: Settings, g: Gateway, op: Op, id: SocketId)
    requires Possible(g, op) && id in g.used && id in Do(s, g, op).peers
    ensures id in g.peers
  {}

  lemma LastSeenStep(s: Settings, g: Gateway, op: Op, id: SocketId)
    requires Possible(g, op) && id in g.peers && id in Do(s, g, op).peers && id in g.used
    ensures Do(s, g, op).peers[id].lastSeen >= g.peers[id].lastSeen || Do(s, g, op).peers[id].lastSeen == g.now
  {}

  lemma UsedGrows(s: Settings, g: Gateway, op: Op, id: SocketId)
    requires Possible(g, op)
    ensures g.used <= Do(s, g, op).used
    ensures Sees(op, id) ==> id in Do(s, g, op).used || id in g.peers
  {}

  lemma {:induction false} UsedStays(s: Settings, gs: seq<Gateway>, ops: seq<Op>, j: nat, n: nat, id: SocketId)
    requires Run(s, gs, ops) && j < n <= |ops| && Sees(ops[j], id)
    ensures id in gs[n].used
    decreases n
  {
    hide Do, Possible, Sees, TimersMatch, SeenInTime;
    assert gs[n - 1 + 1] == Do(s, gs[n - 1], ops[n - 1]);
    RunKeepsInv(s, gs, ops, n - 1);
    UsedGrows(s, gs[n - 1], ops[n - 1], id);
    if j < n - 1 {
      UsedStays(s, gs, ops, j, n - 1, id);
    }
  }

  lemma {:induction false} TimeGrows(s: Settings, gs: seq<Gateway>, ops: seq<Op>, j: nat, n: nat)
    requires Run(s, gs, ops) && j <= n <= |ops|
    ensures gs[j].now <= gs[n].now
    decreases n
  {
    if j < n {
      assert gs[n - 1 + 1] == Do(s, gs[n - 1], ops[n - 1]);
      TimeGrows(s, gs, ops, j, n - 1);
    }
  }

  /** A check drops its socket if and only if it has not been seen for the timeout. */
  lemma DroppedIffSilent(s: Settings, gs: seq<Gateway>, ops: seq<Op>, n: nat)
    requires Run(s, gs, ops) && n < |ops| && ops[n].Fires?
    ensures var id := gs[n].intervals[ops[n].timer].client;
            && Watched(gs[n], id)
            && (!Watched(gs[n + 1], id) <==> gs[n].now - gs[n].peers[id].lastSeen > s.timeout)
  {
    RunKeepsInv(s, gs, ops, n);
    assert gs[n + 1] == Do(s, gs[n], ops[n]);
  }

  /** A socket that was seen within the timeout survives its check. */
  lemma SeenSocketsAreKept(s: Settings, gs: seq<Gateway>, ops: seq<Op>, j: nat, n: nat, id: SocketId)
    requires Run(s, gs, ops) && j < n < |ops| && Sees(ops[j], id) && gs[n].now <= gs[j].now + s.timeout
    requires ops[n].Fires? && gs[n].intervals[ops[n].timer].client == id
    ensures Watched(gs[n + 1], id)
  {
    DroppedIffSilent(s, gs, ops, n);
    LastSeenIsLatest(s, gs, ops, j, n, id);
  }

  const PING_INTERVAL: int := 15_000
  const LONGEST_DELAY: int := 45_000

  /** Pings sent from a connection on, at most 15 seconds apart up to now, arriving after at most 45 seconds. */
  ghost predicate Steady(connected: int, sent: seq<int>, arrived: seq<int>, now: int)
  {
    && |arrived| == |sent|
    && (forall i :: 0 <= i < |sent| ==> sent[i] <= arrived[i] <= sent[i] + LONGEST_DELAY)
    && (forall i :: 0 <= i < |sent| ==> sent[i] <= (if i == 0 then connected else sent[i - 1]) + PING_INTERVAL)
    && now <= (if sent == [] then connected else sent[|sent| - 1]) + PING_INTERVAL
  }

  /** With steady pings, one of them or the connection itself came in during the last minute. */
  lemma {:induction false} PingWithinMinute(connected: int, sent: seq<int>, arrived: seq<int>, now: int, k: nat)
    returns (i: nat)
    requires Steady(connected, sent, arrived, now) && k <= |sent|
    requires forall j :: k <= j < |sent| ==> now < sent[j] + LONGEST_DELAY
    ensures i <= |sent|
    ensures if i == |sent| then now <= connected + PING_INTERVAL + LONGEST_DELAY
            else arrived[i] <= now <= arrived[i] + PING_INTERVAL + LONGEST_DELAY
    decreases k
  {
    if k < |sent| {
      assert sent[k] <= (if k == 0 then connected else sent[k - 1]) + PING_INTERVAL;
    }
    if k == 0 {
      i := |sent|;
    } else if sent[k - 1] + LONGEST_DELAY <= now {
      i := k - 1;
    } else {
      i := PingWithinMinute(connected, sent, arrived, now, k - 1);
    }
  }

  /**
    A client that pings every 15 seconds over a connection that delays by at most 45 seconds is
    never dropped by a heartbeat whose timeout is a minute or longer.
    */
  lemma SteadyPingsKeepSocket(s: Settings, gs: seq<Gateway>, ops: seq<Op>, n: nat, id: SocketId,
                              start: nat, sent: seq<int>, arrived: seq<int>, steps: seq<nat>)
    requires Run(s, gs, ops) && start < n < |ops| && s.timeout >= PING_INTERVAL + LONGEST_DELAY
    requires ops[start] == Connects(id, true) && Steady(gs[start].now, sent, arrived, gs[n].now)
    requires |steps| == |sent|
    requires forall i :: 0 <= i < |sent| && arrived[i] <= gs[n].now ==>
               steps[i] < n && ops[steps[i]] == Message(id) && gs[steps[i]].now == arrived[i]
    requires ops[n].Fires? && gs[n].intervals[ops[n].timer].client == id
    ensures Watched(gs[n + 1], id)
  {
    var i := PingWithinMinute(gs[start].now, sent, arrived, gs[n].now, |sent|);
    SeenSocketsAreKept(s, gs, ops, if i == |sent| then start else steps[i], n, id);
  }

  // ----- Reasons and counts -----

  /** Nothing is remembered of a socket that is gone. */
  lemma GoneSocketsAreForgotten(s: Settings, gs: seq<Gateway>, ops: seq<Op>, n: nat, id: SocketId)
    requires Run(s, gs, ops) && n <= |ops| && id !in gs[n].peers
    ensures id !in gs[n].timers && id !in gs[n].reasons && id !in gs[n].overrides
    ensures forall t :: t in gs[n].intervals ==> gs[n].intervals[t].client != id
  {
    RunKeepsInv(s, gs, ops, n);
  }

  /** The socket has announced its end; if accepted, with this reason. */
  ghost predicate Announced(g: Gateway, id: SocketId, reason: string)
  {
    && id in g.peers && g.peers[id].closing
    && (g.peers[id].accepted ==> id in g.reasons && g.reasons[id] == reason)
  }

  lemma AnnouncedStays(s: Settings, g: Gateway, op: Op, id: SocketId, reason: string)
    requires Possible(g, op) && Announced(g, id, reason) && id in g.used && id in Do(s, g, op).peers
    ensures Announced(Do(s, g, op), id, reason)
  {}

  lemma {:induction false} ReasonStays(s: Settings, gs: seq<Gateway>, ops: seq<Op>, j: nat, n: nat, id: SocketId)
    requires Run(s, gs, ops) && j < n <= |ops| && ops[j].Disconnecting? && ops[j].id == id && id in gs[n].peers
    ensures Announced(gs[n], id, ops[j].reason)
    decreases n
  {
    var g, op := gs[n - 1], ops[n - 1];
    assert gs[n - 1 + 1] == Do(s, g, op);
    RunKeepsInv(s, gs, ops, n - 1);
    if j < n - 1 {
      assert id in gs[j].peers;
      PeerWasThere(s, gs, ops, j, n - 1, id);
      ReasonStays(s, gs, ops, j, n - 1, id);
      assert Possible(g, op) && id in g.used;
      hide Run, Inv, Do, Possible, Announced;
      AnnouncedStays(s, g, op, id, ops[j].reason);
    }
  }

  /** A socket that is there now and was there before was there in between. */
  lemma PeerWasThere(s: Settings, gs: seq<Gateway>, ops: seq<Op>, j: nat, n: nat, id: SocketId)
    requires Run(s, gs, ops) && j <= n < |ops| && id in gs[j].peers && id in gs[n + 1].peers
    ensures id in gs[n].peers
  {
    assert gs[n + 1] == Do(s, gs[n], ops[n]);
    RunKeepsInv(s, gs, ops, j);
    StillUsed(s, gs, ops, j, n, id);
  }

  lemma {:induction false} StillUsed(s: Settings, gs: seq<Gateway>, ops: seq<Op>, j: nat, n: nat, id: SocketId)
    requires Run(s, gs, ops) && j <= n <= |ops| && id in gs[j].used
    ensures id in gs[n].used
    decreases n
  {
    if j < n {
      assert gs[n - 1 + 1] == Do(s, gs[n - 1], ops[n - 1]);
      StillUsed(s, gs, ops, j, n - 1, id);
    }
  }

  /** A disconnect counts under the heartbeat if that dropped it, else under the reason it announced. */
  lemma ReasonIsRight(s: Settings, gs: seq<Gateway>, ops: seq<Op>, j: nat, n: nat, id: SocketId)
    requires Run(s, gs, ops) && j < n < |ops| && ops[n] == Disconnected(id)
    requires ops[j].Disconnecting? && ops[j].id == id
    ensures var peer := gs[n].peers[id];
            Reason(gs[n], id) == if peer.stopped then "heartbeat-timeout"
                                 else if peer.accepted then ops[j].reason else "unknown"
  {
    RunKeepsInv(s, gs, ops, n);
    ReasonStays(s, gs, ops, j, n, id);
  }

  /** How many disconnects were for this reason. */
  function Counted(gs: seq<Gateway>, ops: seq<Op>, n: nat, reason: string): nat
    requires n <= |ops| < |gs|
  {
    if n == 0 then 0
    else
      Counted(gs, ops, n - 1, reason)
      + if ops[n - 1].Disconnected? && Reason(gs[n - 1], ops[n - 1].id) == reason then 1 else 0
  }

  /** Every metric is the number of disconnects for its reason. */
  lemma {:induction false} MetricsCount(s: Settings, gs: seq<Gateway>, ops: seq<Op>, n: nat, reason: string)
    requires Run(s, gs, ops) && n <= |ops|
    ensures Count(gs[n].metrics, reason) == Counted(gs, ops, n, reason)
  {
    if n > 0 {
      assert gs[n - 1 + 1] == Do(s, gs[n - 1], ops[n - 1]);
      MetricsCount(s, gs, ops, n - 1, reason);
    }
  }

  function Disconnects(ops: seq<Op>, n: nat): nat
    requires n <= |ops|
  {
    if n == 0 then 0 else Disconnects(ops, n - 1) + if ops[n - 1].Disconnected? then 1 else 0
  }

  /** The sum of the counts under a set of reasons. */
  ghost function Sum(m: map<string, nat>, reasons: set<string>): nat
    decreases |reasons|
  {
    if reasons == {} then 0
    else
      var r :| r in reasons;
      Count(m, r) + Sum(m, reasons - {r})
  }

  lemma {:induction false} SumTakes(m: map<string, nat>, reasons: set<string>, r: string)
    requires r in reasons
    ensures Sum(m, reasons) == Count(m, r) + Sum(m, reasons - {r})
    decreases |reasons|
  {
    var q :| q in reasons && Sum(m, reasons) == Count(m, q) + Sum(m, reasons - {q});
    if q != r {
      SumTakes(m, reasons - {q}, r);
      SumTakes(m, reasons - {r}, q);
      assert reasons - {q} - {r} == reasons - {r} - {q};
    }
  }

  lemma {:induction false} SumAgrees(m: map<string, nat>, k: map<string, nat>, reasons: set<string>)
    requires forall r :: r in reasons ==> Count(m, r) == Count(k, r)
    ensures Sum(m, reasons) == Sum(k, reasons)
    decreases |reasons|
  {
    if reasons != {} {
      var r :| r in reasons;
      SumTakes(m, reasons, r);
      SumTakes(k, reasons, r);
      SumAgrees(m, k, reasons - {r});
    }
  }

  lemma SumGrows(m: map<string, nat>, r: string)
    ensures var k := m[r := Count(m, r) + 1]; Sum(k, k.Keys) == Sum(m, m.Keys) + 1
  {
    var k := m[r := Count(m, r) + 1];
    SumTakes(k, k.Keys, r);
    SumAgrees(m, k, k.Keys - {r});
    if r in m {
      SumTakes(m, m.Keys, r);
      assert k.Keys - {r} == m.Keys - {r};
    } else {
      assert k.Keys - {r} == m.Keys;
    }
  }

  /** Only a disconnect counts, and it counts once. */
  lemma MetricsStep(s: Settings, g: Gateway, op: Op)
    requires Possible(g, op)
    ensures Do(s, g, op).metrics == if op.Disconnected?
                                    then g.metrics[Reason(g, op.id) := Count(g.metrics, Reason(g, op.id)) + 1]
                                    else g.metrics
  {}

  /** All counts together are the number of disconnects. */
  lemma {:induction false} MetricsSum(s: Settings, gs: seq<Gateway>, ops: seq<Op>, n: nat)
    requires Run(s, gs, ops) && n <= |ops|
    ensures Sum(gs[n].metrics, gs[n].metrics.Keys) == Disconnects(ops, n)
  {
    if n > 0 {
      hide Do, Possible, Sum, Reason, Count;
      var g, op := gs[n - 1], ops[n - 1];
      assert gs[n - 1 + 1] == Do(s, g, op);
      MetricsSum(s, gs, ops, n - 1);
      MetricsStep(s, g, op);
      if op.Disconnected? {
        SumGrows(g.metrics, Reason(g, op.id));
      }
    }
  }
}
