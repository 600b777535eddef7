/**
  The chat gateway's handlers as they update its maps.  Each is one step of the heartbeat
  machine and keeps its invariant: the timers are those of the watched sockets, nobody watched
  is silent for longer than timeout and interval, and no map keeps an id that is gone.
  */
module ChatGateway {
  import opened Common
  import opened ChatHeartbeat

  /** What the handshake holds, and the subject of its token if the token verifies. */
  datatype Handshake = Handshake(coupleId: string, userId: string, token: string, subject: Option<string>)

  predicate Accepted(h: Handshake)
  {
    h.coupleId != "" && h.userId != "" && h.token != "" && h.subject == Some(h.userId)
  }

  /** The checks on a handshake, in order. */
  method Authenticate(h: Handshake) returns (accepted: bool)
    ensures accepted == Accepted(h)
  {
    if h.coupleId == "" || h.userId == "" || h.token == "" {
      return false;
    }
    if h.subject != Some(h.userId) {
      return false;
    }
    accepted := true;
  }

  lemma NewSocketHasNoTimer(s: Settings, g: Gateway, id: SocketId)
    requires Inv(s, g) && id !in g.used
    ensures id !in g.timers
  {}

  class ChatGateway {
    const settings: Settings

    var now: int
    var peers: map<SocketId, Peer>
    ghost var used: set<SocketId>
    var heartbeatTimers: map<SocketId, nat>
    var intervals: map<nat, Interval>
    var nextTimer: nat
    var disconnectReasons: map<SocketId, string>
    var disconnectReasonOverrides: map<SocketId, string>
    var disconnectMetrics: map<string, nat>

    ghost function State(): Gateway
      reads this
    {
      Gateway(now, peers, used, heartbeatTimers, intervals, nextTimer,
              disconnectReasons, disconnectReasonOverrides, disconnectMetrics)
    }

    ghost predicate Valid()
      reads this
    {
      ValidSettings(settings) && Inv(settings, State())
    }

    constructor (settings: Settings, now: int)
      requires ValidSettings(settings)
      ensures State() == Start(now) && this.settings == settings
      ensures Valid()
    {
      this.settings, this.now := settings, now;
      peers, used, heartbeatTimers, intervals, nextTimer := map[], {}, map[], map[], 0;
      disconnectReasons, disconnectReasonOverrides, disconnectMetrics := map[], map[], map[];
    }

    /** Time passes, but no interval is late. */
    method Wait(ms: nat)
      requires Valid() && Possible(State(), ChatHeartbeat.Wait(ms))
      modifies this`now
      ensures State() == Do(settings, old(State()), ChatHeartbeat.Wait(ms))
      ensures Valid()
    {
      hide Inv;
      DoKeepsInv(settings, State(), ChatHeartbeat.Wait(ms));
      now := now + ms;
    }

    method HandleConnection(id: SocketId, handshake: Handshake)
      requires Valid() && id !in used
      modifies this
      ensures State() == Do(settings, old(State()), Connects(id, Accepted(handshake)))
      ensures Valid()
      ensures id in heartbeatTimers <==>
                && handshake.coupleId != "" && handshake.userId != "" && handshake.token != ""
                && handshake.subject.Some? && handshake.subject.value == handshake.userId
    {
      hide Inv;
      ghost var before := State();
      DoKeepsInv(settings, before, Connects(id, Accepted(handshake)));
      NewSocketHasNoTimer(settings, before, id);
      var accepted := Authenticate(handshake);
      used, peers := used + {id}, peers[id := Peer(accepted, now, false, false)];
      if accepted {
        StartHeartbeat(id);
        assert State() == Do(settings, before, Connects(id, true));
      } else {
        assert State() == Do(settings, before, Connects(id, false));
      }
    }

    method StartHeartbeat(id: SocketId)
      modifies this`intervals, this`heartbeatTimers, this`nextTimer
      ensures State() == ChatHeartbeat.StartHeartbeat(settings, old(State()), id)
    {
      intervals := intervals[nextTimer := Interval(id, now + settings.interval)];
      heartbeatTimers := heartbeatTimers[id := nextTimer];
      nextTimer := nextTimer + 1;
    }

    method StopHeartbeat(id: SocketId)
      modifies this`intervals, this`heartbeatTimers
      ensures State() == ChatHeartbeat.StopHeartbeat(old(State()), id)
    {
      if id in heartbeatTimers {
        intervals := intervals - {heartbeatTimers[id]};
      }
      heartbeatTimers := heartbeatTimers - {id};
    }

    method HandleMessage(id: SocketId)
      requires Valid() && id in peers && peers[id].accepted && !peers[id].closing
      modifies this
      ensures State() == Do(settings, old(State()), Message(id))
      ensures Valid()
    {
      hide Inv;
      DoKeepsInv(settings, State(), Message(id));
      peers := peers[id := peers[id].(lastSeen := now)];
    }

    /** One run of a heartbeat interval. */
    method OnInterval(timer: nat)
      requires Valid() && timer in intervals && intervals[timer].due == now && intervals[timer].client in peers
      modifies this
      ensures State() == Do(settings, old(State()), Fires(timer))
      ensures Valid()
    {
      hide Inv;
      ghost var before := State();
      DoKeepsInv(settings, before, Fires(timer));
      var id := intervals[timer].client;
      var lastSeen := peers[id].lastSeen;
      if now - lastSeen > settings.timeout {
        disconnectReasonOverrides := disconnectReasonOverrides[id := "heartbeat-timeout"];
        StopHeartbeat(id);
        peers := peers[id := peers[id].(stopped := true)];
        assert State() == Tick(settings, before, timer);
        return;
      }
      intervals := intervals[timer := Interval(id, now + settings.interval)];
      assert State() == Tick(settings, before, timer);
    }

    method OnDisconnecting(id: SocketId, reason: string)
      requires Valid() && id in peers && !peers[id].closing
      modifies this
      ensures State() == Do(settings, old(State()), Disconnecting(id, reason))
      ensures Valid()
    {
      hide Inv;
      DoKeepsInv(settings, State(), Disconnecting(id, reason));
      if peers[id].accepted {
        disconnectReasons := disconnectReasons[id := reason];
      }
      peers := peers[id := peers[id].(closing := true)];
    }

    method HandleDisconnect(id: SocketId)
      requires Valid() && id in peers && peers[id].closing
      modifies this
      ensures State() == Do(settings, old(State()), Disconnected(id))
      ensures Valid()
    {
      hide Inv;
      ghost var before := State();
      DoKeepsInv(settings, before, Disconnected(id));
      StopHeartbeat(id);
      var reason :=
        if id in disconnectReasonOverrides then disconnectReasonOverrides[id]
        else if id in disconnectReasons then disconnectReasons[id]
        else "unknown";
      RecordDisconnectMetric(reason);
      disconnectReasons := disconnectReasons - {id};
      disconnectReasonOverrides := disconnectReasonOverrides - {id};
      peers := peers - {id};
      assert State() == Disconnect(before, id);
    }

    method RecordDisconnectMetric(reason: string)
      modifies this`disconnectMetrics
      ensures disconnectMetrics == old(disconnectMetrics)[reason := Count(old(disconnectMetrics), reason) + 1]
    {
      var current := if reason in disconnectMetrics then disconnectMetrics[reason] else 0;
      disconnectMetrics := disconnectMetrics[reason := current + 1];
    }
  }
}
