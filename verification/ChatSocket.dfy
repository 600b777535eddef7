/**
  The chat tab's connection handlers as they update their references.  Each is one step of the
  connection machine and keeps its invariant: one timer at most, none after unmounting, one
  while a mounted client is down, and no live socket silent for long.
  */
module ChatSocket {
  import opened Common
  import opened ChatConnection

  class ChatSocket {
    var now: int
    var socket: Socket
    var status: Status
    var isUnmounting: bool
    var reconnectTimeout: Option<nat>
    var pending: map<nat, int>
    var nextTimer: nat
    var reconnectAttempt: nat
    var lastActivity: int
    var healthDue: Option<int>

    ghost function State(): Link
      reads this
    {
      Link(now, socket, status, isUnmounting, reconnectTimeout, pending, nextTimer, reconnectAttempt, lastActivity,
           healthDue)
    }

    ghost predicate Valid()
      reads this
    {
      Inv(State())
    }

    constructor (now: int)
      ensures State() == Start(now)
      ensures Valid()
    {
      this.now := now;
      socket, status, isUnmounting, reconnectTimeout := Down, IsConnecting, true, None;
      pending, nextTimer, reconnectAttempt, lastActivity, healthDue := map[], 0, 0, 0, None;
    }

    /** Time passes, but no timer is late. */
    method Wait(ms: nat)
      requires Valid() && Possible(State(), ChatConnection.Wait(ms))
      modifies this`now
      ensures State() == Do(old(State()), ChatConnection.Wait(ms))
      ensures Valid()
    {
      hide Inv;
      DoKeepsInv(State(), ChatConnection.Wait(ms));
      now := now + ms;
    }

    method ClearReconnectTimer()
      modifies this`pending, this`reconnectTimeout, this`reconnectAttempt
      ensures State() == ClearTimer(old(State()))
    {
      if reconnectTimeout.Some? {
        pending := pending - {reconnectTimeout.value};
        reconnectTimeout := None;
      }
      reconnectAttempt := 0;
    }

    method ScheduleReconnect(random: real)
      modifies this`pending, this`reconnectTimeout, this`reconnectAttempt, this`nextTimer, this`status
      ensures State() == Schedule(old(State()), random)
    {
      hide Delay;
      if reconnectTimeout.Some? || isUnmounting {
        return;
      }
      var attempt := reconnectAttempt + 1;
      reconnectAttempt := attempt;
      var delay := Delay(attempt, random);
      status := IsReconnecting;
      pending := pending[nextTimer := now + delay];
      reconnectTimeout, nextTimer := Some(nextTimer), nextTimer + 1;
    }

    /** The timer's own callback. */
    method Reconnect(timer: nat)
      requires Valid() && timer in pending && pending[timer] == now
      modifies this
      ensures State() == Do(old(State()), TimerFires(timer))
      ensures Valid()
    {
      hide Inv;
      DoKeepsInv(State(), TimerFires(timer));
      pending := pending - {timer};
      reconnectTimeout := None;
      if socket == Down {
        socket := Connecting;
      }
    }

    method Mount()
      requires Valid() && isUnmounting
      modifies this
      ensures State() == Do(old(State()), ChatConnection.Mount)
      ensures Valid()
    {
      hide Inv;
      DoKeepsInv(State(), ChatConnection.Mount);
      isUnmounting := false;
      socket, status := Connecting, IsConnecting;
      healthDue := Some(now + HEALTH_INTERVAL);
    }

    method Unmount()
      requires Valid() && !isUnmounting
      modifies this
      ensures State() == Do(old(State()), ChatConnection.Unmount)
      ensures Valid()
      ensures pending == map[]
    {
      DoKeepsInv(State(), ChatConnection.Unmount);
      InvOfUnmounted(Do(State(), ChatConnection.Unmount));
      hide Inv;
      isUnmounting := true;
      ClearReconnectTimer();
      healthDue := None;
      socket := Down;
    }

    method HandleConnect()
      requires Valid() && !isUnmounting && socket == Connecting
      modifies this
      ensures State() == Do(old(State()), Connects)
      ensures Valid()
    {
      hide Inv;
      DoKeepsInv(State(), Connects);
      socket := Up;
      ClearReconnectTimer();
      status := IsConnected;
      lastActivity := now;
    }

    method MarkActivity()
      requires Valid() && !isUnmounting && socket == Up
      modifies this`lastActivity
      ensures State() == Do(old(State()), Activity)
      ensures Valid()
    {
      hide Inv;
      DoKeepsInv(State(), Activity);
      lastActivity := now;
    }

    /** The gateway's greeting. */
    method HandleChatConnected()
      requires Valid() && !isUnmounting && socket == Up
      modifies this`lastActivity, this`status
      ensures State() == Do(old(State()), Greeted)
      ensures Valid()
    {
      hide Inv;
      DoKeepsInv(State(), Greeted);
      lastActivity := now;
      status := IsConnected;
    }

    /** Ignored once unmounting. */
    method HandleDisconnect(random: real)
      requires Valid() && Random(random)
      modifies this
      ensures State() == Dropped(old(State()).(socket := Down), random)
      ensures Valid()
      ensures old(isUnmounting) ==> State() == old(State())
      ensures !old(isUnmounting) ==> |pending| == 1
    {
      GoneKeepsInv(State(), Down, random);
      hide Inv, Schedule;
      socket := Down;
      if isUnmounting {
        return;
      }
      status := IsOffline;
      ScheduleReconnect(random);
    }

    /** A failed connection takes the socket down; an error from the server leaves it as it is. */
    method HandleError(connectFailed: bool, random: real)
      requires Valid() && Random(random)
      modifies this
      ensures State() == Dropped(old(State()).(socket := if connectFailed then Down else old(socket)), random)
      ensures Valid()
      ensures old(isUnmounting) ==> State() == old(State())
      ensures !old(isUnmounting) ==> |pending| == 1
    {
      GoneKeepsInv(State(), if connectFailed then Down else socket, random);
      hide Inv, Schedule;
      if connectFailed {
        socket := Down;
      }
      if isUnmounting {
        return;
      }
      status := IsOffline;
      ScheduleReconnect(random);
    }

    method RunHealthCheck(random: real, again: real)
      requires Valid() && healthDue == Some(now) && Random(random) && Random(again)
      modifies this
      ensures State() == Do(old(State()), HealthCheck(random, again))
      ensures Valid()
    {
      ghost var l := State();
      DoKeepsInv(l, HealthCheck(random, again));
      DueMeansMounted(l);
      HealthIsOneDrop(l, random, again);
      hide Inv, Schedule, Dropped;
      if socket == Up && now - lastActivity > STALE {
        HandleDisconnect(random);
        ScheduleReconnect(again);
      }
      healthDue := Some(now + HEALTH_INTERVAL);
    }
  }

  lemma InvOfUnmounted(l: Link)
    requires Inv(l) && l.unmounting
    ensures l.pending == map[]
  {}

  lemma DueMeansMounted(l: Link)
    requires Inv(l) && l.healthDue.Some?
    ensures !l.unmounting
  {}

  /** The handlers for a lost socket do nothing once unmounting, and leave one timer before. */
  lemma GoneKeepsInv(l: Link, socket: Socket, random: real)
    requires Inv(l) && Random(random) && socket in {l.socket, Down}
    ensures var after := Dropped(l.(socket := socket), random);
            && Inv(after) && (l.unmounting ==> after == l) && (!l.unmounting ==> |after.pending| == 1)
  {
    if !l.unmounting {
      TimerIgnoresRest(l, l.(socket := socket));
      DropKeepsInv(l.(socket := socket), random);
      ScheduleKeepsTimer(l.(socket := socket, status := IsOffline), random);
      hide Schedule;
    }
  }

  /** When the next health check is due does not matter to a lost socket. */
  lemma HealthIsOneDrop(l: Link, random: real, again: real)
    ensures Do(l, HealthCheck(random, again)) ==
              (if l.socket == Up && l.now - l.lastActivity > STALE
               then Schedule(Dropped(l.(socket := Down), random), again)
               else l).(healthDue := Some(l.now + HEALTH_INTERVAL))
  {
    hide Delay;
  }
}
