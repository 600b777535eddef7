/**
  The chat client's connection: reconnection by one delayed attempt at a time, and a health
  check that drops a silent socket.  Timers are modelled as the environment holds them, so that
  "one timer" is a fact about what is pending and not about the reference the client keeps.
  */
module ChatConnection {
  import opened Common

  const BASE_DELAY: int := 1000
  const MAX_DELAY: int := 15_000
  const JITTER: real := 0.2
  const HEALTH_INTERVAL: int := 15_000
  const STALE: int := 40_000

  datatype Socket = Up | Connecting | Down

  datatype Status = IsConnecting | IsConnected | IsReconnecting | IsOffline

  /**
    `pending` maps the timers that have not fired to their due times; `reference` is the timer
    the client remembers.  `healthDue` is the next run of the health check while mounted.
    */
  datatype Link = Link(
    now: int, socket: Socket, status: Status, unmounting: bool, reference: Option<nat>, pending: map<nat, int>,
    nextTimer: nat, attempt: nat, lastActivity: int, healthDue: Option<int>)

  function Start(now: int): Link
  {
    Link(now, Down, IsConnecting, true, None, map[], 0, 0, 0, None)
  }

  // ----- Delays -----

  function Power2(n: nat): (p: int)
    ensures p >= 1
  {
    if n == 0 then 1 else 2 * Power2(n - 1)
  }

  function BaseDelay(attempt: nat): int
    requires attempt >= 1
  {
    Min(MAX_DELAY, BASE_DELAY * Power2(attempt - 1))
  }

  /** Rounding to the nearest integer, halves up. */
  function Round(x: real): int
  {
    (x + 0.5).Floor
  }

  /** The delay of an attempt for a random number in [0, 1). */
  function Delay(attempt: nat, random: real): int
    requires attempt >= 1
  {
    var base := BaseDelay(attempt) as real;
    Max(0, Round(base + Jitter(base, random)))
  }

  function Jitter(base: real, random: real): real
  {
    base * JITTER * (random * 2.0 - 1.0)
  }

  predicate Random(r: real)
  {
    0.0 <= r < 1.0
  }

  /** Base delays are whole numbers of five milliseconds. */
  lemma BaseDelayIsFive(attempt: nat)
    requires attempt >= 1
    ensures BaseDelay(attempt) % 5 == 0 && 1000 <= BaseDelay(attempt) <= 15_000
  {}

  /** They double from a second on until they are capped at fifteen. */
  lemma BaseDelays(attempt: nat)
    ensures attempt >= 1 ==>
              BaseDelay(attempt) == if attempt == 1 then 1000 else if attempt == 2 then 2000
                                    else if attempt == 3 then 4000 else if attempt == 4 then 8000 else 15_000
  {
    if attempt > 4 {
      PowerGrows(attempt - 5);
    }
  }

  lemma PowerGrows(n: nat)
    ensures Power2(n + 4) >= 16
  {
    assert Power2(n + 4) == 2 * Power2(n + 3) && Power2(n + 2) == 2 * Power2(n + 1);
  }

  lemma RoundStaysBetween(x: real, low: int, high: int)
    requires low as real <= x <= high as real
    ensures low <= Round(x) <= high
  {}

  /** Random jitter is at most a fifth either way. */
  lemma JitterIsAtMostFifth(base: real, random: real)
    requires base >= 0.0 && Random(random)
    ensures -(base * 0.2) <= Jitter(base, random) <= base * 0.2
  {
    var k := base * 0.2;
    var r := random * 2.0 - 1.0;
    assert k * (1.0 - r) >= 0.0;
    assert k * (1.0 + r) >= 0.0;
    assert k * r <= k && -k <= k * r;
  }

  /** A delay lies within a fifth of its base, rounding included. */
  lemma DelayIsNearBase(attempt: nat, random: real)
    requires attempt >= 1 && Random(random)
    ensures 4 * BaseDelay(attempt) <= 5 * Delay(attempt, random) <= 6 * BaseDelay(attempt)
  {
    BaseDelayIsFive(attempt);
    var base := BaseDelay(attempt);
    var fifth := base / 5;
    assert base == 5 * fifth;
    JitterIsAtMostFifth(base as real, random);
    hide BaseDelay, Jitter;
    RoundStaysBetween(base as real + Jitter(base as real, random), 4 * fifth, 6 * fifth);
  }

  /** The smallest random number gives the shortest delay, and one half gives the base. */
  lemma DelayGrowsFromLeast(attempt: nat)
    requires attempt >= 1
    ensures 5 * Delay(attempt, 0.0) == 4 * BaseDelay(attempt) && Delay(attempt, 0.5) == BaseDelay(attempt)
  {
    BaseDelayIsFive(attempt);
    var base := BaseDelay(attempt);
    var fifth := base / 5;
    assert base == 5 * fifth;
    hide BaseDelay;
    assert Jitter(base as real, 0.0) == -(fifth as real);
    assert Jitter(base as real, 0.5) == 0.0;
  }

  // ----- Handlers -----

  function ClearTimer(l: Link): Link
  {
    l.(pending := if l.reference.Some? then l.pending - {l.reference.value} else l.pending,
       reference := None, attempt := 0)
  }

  function Schedule(l: Link, random: real): Link
  {
    if l.reference.Some? || l.unmounting then l
    else
      l.(attempt := l.attempt + 1, status := IsReconnecting,
         reference := Some(l.nextTimer), nextTimer := l.nextTimer + 1,
         pending := l.pending[l.nextTimer := l.now + Delay(l.attempt + 1, random)])
  }

  /** The socket reports that it is down, or that a connection failed. */
  function Dropped(l: Link, random: real): Link
  {
    if l.unmounting then l else Schedule(l.(status := IsOffline), random)
  }

  datatype Op =
    | Mount
    | Unmount
    | Connects
    | ConnectFails(random: real)
    | Disconnects(random: real)
    | ServerError(random: real)
    | Greeted
    | Activity
    | TimerFires(timer: nat)
    | HealthCheck(random: real, again: real)
    | Wait(ms: nat)

  /** What the environment may do next: sockets change state one step at a time, timers are on time. */
  predicate Possible(l: Link, op: Op)
  {
    match op
    case Mount => l.unmounting
    case Unmount => !l.unmounting
    case Connects => !l.unmounting && l.socket == Connecting
    case ConnectFails(r) => !l.unmounting && l.socket == Connecting && Random(r)
    case Disconnects(r) => !l.unmounting && l.socket == Up && Random(r)
    case ServerError(r) => !l.unmounting && l.socket == Up && Random(r)
    case Greeted => !l.unmounting && l.socket == Up
    case Activity => !l.unmounting && l.socket == Up
    case TimerFires(t) => t in l.pending && l.pending[t] == l.now
    case HealthCheck(r, s) => l.healthDue == Some(l.now) && Random(r) && Random(s)
    case Wait(ms) =>
      && (forall t :: t in l.pending ==> l.now + ms <= l.pending[t])
      && (l.healthDue.Some? ==> l.now + ms <= l.healthDue.value)
  }

  function Do(l: Link, op: Op): Link
  {
    match op
    case Mount =>
      l.(unmounting := false, socket := Connecting, status := IsConnecting, healthDue := Some(l.now + HEALTH_INTERVAL))
    case Unmount => ClearTimer(l.(unmounting := true)).(healthDue := None, socket := Down)
    case Connects => ClearTimer(l.(socket := Up)).(status := IsConnected, lastActivity := l.now)
    case ConnectFails(r) => Dropped(l.(socket := Down), r)
    case Disconnects(r) => Dropped(l.(socket := Down), r)
    case ServerError(r) => Dropped(l, r)
    case Greeted => l.(lastActivity := l.now, status := IsConnected)
    case Activity => l.(lastActivity := l.now)
    case TimerFires(t) =>
      l.(pending := l.pending - {t}, reference := None, socket := if l.socket == Down then Connecting else l.socket)
    case HealthCheck(r, s) =>
      var next := l.(healthDue := Some(l.now + HEALTH_INTERVAL));
      if l.socket == Up && l.now - l.lastActivity > STALE then Schedule(Dropped(next.(socket := Down), r), s) else next
    case Wait(ms) => l.(now := l.now + ms)
  }

  ghost predicate Run(ls: seq<Link>, ops: seq<Op>)
  {
    && |ls| == |ops| + 1
    && ls[0] == Start(ls[0].now)
    && forall n {:trigger ops[n]} :: 0 <= n < |ops| ==> Possible(ls[n], ops[n]) && ls[n + 1] == Do(ls[n], ops[n])
  }

  // ----- What every run keeps -----

  /** The only timer pending, if any, is the one remembered, and it is due within 18 seconds. */
  ghost predicate OneTimer(l: Link)
  {
    && l.pending.Keys == (if l.reference.Some? then {l.reference.value} else {})
    && (forall t :: t in l.pending ==> t < l.nextTimer && l.now <= l.pending[t] <= l.now + 18_000)
  }

  /** What a mounted client shows: connected only while the socket is up, lost whenever it is down. */
  predicate StatusFits(l: Link)
  {
    && (l.status == IsConnected ==> l.socket == Up)
    && (l.status == IsConnecting ==> l.socket == Connecting)
    && (l.socket == Down ==> l.status == IsReconnecting || l.status == IsOffline)
  }

  /** No timer outlives the component; a mounted client that is down has one; a live socket is not silent for long. */
  ghost predicate Inv(l: Link)
  {
    && OneTimer(l)
    && (l.unmounting || StatusFits(l))
    && (l.unmounting ==> l.pending == map[] && l.healthDue.None? && l.socket == Down)
    && (!l.unmounting && l.socket == Down ==> |l.pending| == 1)
    && (!l.unmounting ==> l.healthDue.Some? && l.now <= l.healthDue.value <= l.now + HEALTH_INTERVAL)
    && (l.socket == Up ==> l.lastActivity <= l.now && l.healthDue.value - l.lastActivity <= STALE + HEALTH_INTERVAL)
  }

  lemma ScheduleKeepsTimer(l: Link, random: real)
    requires Random(random) && OneTimer(l) && !l.unmounting
    ensures var after := Schedule(l, random);
            && OneTimer(after) && after.reference.Some? && |after.pending| == 1
            && after.socket == l.socket && after.healthDue == l.healthDue && after.lastActivity == l.lastActivity
            && after.now == l.now && !after.unmounting
            && (after.status == l.status || after.status == IsReconnecting)
  {
    DelayIsNearBase(l.attempt + 1, random);
    BaseDelayIsFive(l.attempt + 1);
    hide Delay, BaseDelay;
    var after := Schedule(l, random);
    assert after.pending.Keys == {after.reference.value};
  }

  lemma ClearRemovesTimer(l: Link)
    requires OneTimer(l)
    ensures ClearTimer(l).pending == map[]
  {}

  lemma ScheduleKeepsInv(l: Link, random: real)
    requires Random(random) && !l.unmounting && OneTimer(l) && StatusFits(l)
    requires l.healthDue.Some? && l.now <= l.healthDue.value <= l.now + HEALTH_INTERVAL
    requires l.socket == Up ==> l.lastActivity <= l.now && l.healthDue.value - l.lastActivity <= STALE + HEALTH_INTERVAL
    ensures Inv(Schedule(l, random))
  {
    ScheduleKeepsTimer(l, random);
    hide Schedule, OneTimer;
  }

  lemma DropKeepsInv(l: Link, random: real)
    requires Random(random) && !l.unmounting && OneTimer(l)
    requires l.healthDue.Some? && l.now <= l.healthDue.value <= l.now + HEALTH_INTERVAL
    requires l.socket == Up ==> l.lastActivity <= l.now && l.healthDue.value - l.lastActivity <= STALE + HEALTH_INTERVAL
    ensures Inv(Dropped(l, random)) && !Dropped(l, random).unmounting
  {
    ScheduleKeepsTimer(l.(status := IsOffline), random);
    ScheduleKeepsInv(l.(status := IsOffline), random);
    hide Schedule, Inv;
  }

  lemma HealthKeepsInv(l: Link, r: real, s: real)
    requires Inv(l) && Possible(l, HealthCheck(r, s))
    ensures Inv(Do(l, HealthCheck(r, s)))
  {
    hide Dropped, Schedule, OneTimer;
    var next := l.(healthDue := Some(l.now + HEALTH_INTERVAL));
    assert OneTimer(next) && OneTimer(next.(socket := Down)) by {
      TimerIgnoresRest(l, next);
      TimerIgnoresRest(l, next.(socket := Down));
    }
    if l.socket == Up && l.now - l.lastActivity > STALE {
      DropKeepsInv(next.(socket := Down), r);
      ScheduleKeepsInv(Dropped(next.(socket := Down), r), s);
    }
  }

  lemma TimerIgnoresRest(l: Link, m: Link)
    requires OneTimer(l)
    requires m.pending == l.pending && m.reference == l.reference && m.nextTimer == l.nextTimer && m.now == l.now
    ensures OneTimer(m)
  {}

  lemma WaitKeepsInv(l: Link, ms: nat)
    requires Inv(l) && Possible(l, Wait(ms))
    ensures Inv(Do(l, Wait(ms)))
  {}

  lemma ClearKeepsInv(l: Link, op: Op)
    requires Inv(l) && Possible(l, op) && (op.Unmount? || op.Connects?)
    ensures Inv(Do(l, op))
  {
    ClearRemovesTimer(l.(unmounting := true));
    ClearRemovesTimer(l.(socket := Up));
  }

  lemma LostKeepsInv(l: Link, random: real, socket: Socket)
    requires Inv(l) && !l.unmounting && Random(random) && (socket == Down || socket == l.socket)
    ensures Inv(Dropped(l.(socket := socket), random))
  {
    hide Dropped;
    DropKeepsInv(l.(socket := socket), random);
  }

  lemma FireKeepsInv(l: Link, timer: nat)
    requires Inv(l) && Possible(l, TimerFires(timer))
    ensures Inv(Do(l, TimerFires(timer)))
  {
    assert Do(l, TimerFires(timer)).pending.Keys == {};
  }

  lemma SignKeepsInv(l: Link, op: Op)
    requires Inv(l) && Possible(l, op) && (op.Mount? || op.Greeted? || op.Activity?)
    ensures Inv(Do(l, op))
  {}

  lemma DoKeepsInv(l: Link, op: Op)
    requires Inv(l) && Possible(l, op)
    ensures Inv(Do(l, op))
  {
    hide Dropped, Inv;
    match op
    case Unmount => ClearKeepsInv(l, op);
    case Connects => ClearKeepsInv(l, op);
    case ConnectFails(r) => LostKeepsInv(l, r, Down);
    case Disconnects(r) => LostKeepsInv(l, r, Down);
    case ServerError(r) =>
      LostKeepsInv(l, r, l.socket);
      assert l.(socket := l.socket) == l;
    case TimerFires(t) => FireKeepsInv(l, t);
    case HealthCheck(r, s) => HealthKeepsInv(l, r, s);
    case Wait(ms) => WaitKeepsInv(l, ms);
    case _ => SignKeepsInv(l, op);
  }

  lemma {:induction false} RunKeepsInv(ls: seq<Link>, ops: seq<Op>, n: nat)
    requires Run(ls, ops) && n <= |ops|
    ensures Inv(ls[n])
  {
    if n > 0 {
      RunKeepsInv(ls, ops, n - 1);
      hide Do, Possible, Inv;
      assert ls[n - 1 + 1] == Do(ls[n - 1], ops[n - 1]);
      DoKeepsInv(ls[n - 1], ops[n - 1]);
    }
  }

  /**
    In every run: never two timers, none after unmounting, exactly one while a mounted client is
    down, every timer due within 18 seconds, and no live socket silent for more than 55 seconds;
    a mounted client shows itself connected only while its socket is up, and lost whenever it is
    down.
    */
  lemma ConnectionIsWatched(ls: seq<Link>, ops: seq<Op>, n: nat)
    requires Run(ls, ops) && n <= |ops|
    ensures |ls[n].pending| <= 1
    ensures ls[n].unmounting ==> ls[n].pending == map[]
    ensures !ls[n].unmounting && ls[n].socket == Down ==> |ls[n].pending| == 1
    ensures forall t :: t in ls[n].pending ==> ls[n].now <= ls[n].pending[t] <= ls[n].now + 18_000
    ensures ls[n].socket == Up ==> ls[n].now - ls[n].lastActivity <= 55_000
    ensures !ls[n].unmounting && ls[n].status == IsConnected ==> ls[n].socket == Up
    ensures !ls[n].unmounting && ls[n].socket == Down ==> ls[n].status == IsOffline || ls[n].status == IsReconnecting
  {
    RunKeepsInv(ls, ops, n);
    assert |ls[n].pending| == |ls[n].pending.Keys|;
  }

  // ----- Back-off -----

  /** The operation sets a timer. */
  predicate Schedules(l: Link, op: Op)
  {
    Do(l, op).nextTimer > l.nextTimer
  }

  /** How many timers were set since the last connection or unmounting. */
  function Attempts(ls: seq<Link>, ops: seq<Op>, n: nat): nat
    requires n <= |ops| < |ls|
  {
    if n == 0 || ops[n - 1].Connects? || ops[n - 1].Unmount? then 0
    else Attempts(ls, ops, n - 1) + if Schedules(ls[n - 1], ops[n - 1]) then 1 else 0
  }

  /** The step set a timer for the next attempt, at a delay near the base for it. */
  ghost predicate SetsTimer(l: Link, after: Link)
  {
    && after.attempt == l.attempt + 1
    && after.nextTimer > l.nextTimer && l.nextTimer in after.pending
    && 4 * BaseDelay(after.attempt) <= 5 * (after.pending[l.nextTimer] - l.now) <= 6 * BaseDelay(after.attempt)
  }

  ghost predicate SetsNone(l: Link, after: Link)
  {
    after.attempt == l.attempt && after.nextTimer == l.nextTimer
  }

  lemma ScheduleCounts(l: Link, random: real)
    requires Random(random)
    ensures SetsTimer(l, Schedule(l, random)) || SetsNone(l, Schedule(l, random))
    ensures Schedule(l, random).reference.Some? || l.unmounting
    ensures l.reference.Some? ==> Schedule(l, random) == l
  {
    DelayIsNearBase(l.attempt + 1, random);
    hide Delay, BaseDelay;
  }

  lemma DropCounts(l: Link, random: real)
    requires Random(random)
    ensures SetsTimer(l, Dropped(l, random)) || SetsNone(l, Dropped(l, random))
    ensures Dropped(l, random).reference.Some? || l.unmounting
    ensures Dropped(l, random).unmounting == l.unmounting
  {
    ScheduleCounts(l.(status := IsOffline), random);
    hide BaseDelay, Delay;
  }

  /** What a step does to the count, and the delay it chooses. */
  lemma StepCounts(l: Link, op: Op)
    requires Inv(l) && Possible(l, op)
    ensures var after := Do(l, op);
            if op.Connects? || op.Unmount? then after.attempt == 0 && after.nextTimer == l.nextTimer
            else SetsTimer(l, after) || SetsNone(l, after)
  {
    hide Schedule, Dropped, BaseDelay, OneTimer;
    match op
    case ConnectFails(r) => DropCounts(l.(socket := Down), r);
    case Disconnects(r) => DropCounts(l.(socket := Down), r);
    case ServerError(r) => DropCounts(l, r);
    case HealthCheck(r, s) =>
      var next := l.(healthDue := Some(l.now + HEALTH_INTERVAL), socket := Down);
      DropCounts(next, r);
      ScheduleCounts(Dropped(next, r), s);
    case _ =>
  }

  /** The timer the step sets for the k-th attempt is due after 0.8 to 1.2 times this base. */
  ghost predicate DelayedBy(l: Link, after: Link, base: int)
  {
    && l.nextTimer in after.pending
    && var delay := after.pending[l.nextTimer] - l.now;
       4 * base <= 5 * delay <= 6 * base
  }

  lemma {:induction false} AttemptsAreCounted(ls: seq<Link>, ops: seq<Op>, n: nat)
    requires Run(ls, ops) && n <= |ops|
    ensures ls[n].attempt == Attempts(ls, ops, n)
  {
    hide Do, Possible, Inv, BaseDelay;
    if n > 0 {
      AttemptsAreCounted(ls, ops, n - 1);
      RunKeepsInv(ls, ops, n - 1);
      assert ls[n - 1 + 1] == Do(ls[n - 1], ops[n - 1]);
      StepCounts(ls[n - 1], ops[n - 1]);
    }
  }

  lemma StepIsDelayed(l: Link, op: Op)
    requires Inv(l) && Possible(l, op) && Schedules(l, op)
    ensures var after := Do(l, op);
            after.attempt >= 1 && DelayedBy(l, after, BaseDelay(after.attempt))
  {
    hide Do, Possible, Inv, BaseDelay;
    StepCounts(l, op);
  }

  /**
    The k-th delay since the last connection lies between 0.8 and 1.2 times 1, 2, 4 and 8
    seconds for the first four, and 15 seconds from then on.
    */
  lemma DelaysBackOff(ls: seq<Link>, ops: seq<Op>, n: nat)
    requires Run(ls, ops) && n < |ops| && Schedules(ls[n], ops[n])
    ensures var k := Attempts(ls, ops, n + 1);
            && k >= 1
            && DelayedBy(ls[n], ls[n + 1], if k == 1 then 1000 else if k == 2 then 2000 else if k == 3 then 4000
                                           else if k == 4 then 8000 else 15_000)
  {
    hide Do, Possible, Inv, BaseDelay, Schedules, DelayedBy, Attempts;
    RunKeepsInv(ls, ops, n);
    assert ls[n + 1] == Do(ls[n], ops[n]) && Possible(ls[n], ops[n]);
    StepIsDelayed(ls[n], ops[n]);
    AttemptsAreCounted(ls, ops, n + 1);
    BaseDelays(Attempts(ls, ops, n + 1));
  }

  // ----- Silence -----

  /** When the socket was last heard from: its connection, the greeting, or any message. */
  function LastSign(ls: seq<Link>, ops: seq<Op>, n: nat): Option<int>
    requires n <= |ops| < |ls|
  {
    if n == 0 then None
    else if ops[n - 1].Connects? || ops[n - 1].Greeted? || ops[n - 1].Activity? then Some(ls[n - 1].now)
    else LastSign(ls, ops, n - 1)
  }

  lemma StepSigns(l: Link, op: Op)
    ensures var after := Do(l, op);
            && after.lastActivity == (if op.Connects? || op.Greeted? || op.Activity? then l.now else l.lastActivity)
            && (after.socket == Up ==> l.socket == Up || op.Connects?)
  {
    hide Delay;
  }

  lemma {:induction false} ActivityIsLastSign(ls: seq<Link>, ops: seq<Op>, n: nat)
    requires Run(ls, ops) && n <= |ops| && ls[n].socket == Up
    ensures LastSign(ls, ops, n) == Some(ls[n].lastActivity)
  {
    if n > 0 {
      hide Do, Possible;
      assert ls[n - 1 + 1] == Do(ls[n - 1], ops[n - 1]);
      StepSigns(ls[n - 1], ops[n - 1]);
      if !ops[n - 1].Connects? {
        ActivityIsLastSign(ls, ops, n - 1);
      }
    }
  }

  /** A health check takes a live socket down if and only if it was not heard from for more than 40 seconds. */
  lemma DroppedIffSilent(ls: seq<Link>, ops: seq<Op>, n: nat)
    requires Run(ls, ops) && n < |ops| && ops[n].HealthCheck? && ls[n].socket == Up
    ensures LastSign(ls, ops, n).Some?
    ensures ls[n + 1].socket == (if ls[n].now - LastSign(ls, ops, n).value > 40_000 then Down else Up)
    ensures ls[n + 1].socket == Up ==> ls[n + 1] == ls[n].(healthDue := Some(ls[n].now + 15_000))
  {
    ActivityIsLastSign(ls, ops, n);
    assert ls[n + 1] == Do(ls[n], ops[n]);
    hide Delay, LastSign;
  }
}
