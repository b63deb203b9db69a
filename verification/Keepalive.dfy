/**
 * The client's keepalive schedule, over instants: when the next ping is due, and why a connection whose peer answers
 * in time is never closed by the read timer. Also the defaults that make the configuration safe for it.
 */
module Keepalive {
  // ---------------------------------------------------------------- the schedule

  /** d: idle time before a keepalive; L: read timeout; w: longest ping write; r: longest wait for a ping's echo. */
  datatype Cfg = Cfg(d: int, L: int, w: int, r: int)

  predicate CfgOk(c: Cfg) { c.d > 0 && 0 <= c.w && 0 <= c.r && c.d + c.r < c.L }

  function Max(a: int, b: int): int { if a < b then b else a }

  function Min(a: int, b: int): int { if a < b then a else b }

  /** tP: start of the last ping; tW, tR: last successful write and read; fireAt, readAt: when the two timers are set
      to go off; writing, echoes: pings not yet written and not yet answered; pings: all of them. */
  datatype State = State(
    now: int, tP: int, tW: int, tR: int, fireAt: int, readAt: int, writing: seq<int>, echoes: seq<int>, pings: seq<int>)

  /** The instant the idle timer is set to: d after the older of the last write and read, but d after the last ping. */
  function FireAt(c: Cfg, tP: int, tW: int, tR: int): int { Max(tP + c.d, Min(tW, tR) + c.d) }

  /** resetClientIdleToSendKeepAlive: the duration handed to the timer. */
  method IdleDuration(c: Cfg, now: int, tP: int, tW: int, tR: int) returns (dur: int)
    ensures now + dur == FireAt(c, tP, tW, tR)
    ensures now + dur >= tP + c.d
    ensures tP + c.d < now + dur ==> now + dur <= tW + c.d && now + dur <= tR + c.d
    ensures now + dur >= tW + c.d || now + dur >= tR + c.d
    ensures now + dur == tP + c.d || now + dur == tW + c.d || now + dur == tR + c.d
  {
    var t1, t2, t3 := tP + c.d, tW + c.d, tR + c.d;
    var minOfT2AndT3 := t2;
    if minOfT2AndT3 > t3 {
      minOfT2AndT3 := t3;
    }
    if minOfT2AndT3 > t1 {
      t1 := minOfT2AndT3;
    }
    return t1 - now;
  }

  function Init(c: Cfg, now: int): State {
    State(now, now, now, now, now + c.d, now + c.L, [], [], [])
  }

  datatype Step = Advance(to: int) | Ping | PingWritten | OtherWritten | Echo | OtherRead

  function Reset(c: Cfg, s: State): State { s.(fireAt := FireAt(c, s.tP, s.tW, s.tR)) }

  function Written(c: Cfg, s: State): State { Reset(c, s.(tW := s.now)) }

  function Read(c: Cfg, s: State): State { Reset(c, s.(tR := s.now, readAt := s.now + c.L)) }

  /** Timers go off on time, pings are written within w and answered within r. */
  predicate MayAdvance(c: Cfg, s: State, to: int) {
    && s.now <= to <= s.fireAt && to <= s.readAt
    && (forall p :: p in s.writing ==> to <= p + c.w)
    && (forall p :: p in s.echoes ==> to <= p + c.r)
  }

  function Next(c: Cfg, s: State, step: Step): State {
    match step
    case Advance(to) => if MayAdvance(c, s, to) then s.(now := to) else s
    case Ping =>
      if s.now >= s.fireAt then
        Reset(c, s.(tP := s.now,
          writing := s.writing + [s.now], echoes := s.echoes + [s.now], pings := s.pings + [s.now]))
      else s
    case PingWritten => if s.writing != [] then Written(c, s.(writing := s.writing[1..])) else s
    case OtherWritten => Written(c, s)
    case Echo => if s.echoes != [] then Read(c, s.(echoes := s.echoes[1..])) else s
    case OtherRead => Read(c, s)
  }

  function Exec(c: Cfg, s: State, steps: seq<Step>): State
    decreases |steps|
  {
    if steps == [] then s else Exec(c, Next(c, s, steps[0]), steps[1..])
  }

  /** Some ping still in the list was sent no later than `by`. */
  predicate SentBy(pings: seq<int>, limit: int) { exists p :: p in pings && p <= limit }

  /** Since the last write (read), either no ping has been sent or the first one was sent in time and is unwritten
      (unanswered); consecutive pings are d apart. */
  predicate Inv(c: Cfg, s: State) {
    && s.fireAt == FireAt(c, s.tP, s.tW, s.tR) && s.readAt == s.tR + c.L
    && s.tP <= s.now && s.tW <= s.now && s.tR <= s.now <= s.fireAt
    && (forall p :: p in s.writing ==> s.now <= p + c.w)
    && (forall p :: p in s.echoes ==> s.now <= p + c.r)
    && (s.tP <= s.tW || SentBy(s.writing, s.tW + c.d))
    && (s.tP <= s.tR || SentBy(s.echoes, s.tR + c.d))
    && (forall i :: 0 <= i < |s.pings| ==> s.pings[i] <= s.tP)
    && (forall i, j :: 0 <= i < j < |s.pings| ==> s.pings[i] + c.d <= s.pings[j])
  }

  lemma PingKeepsInv(c: Cfg, s: State)
    requires CfgOk(c) && Inv(c, s) && s.now >= s.fireAt
    ensures Inv(c, Next(c, s, Ping))
  {
    var s2 := Next(c, s, Ping);
    forall p | p in s.writing ensures p in s2.writing { }
    forall p | p in s.echoes ensures p in s2.echoes { }
    assert s.now in s2.writing && s.now in s2.echoes;
  }

  lemma StepKeepsInv(c: Cfg, s: State, step: Step)
    requires CfgOk(c) && Inv(c, s)
    ensures Inv(c, Next(c, s, step))
  {
    match step {
      case Ping => if s.now >= s.fireAt { PingKeepsInv(c, s); }
      case PingWritten =>
        if s.writing != [] { forall p | p in s.writing[1..] ensures p in s.writing { } }
      case Echo =>
        if s.echoes != [] { forall p | p in s.echoes[1..] ensures p in s.echoes { } }
      case _ =>
    }
  }

  lemma {:induction false} RunsKeepInv(c: Cfg, s: State, steps: seq<Step>)
    requires CfgOk(c) && Inv(c, s)
    ensures Inv(c, Exec(c, s, steps))
    decreases |steps|
  {
    if steps != [] {
      StepKeepsInv(c, s, steps[0]);
      RunsKeepInv(c, Next(c, s, steps[0]), steps[1..]);
    }
  }

  /**
   * At every instant of every run the connection has read something in the last d + r and written something in the
   * last d + w, so the read timer never goes off; and pings are at least d apart.
   */
  lemma NeverTimesOut(c: Cfg, start: int, steps: seq<Step>)
    requires CfgOk(c)
    ensures var s := Exec(c, Init(c, start), steps);
      && s.now <= s.tR + c.d + c.r && s.now <= s.tW + c.d + c.w && s.now < s.readAt
      && forall i, j :: 0 <= i < j < |s.pings| ==> s.pings[i] + c.d <= s.pings[j]
  {
    RunsKeepInv(c, Init(c, start), steps);
  }

  /**
   * In every run a ping is sent exactly when it may be and is needed: not within d of the last ping, and not unless
   * nothing has been written for d or nothing has been read for d. The read timer is always set for L after the last
   * read.
   */
  lemma PingsWhenIdle(c: Cfg, start: int, steps: seq<Step>)
    requires CfgOk(c)
    ensures var s := Exec(c, Init(c, start), steps); var s2 := Next(c, s, Ping);
      && s.readAt == s.tR + c.L
      && (s2.pings != s.pings <==> s.now - s.tP >= c.d && (s.now - s.tW >= c.d || s.now - s.tR >= c.d))
      && (s2.pings != s.pings ==> s2.pings == s.pings + [s.now] && s2.tP == s.now)
  {
    RunsKeepInv(c, Init(c, start), steps);
  }

  // ---------------------------------------------------------------- the client's timestamps

  class Conn {
    const c: Cfg
    var lastKeepAliveSendTime: int
    var lastWriteSuccTime: int
    var lastReadSuccTime: int
    ghost var state: State

    constructor (c: Cfg, now: int)
      ensures Valid() && this.c == c && state == Init(c, now)
    {
      this.c := c;
      lastKeepAliveSendTime, lastWriteSuccTime, lastReadSuccTime := now, now, now;
      state := Init(c, now);
    }

    ghost predicate Valid()
      reads this
    {
      lastKeepAliveSendTime == state.tP && lastWriteSuccTime == state.tW && lastReadSuccTime == state.tR
    }

    /** The idle timer's function, up to the write; returns the timer's next duration. */
    method OnIdle(now: int) returns (dur: int)
      requires Valid() && now == state.now >= state.fireAt
      modifies this
      ensures Valid() && state == Next(c, old(state), Ping) && now + dur == state.fireAt
    {
      lastKeepAliveSendTime := now;
      dur := IdleDuration(c, now, lastKeepAliveSendTime, lastWriteSuccTime, lastReadSuccTime);
      state := Next(c, state, Ping);
    }

    method OnWriteFinishSucc(now: int, ping: bool) returns (dur: int)
      requires Valid() && now == state.now && (ping ==> state.writing != [])
      modifies this
      ensures Valid() && state == Next(c, old(state), if ping then PingWritten else OtherWritten)
      ensures now + dur == state.fireAt
    {
      lastWriteSuccTime := now;
      dur := IdleDuration(c, now, lastKeepAliveSendTime, lastWriteSuccTime, lastReadSuccTime);
      state := Next(c, state, if ping then PingWritten else OtherWritten);
    }

    /** Returns the next durations of the idle timer and of the read timer. */
    method OnReadFinishSucc(now: int, echo: bool) returns (dur: int, readDur: int)
      requires Valid() && now == state.now && (echo ==> state.echoes != [])
      modifies this
      ensures Valid() && state == Next(c, old(state), if echo then Echo else OtherRead)
      ensures now + dur == state.fireAt && now + readDur == state.readAt && readDur == c.L
    {
      lastReadSuccTime := now;
      readDur := c.L;
      dur := IdleDuration(c, now, lastKeepAliveSendTime, lastWriteSuccTime, lastReadSuccTime);
      state := Next(c, state, if echo then Echo else OtherRead);
    }
  }

  // ---------------------------------------------------------------- the defaults

  const MILLISECOND: int := 1_000_000
  const SECOND: int := 1_000_000_000
  const MIN_TIME: int := 100_000_000

  datatype TimeCfg = TimeCfg(
    clientReconnectMin: int, clientIdleToSendKeepAlive: int, clientLastReadToReconnect: int, clientWsDialTimeout: int,
    clientNoNeedIdle: int, clientLastReadToUiNoWork: int, serverLastReadToClose: int, serverAuthTimeout: int,
    serverAskStopListenTimeout: int)

  /** InitDefaultMin: zero means the default, and nothing goes below the minimum. */
  function DefaultMin(x: int, def: int): int { Max(if x == 0 then def else x, MIN_TIME) }

  function Defaulted(t: TimeCfg): TimeCfg {
    var idle := DefaultMin(t.clientIdleToSendKeepAlive, 4_500 * MILLISECOND);
    var timeout := DefaultMin(t.clientLastReadToReconnect, 10 * SECOND);
    TimeCfg(
      DefaultMin(t.clientReconnectMin, 5 * SECOND),
      if idle * 2 > timeout then timeout / 2 else idle,
      timeout,
      DefaultMin(t.clientWsDialTimeout, 5 * SECOND),
      DefaultMin(t.clientNoNeedIdle, 20 * SECOND),
      DefaultMin(t.clientLastReadToUiNoWork, 10 * SECOND),
      DefaultMin(t.serverLastReadToClose, 120 * SECOND),
      DefaultMin(t.serverAuthTimeout, 30 * SECOND),
      DefaultMin(t.serverAskStopListenTimeout, 30 * SECOND))
  }

  /** The idle time is positive and at most half the read timeout, and applying the defaults again changes nothing,
      although an idle time below the minimum is first raised to it and then halved away again. */
  lemma DefaultsAreSafeAndFinal(t: TimeCfg)
    ensures var u := Defaulted(t);
      && 0 < u.clientIdleToSendKeepAlive && 2 * u.clientIdleToSendKeepAlive <= u.clientLastReadToReconnect
      && u.clientLastReadToReconnect >= MIN_TIME && Defaulted(u) == u
  {
    var u := Defaulted(t);
    if u.clientIdleToSendKeepAlive < MIN_TIME {
      assert u.clientLastReadToReconnect < 2 * MIN_TIME;
    }
  }

  /** A duration after the defaults: the default for zero, itself from 100 ms on, and 100 ms below. */
  predicate Settled(x: int, def: int, y: int) {
    if x == 0 then y == def else if x >= 100_000_000 then y == x else y == 100_000_000
  }

  /**
   * Which durations are kept. All are, from 100 ms on, with one exception: an idle time of more than half the read
   * timeout becomes half of it. Nanoseconds, as in Go.
   */
  lemma DefaultsKeep(t: TimeCfg, idle: int)
    requires Settled(t.clientIdleToSendKeepAlive, 4_500_000_000, idle)
    ensures var u := Defaulted(t);
      && Settled(t.clientReconnectMin, 5_000_000_000, u.clientReconnectMin)
      && Settled(t.clientLastReadToReconnect, 10_000_000_000, u.clientLastReadToReconnect)
      && Settled(t.clientWsDialTimeout, 5_000_000_000, u.clientWsDialTimeout)
      && Settled(t.clientNoNeedIdle, 20_000_000_000, u.clientNoNeedIdle)
      && Settled(t.clientLastReadToUiNoWork, 10_000_000_000, u.clientLastReadToUiNoWork)
      && Settled(t.serverLastReadToClose, 120_000_000_000, u.serverLastReadToClose)
      && Settled(t.serverAuthTimeout, 30_000_000_000, u.serverAuthTimeout)
      && Settled(t.serverAskStopListenTimeout, 30_000_000_000, u.serverAskStopListenTimeout)
      && (2 * idle <= u.clientLastReadToReconnect ==> u.clientIdleToSendKeepAlive == idle)
      && (2 * idle > u.clientLastReadToReconnect ==>
            u.clientIdleToSendKeepAlive == u.clientLastReadToReconnect / 2)
  {
  }

  /** With the defaults applied, a peer that echoes within less than half the read timeout is never timed out. */
  lemma DefaultsNeverTimeOut(t: TimeCfg, w: int, r: int, start: int, steps: seq<Step>)
    requires 0 <= w && 0 <= r && 2 * r < Defaulted(t).clientLastReadToReconnect
    ensures var u := Defaulted(t); var c := Cfg(u.clientIdleToSendKeepAlive, u.clientLastReadToReconnect, w, r);
      var s := Exec(c, Init(c, start), steps); s.now < s.readAt
  {
    DefaultsAreSafeAndFinal(t);
    var u := Defaulted(t);
    NeverTimesOut(Cfg(u.clientIdleToSendKeepAlive, u.clientLastReadToReconnect, w, r), start, steps);
  }

  class TimeoutCfg {
    var clientReconnectMin: int
    var clientIdleToSendKeepAlive: int
    var clientLastReadToReconnect: int
    var clientWsDialTimeout: int
    var clientNoNeedIdle: int
    var clientLastReadToUiNoWork: int
    var serverLastReadToClose: int
    var serverAuthTimeout: int
    var serverAskStopListenTimeout: int

    function Val(): TimeCfg
      reads this
    {
      TimeCfg(clientReconnectMin, clientIdleToSendKeepAlive, clientLastReadToReconnect, clientWsDialTimeout,
              clientNoNeedIdle, clientLastReadToUiNoWork, serverLastReadToClose, serverAuthTimeout,
              serverAskStopListenTimeout)
    }

    static method InitDefaultMin(x: int, def: int) returns (y: int)
      requires def >= MIN_TIME
      ensures y == DefaultMin(x, def)
      ensures y >= MIN_TIME && (x == 0 ==> y == def) && (x >= MIN_TIME ==> y == x)
    {
      y := x;
      if y == 0 {
        y := def;
      }
      if y < MIN_TIME {
        y := MIN_TIME;
      }
    }

    method InitWithDefault()
      modifies this
      ensures Val() == Defaulted(old(Val()))
    {
      hide DefaultMin;
      clientReconnectMin := InitDefaultMin(clientReconnectMin, 5 * SECOND);
      clientIdleToSendKeepAlive := InitDefaultMin(clientIdleToSendKeepAlive, 4_500 * MILLISECOND);
      clientLastReadToReconnect := InitDefaultMin(clientLastReadToReconnect, 10 * SECOND);
      clientWsDialTimeout := InitDefaultMin(clientWsDialTimeout, 5 * SECOND);
      clientNoNeedIdle := InitDefaultMin(clientNoNeedIdle, 20 * SECOND);
      clientLastReadToUiNoWork := InitDefaultMin(clientLastReadToUiNoWork, 10 * SECOND);
      serverLastReadToClose := InitDefaultMin(serverLastReadToClose, 120 * SECOND);
      serverAuthTimeout := InitDefaultMin(serverAuthTimeout, 30 * SECOND);
      serverAskStopListenTimeout := InitDefaultMin(serverAskStopListenTimeout, 30 * SECOND);
      if clientIdleToSendKeepAlive * 2 > clientLastReadToReconnect {
        clientIdleToSendKeepAlive := clientLastReadToReconnect / 2;
      }
    }
  }
}
