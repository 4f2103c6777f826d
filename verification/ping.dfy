/** The keepalive timer of the websocket signalling channel (`ping.rs`):
    a ping is due 15 seconds after the last one, and the channel times out 60
    seconds after the last pong. Time is an integer clock in milliseconds,
    passed in by the caller. */
module Ping {
  /** Delay from the last ping to the next one. */
  const PING_INTERVAL: nat := 15_000

  /** Delay from the last pong to the timeout. */
  const PONG_TIMEOUT: nat := 60_000

  datatype Ping = Ping(lastPing: nat, lastPong: nat)

  /** What `wait` can report: a ping is due (`MustPing`), or the pong timeout
      expired (`TimeoutError`). */
  datatype Alarm = MustPing | PongTimeout

  /** `wait`: the instant it returns, and the alarms it may report then. When
      both deadlines have passed by that instant, the race between the two
      sleeps may report either. */
  datatype Wakeup = Wakeup(at: nat, alarms: set<Alarm>)

  /** `Ping::new`, with one clock reading for both timestamps. */
  function New(now: nat): (r: Ping)
    ensures r.lastPing == r.lastPong == now
  {
    Ping(now, now)
  }

  /** `Ping::new` as written: the clock is read once per field, the ping
      timestamp first. */
  function NewAsWritten(first: nat, second: nat): (r: Ping)
    requires first <= second
    ensures r.lastPong - r.lastPing == second - first
  {
    Ping(first, second)
  }

  function Min(a: nat, b: nat): nat {
    if a <= b then a else b
  }

  function Max(a: nat, b: nat): nat {
    if a <= b then b else a
  }

  /** `Ping::wait` called at `now`: it wakes at the earlier deadline, or at
      once when a deadline has already passed, and reports every alarm whose
      deadline has been reached by then. */
  function Wait(p: Ping, now: nat): (r: Wakeup)
    ensures r.at >= now && r.alarms != {}
    ensures r.at > now ==> r.at == Min(p.lastPing + PING_INTERVAL, p.lastPong + PONG_TIMEOUT)
    ensures MustPing in r.alarms <==> p.lastPing + PING_INTERVAL <= r.at
    ensures PongTimeout in r.alarms <==> p.lastPong + PONG_TIMEOUT <= r.at
  {
    var nextPing := p.lastPing + PING_INTERVAL;
    var pongTimeout := p.lastPong + PONG_TIMEOUT;
    var at := Max(now, Min(nextPing, pongTimeout));
    Wakeup(at, (if nextPing <= at then {MustPing} else {}) + (if pongTimeout <= at then {PongTimeout} else {}))
  }

  /** `sent_ping`: only the ping timestamp moves. */
  function SentPing(p: Ping, now: nat): (r: Ping)
    ensures r.lastPing == now && r.lastPong == p.lastPong
  {
    p.(lastPing := now)
  }

  /** `received_pong`, with one clock reading for both timestamps. */
  function ReceivedPong(p: Ping, now: nat): (r: Ping)
    ensures r.lastPing == r.lastPong == now
  {
    Ping(now, now)
  }

  /** `received_pong` as written: the clock is read once per field. */
  function ReceivedPongAsWritten(p: Ping, first: nat, second: nat): (r: Ping)
    requires first <= second
    ensures r.lastPong - r.lastPing == second - first
  {
    Ping(first, second)
  }

  /** Called on time (before the ping deadline), `wait` can time out
      exactly when the last ping is at least 45 seconds after the last pong,
      and can ask for a ping exactly when it is at most 45 seconds after. */
  lemma WaitOnTime(p: Ping, now: nat)
    requires now < p.lastPing + PING_INTERVAL
    ensures PongTimeout in Wait(p, now).alarms <==> p.lastPing - p.lastPong >= PONG_TIMEOUT - PING_INTERVAL
    ensures MustPing in Wait(p, now).alarms <==> p.lastPing - p.lastPong <= PONG_TIMEOUT - PING_INTERVAL
  {
  }

  /** Right after a pong, `wait` only asks for a ping, 15 seconds later. */
  lemma NoTimeoutAfterPong(p: Ping, now: nat)
    ensures Wait(ReceivedPong(p, now), now) == Wakeup(now + PING_INTERVAL, {MustPing})
  {
  }

  /** The same holds for `received_pong` as written, whatever the gap between
      its two clock readings. */
  lemma NoTimeoutAfterPongAsWritten(p: Ping, first: nat, second: nat, now: nat)
    requires first <= second <= now <= first + PING_INTERVAL
    ensures Wait(ReceivedPongAsWritten(p, first, second), now).alarms == {MustPing}
  {
  }

  /** A timer operation at a clock reading. */
  datatype Op = Sent(at: nat) | Received(at: nat)

  /** Clock readings never go back, starting from `start`. */
  predicate Monotone(ops: seq<Op>, start: nat) {
    && (|ops| > 0 ==> start <= ops[0].at)
    && forall i :: 0 < i < |ops| ==> ops[i - 1].at <= ops[i].at
  }

  function Apply(p: Ping, ops: seq<Op>): Ping
    decreases |ops|
  {
    if |ops| == 0 then p
    else
      var next := match ops[0]
        case Sent(t) => SentPing(p, t)
        case Received(t) => ReceivedPong(p, t);
      Apply(next, ops[1..])
  }

  /** With a monotone clock the last pong is never after the last ping, and
      both timestamps stay at or before the latest reading. */
  lemma {:induction false} PongNotAfterPing(p: Ping, start: nat, ops: seq<Op>)
    requires p.lastPong <= p.lastPing <= start
    requires Monotone(ops, start)
    ensures Apply(p, ops).lastPong <= Apply(p, ops).lastPing
    ensures Apply(p, ops).lastPing <= (if |ops| == 0 then start else ops[|ops| - 1].at)
    decreases |ops|
  {
    if |ops| > 0 {
      var next := match ops[0]
        case Sent(t) => SentPing(p, t)
        case Received(t) => ReceivedPong(p, t);
      assert Monotone(ops[1..], ops[0].at) by {
        if |ops| > 1 {
          assert ops[1..][0] == ops[1];
        }
        forall i | 0 < i < |ops| - 1
          ensures ops[1..][i - 1].at <= ops[1..][i].at
        {
          assert ops[1..][i] == ops[i + 1];
        }
      }
      PongNotAfterPing(next, ops[0].at, ops[1..]);
      if |ops| > 1 {
        assert ops[1..][|ops| - 2] == ops[|ops| - 1];
      }
    }
  }

  /** The order fails for `received_pong` as written as soon as its two
      readings differ. */
  lemma ReceivedPongAsWrittenBreaksOrder()
    ensures ReceivedPongAsWritten(New(0), 0, 1).lastPong > ReceivedPongAsWritten(New(0), 0, 1).lastPing
  {
  }
}
