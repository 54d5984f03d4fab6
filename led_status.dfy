/**
 * The status-LED blink state machine of the controller emulator.
 *
 * The reference behaviour is stated twice: once as a table-driven pure
 * specification (PatternOf, Tick, SetStatusStep) and once as the class
 * LedIndicator, whose methods follow the per-status branching of the
 * firmware and are proved to agree with the specification.
 */
module LedStatus {

  newtype u8 = x: int | 0 <= x < 0x100
  newtype u32 = x: int | 0 <= x < 0x1_0000_0000

  const Modulus32: int := 0x1_0000_0000

  datatype Option<T> = None | Some(value: T)

  /** The five status levels, in the firmware's order (IDLE = 0 ... ERROR = 4). */
  datatype Status = Idle | Ready | Poll | Config | Error

  /** The context record: what the firmware keeps in its global LED context. */
  datatype Context = Context(
    lastUpdateMs: u32,
    status: Status,
    flashCount: u8,
    flashIndex: u8,
    ledOn: bool)

  /**
   * One transition: the new context and the level written to the LED pin,
   * if the transition writes the pin at all.
   */
  datatype Step = Step(next: Context, put: Option<bool>)

  /** The visible pattern of each status, as a table. */
  datatype Pattern =
    | HeldOff
    | Toggle(halfMs: nat)
    | Burst(blinks: nat, halfMs: nat, pauseMs: nat)

  function PatternOf(s: Status): (p: Pattern)
    ensures p.Burst? ==> 0 < p.blinks < 0xFF
  {
    match s
    case Idle => HeldOff
    case Ready => Toggle(200)
    case Poll => Burst(2, 100, 300)
    case Config => Burst(3, 100, 300)
    case Error => Toggle(50)
  }

  /** Unsigned 32-bit subtraction `now - last`, wrapping as C's uint32_t does. */
  function WrapSub(now: u32, last: u32): (r: u32)
    ensures (last as int + r as int) % Modulus32 == now as int
    ensures last <= now ==> r == now - last
  {
    ((now as int - last as int) % Modulus32) as u32
  }

  /** The time `d` milliseconds after `t` on the 32-bit millisecond scale. */
  function Advance(t: u32, d: nat): u32 {
    ((t as int + d) % Modulus32) as u32
  }

  /** The context right after initialisation. */
  function Initial(): (c: Context)
    ensures WellFormed(c)
    ensures c.status == Idle && !c.ledOn && c.flashCount == 0 && c.flashIndex == 0
    ensures c.lastUpdateMs == 0
  {
    Context(0, Idle, 0, 0, false)
  }

  /**
   * The invariant every reachable context satisfies: the blink index is never
   * used, statuses without a burst never count, and a burst status counts at
   * most its number of blinks, reaching it only with the LED off.
   */
  ghost predicate WellFormed(c: Context) {
    c.flashIndex == 0 &&
    match PatternOf(c.status)
    case Burst(n, _, _) => c.flashCount as int <= n && (c.flashCount as int == n ==> !c.ledOn)
    case _ => c.flashCount == 0
  }

  /** The level of the LED pin after a step, given its level before. */
  function PinAfter(pin: bool, s: Step): bool {
    match s.put
    case Some(level) => level
    case None => pin
  }

  /** The number of pin writes a step performs. */
  function Writes(s: Step): nat {
    if s.put.Some? then 1 else 0
  }

  /** A status request: a different status resets the pattern; the same one is ignored. */
  function SetStatusStep(c: Context, status: Status, nowMs: u32): (r: Step)
    ensures r.next.status == status
    ensures r.put.Some? ==> r.put.value == r.next.ledOn
    ensures status == c.status ==> r == Step(c, None)
    ensures status != c.status ==>
              r.put == Some(false) && r.next.flashCount == 0 && r.next.flashIndex == 0 &&
              !r.next.ledOn && r.next.lastUpdateMs == nowMs
    ensures WellFormed(c) ==> WellFormed(r.next)
  {
    if c.status == status then Step(c, None)
    else Step(Context(nowMs, status, 0, 0, false), Some(false))
  }

  /** Switch the LED to the other level and restart the timer. */
  function Toggled(c: Context, nowMs: u32): Step {
    Step(c.(ledOn := !c.ledOn, lastUpdateMs := nowMs), Some(!c.ledOn))
  }

  /**
   * A timer tick, table-driven: the pattern of the current status decides
   * whether the elapsed time since the last transition is enough to act.
   */
  function Tick(c: Context, nowMs: u32): (r: Step)
    ensures r.next.status == c.status && r.next.flashIndex == c.flashIndex
    ensures r.put.Some? ==> r.put.value == r.next.ledOn
    ensures r.put.None? ==> r.next == c
  {
    var elapsed := WrapSub(nowMs, c.lastUpdateMs);
    match PatternOf(c.status)
    case HeldOff =>
      if c.ledOn then Step(c.(ledOn := false), Some(false)) else Step(c, None)
    case Toggle(half) =>
      if elapsed as int >= half then Toggled(c, nowMs) else Step(c, None)
    case Burst(n, half, pause) =>
      if c.flashCount as int < n then
        if elapsed as int >= half then
          var t := Toggled(c, nowMs);
          if t.next.ledOn then t
          else Step(t.next.(flashCount := c.flashCount + 1), t.put)
        else Step(c, None)
      else if elapsed as int >= pause then
        Step(c.(flashCount := 0, ledOn := false, lastUpdateMs := nowMs), Some(false))
      else Step(c, None)
  }

  /** Every tick keeps the context well formed. */
  lemma TickKeepsWellFormed(c: Context, nowMs: u32)
    requires WellFormed(c)
    ensures WellFormed(Tick(c, nowMs).next)
  {
  }

  /** The pin keeps mirroring `ledOn` through ticks and status requests. */
  lemma PinMirrorsLed(c: Context, pin: bool, status: Status, nowMs: u32)
    requires pin == c.ledOn
    ensures PinAfter(pin, Tick(c, nowMs)) == Tick(c, nowMs).next.ledOn
    ensures PinAfter(pin, SetStatusStep(c, status, nowMs)) == SetStatusStep(c, status, nowMs).next.ledOn
  {
  }

  /** Requesting the same status twice: the second request changes nothing. */
  lemma SetStatusIdempotent(c: Context, status: Status, t1: u32, t2: u32)
    ensures var first := SetStatusStep(c, status, t1).next;
            SetStatusStep(first, status, t2) == Step(first, None)
  {
  }

  /** IDLE only forces the LED off; the timer and the count are left alone. */
  lemma IdleTick(c: Context, nowMs: u32)
    requires c.status == Idle
    ensures Tick(c, nowMs).next == c.(ledOn := false)
    ensures Tick(c, nowMs).put == if c.ledOn then Some(false) else None
  {
  }

  /**
   * READY toggles exactly when 200 ms have elapsed; the toggle restarts the
   * timer, and the blink count stays zero.
   */
  lemma ReadyTick(c: Context, nowMs: u32)
    requires WellFormed(c) && c.status == Ready
    ensures var r := Tick(c, nowMs);
            && (r.put.Some? <==> WrapSub(nowMs, c.lastUpdateMs) >= 200)
            && r.next.flashCount == 0
            && (r.put.Some? ==> r.next.ledOn == !c.ledOn && r.next.lastUpdateMs == nowMs)
  {
  }

  /** ERROR toggles exactly when 50 ms have elapsed; the toggle restarts the timer. */
  lemma ErrorTick(c: Context, nowMs: u32)
    requires WellFormed(c) && c.status == Error
    ensures var r := Tick(c, nowMs);
            && (r.put.Some? <==> WrapSub(nowMs, c.lastUpdateMs) >= 50)
            && r.next.flashCount == 0
            && (r.put.Some? ==> r.next.ledOn == !c.ledOn && r.next.lastUpdateMs == nowMs)
  {
  }

  /** The number of blinks of a burst status: 2 for POLL, 3 for CONFIG. */
  function Blinks(s: Status): nat
    requires s == Poll || s == Config
  {
    if s == Poll then 2 else 3
  }

  /**
   * POLL and CONFIG below their blink count: a toggle happens exactly when
   * 100 ms have elapsed, and the count rises exactly on an on-to-off toggle.
   */
  lemma BurstFlashingTick(c: Context, nowMs: u32)
    requires WellFormed(c) && (c.status == Poll || c.status == Config)
    requires (c.flashCount as int) < Blinks(c.status)
    ensures var r := Tick(c, nowMs);
            && (r.put.Some? <==> WrapSub(nowMs, c.lastUpdateMs) >= 100)
            && (r.put.Some? ==> r.next.ledOn == !c.ledOn && r.next.lastUpdateMs == nowMs)
            && (r.next.flashCount as int ==
                  c.flashCount as int + (if r.put.Some? && c.ledOn then 1 else 0))
  {
  }

  /**
   * POLL and CONFIG at their blink count: only a 300 ms pause ends the burst,
   * resetting the count, forcing the LED off and restarting the timer.
   */
  lemma BurstPauseTick(c: Context, nowMs: u32)
    requires WellFormed(c) && (c.status == Poll || c.status == Config)
    requires c.flashCount as int == Blinks(c.status)
    ensures var r := Tick(c, nowMs);
            && (r.put.Some? <==> WrapSub(nowMs, c.lastUpdateMs) >= 300)
            && (r.put.Some? ==>
                  r.put == Some(false) &&
                  r.next == c.(flashCount := 0, ledOn := false, lastUpdateMs := nowMs))
  {
  }

  /**
   * A property of the unsigned 32-bit subtraction alone: the difference of two
   * values d1 <= d2 steps after t0 is d2 - d1, even across the 2^32 wrap.
   * Millisecond readings never reach that wrap (see ElapsedWithoutMicrosecondWrap
   * and MicrosecondWrapActsAtOnce).
   */
  lemma {:induction false} ElapsedAcrossWrap(t0: u32, d1: nat, d2: nat)
    requires d1 <= d2 < Modulus32
    ensures WrapSub(Advance(t0, d2), Advance(t0, d1)) as int == d2 - d1
  {
    var a := (t0 as int + d1) % Modulus32;
    var b := (t0 as int + d2) % Modulus32;
    var r := WrapSub(Advance(t0, d2), Advance(t0, d1)) as int;
    assert (a + r) % Modulus32 == b;
    assert (a + (d2 - d1)) % Modulus32 == b by {
      ModAddCongruent(t0 as int + d1, d2 - d1);
    }
    ModUnique(a, r, d2 - d1);
  }

  /**
   * Between two microsecond readings with no wrap of the microsecond counter
   * in between, the measured elapsed time is exactly the difference of the
   * two millisecond values.
   */
  lemma ElapsedWithoutMicrosecondWrap(u1: u32, u2: u32)
    requires u1 <= u2
    ensures WrapSub(u2 / 1000, u1 / 1000) as int == u2 as int / 1000 - u1 as int / 1000
  {
  }

  lemma ModAddCongruent(x: int, d: int)
    requires x >= 0 && d >= 0
    ensures (x % Modulus32 + d) % Modulus32 == (x + d) % Modulus32
  {
    var q := x / Modulus32;
    assert x == q * Modulus32 + x % Modulus32;
    assert x + d == q * Modulus32 + (x % Modulus32 + d);
  }

  lemma ModUnique(a: int, r: int, s: int)
    requires 0 <= r < Modulus32 && 0 <= s < Modulus32
    requires (a + r) % Modulus32 == (a + s) % Modulus32
    ensures r == s
  {
    var qr := (a + r) / Modulus32;
    var qs := (a + s) / Modulus32;
    assert a + r == qr * Modulus32 + (a + r) % Modulus32;
    assert a + s == qs * Modulus32 + (a + s) % Modulus32;
    assert r - s == (qr - qs) * Modulus32;
  }

  /** The LED levels after a series of ticks at the given times. */
  function Trace(c: Context, times: seq<u32>): (levels: seq<bool>)
    ensures |levels| == |times|
    decreases |times|
  {
    if times == [] then []
    else
      var r := Tick(c, times[0]);
      [r.next.ledOn] + Trace(r.next, times[1..])
  }

  /**
   * The POLL scenario: after switching to POLL at t0, ticks whose spacing is
   * 100, 100, 100, 100, 300 and 100 ms (measured as the firmware measures
   * it, modulo 2^32) show on, off, on, off, (pause ends: still off), on:
   * exactly two blinks, then a pause, then the pattern restarts.
   */
  lemma PollBlinkScenario(c: Context, ts: seq<u32>, t0: u32)
    requires c.status != Poll && |ts| == 6
    requires WrapSub(ts[0], t0) == 100 && WrapSub(ts[1], ts[0]) == 100
    requires WrapSub(ts[2], ts[1]) == 100 && WrapSub(ts[3], ts[2]) == 100
    requires WrapSub(ts[4], ts[3]) == 300 && WrapSub(ts[5], ts[4]) == 100
    ensures Trace(SetStatusStep(c, Poll, t0).next, ts) == [true, false, true, false, false, true]
  {
    var s0 := SetStatusStep(c, Poll, t0).next;
    var s1 := Context(ts[0], Poll, 0, 0, true);
    var s2 := Context(ts[1], Poll, 1, 0, false);
    var s3 := Context(ts[2], Poll, 1, 0, true);
    var s4 := Context(ts[3], Poll, 2, 0, false);
    var s5 := Context(ts[4], Poll, 0, 0, false);
    assert Tick(s0, ts[0]).next == s1;
    assert Tick(s1, ts[1]).next == s2;
    assert Tick(s2, ts[2]).next == s3;
    assert Tick(s3, ts[3]).next == s4;
    assert Tick(s4, ts[4]).next == s5;
    assert Trace(s5, ts[5..]) == [true];
    assert Trace(s4, ts[4..]) == [false, true] by { assert ts[4..][1..] == ts[5..]; }
    assert Trace(s3, ts[3..]) == [false, false, true] by { assert ts[3..][1..] == ts[4..]; }
    assert Trace(s2, ts[2..]) == [true, false, false, true] by { assert ts[2..][1..] == ts[3..]; }
    assert Trace(s1, ts[1..]) == [false, true, false, false, true] by { assert ts[1..][1..] == ts[2..]; }
  }

  /**
   * The millisecond clock is derived from a 32-bit microsecond counter, so it
   * wraps at 4294967 ms rather than at 2^32 ms. A tick just after that wrap
   * sees an elapsed time of more than 4 * 10^9 ms and acts at once, however
   * recent the last transition was.
   */
  lemma MicrosecondWrapActsAtOnce(c: Context, nowUs: u32)
    requires WellFormed(c) && c.status == Error
    requires c.lastUpdateMs == 0xFFFF_FFFF / 1000 && nowUs < 1000
    ensures Tick(c, nowUs / 1000).put.Some?
  {
  }

  /**
   * The LED context as a mutable object. `pin` records the last level written
   * to the LED output and `pinWrites` how many writes there have been.
   */
  class LedIndicator {
    var lastUpdateMs: u32
    var currentStatus: Status
    var flashCount: u8
    var flashIndex: u8
    var ledOn: bool
    ghost var pin: bool
    ghost var pinWrites: nat

    function Ctx(): Context
      reads this
    {
      Context(lastUpdateMs, currentStatus, flashCount, flashIndex, ledOn)
    }

    ghost predicate Valid()
      reads this
    {
      pin == ledOn && WellFormed(Ctx())
    }

    /** Initialisation: pin driven low, status IDLE, counters and timer zero. */
    constructor ()
      ensures Valid()
      ensures Ctx() == Initial()
      ensures !pin && pinWrites == 1
    {
      pin := false;
      pinWrites := 1;
      lastUpdateMs := 0;
      currentStatus := Idle;
      flashCount := 0;
      flashIndex := 0;
      ledOn := false;
    }

    /** A status request at time `nowUs` (microseconds). */
    method SetStatus(status: Status, nowUs: u32)
      requires Valid()
      modifies this
      ensures Valid()
      ensures Ctx() == SetStatusStep(old(Ctx()), status, nowUs / 1000).next
      ensures pinWrites == old(pinWrites) + Writes(SetStatusStep(old(Ctx()), status, nowUs / 1000))
      ensures status == old(currentStatus) ==> unchanged(this)
    {
      if currentStatus != status {
        currentStatus := status;
        flashCount := 0;
        flashIndex := 0;
        ledOn := false;
        pin := false;
        pinWrites := pinWrites + 1;
        lastUpdateMs := nowUs / 1000;
      }
    }

    /** Drive the pin to the current `ledOn` level. */
    method PutLed()
      modifies this`pin, this`pinWrites
      ensures pin == ledOn && pinWrites == old(pinWrites) + 1
    {
      pin := ledOn;
      pinWrites := pinWrites + 1;
    }

    /** The periodic timer tick at time `nowUs` (microseconds). */
    method Update(nowUs: u32)
      requires Valid()
      modifies this
      ensures Valid()
      ensures Ctx() == Tick(old(Ctx()), nowUs / 1000).next
      ensures pinWrites == old(pinWrites) + Writes(Tick(old(Ctx()), nowUs / 1000))
      ensures pinWrites <= old(pinWrites) + 1
    {
      var nowMs := nowUs / 1000;
      var elapsed := WrapSub(nowMs, lastUpdateMs);
      match currentStatus {
        case Idle =>
          if ledOn {
            ledOn := false;
            PutLed();
          }
        case Ready =>
          if elapsed >= 200 {
            ledOn := !ledOn;
            PutLed();
            lastUpdateMs := nowMs;
            if !ledOn {
              flashCount := ((flashCount as int + 1) % 0x100) as u8;
              if flashCount >= 1 {
                flashCount := 0;
              }
            }
          }
        case Poll =>
          if flashCount < 2 {
            if elapsed >= 100 {
              ledOn := !ledOn;
              PutLed();
              lastUpdateMs := nowMs;
              if !ledOn {
                flashCount := flashCount + 1;
              }
            }
          } else {
            if elapsed >= 300 {
              flashCount := 0;
              ledOn := false;
              PutLed();
              lastUpdateMs := nowMs;
            }
          }
        case Config =>
          if flashCount < 3 {
            if elapsed >= 100 {
              ledOn := !ledOn;
              PutLed();
              lastUpdateMs := nowMs;
              if !ledOn {
                flashCount := flashCount + 1;
              }
            }
          } else {
            if elapsed >= 300 {
              flashCount := 0;
              ledOn := false;
              PutLed();
              lastUpdateMs := nowMs;
            }
          }
        case Error =>
          if elapsed >= 50 {
            ledOn := !ledOn;
            PutLed();
            lastUpdateMs := nowMs;
          }
      }
    }
  }
}
