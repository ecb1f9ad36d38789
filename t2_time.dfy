/** The platform timer of the Talaria TWO port: a deadline on the
    system clock.

    The clock (os_systime64) is not part of this model: each operation
    takes the clock reading `now` as a parameter. The deadline is kept in
    the clock's unit: countdown_ms scales its milliseconds by 1000 and
    countdown_sec its seconds by 1000000, and has_timer_expired compares
    the deadline with the clock directly, so that unit is the microsecond. */
module T2Time {
  const TWO_32: int := 0x1_0000_0000
  const TWO_64: int := 0x1_0000_0000_0000_0000

  type uint32 = x: int | 0 <= x < 0x1_0000_0000
  type uint64 = x: int | 0 <= x < 0x1_0000_0000_0000_0000

  /** A uint32_t result: the value reduced modulo 2^32. */
  function Wrap32(x: nat): (r: uint32)
    ensures (x - r) % TWO_32 == 0
    ensures x < TWO_32 ==> r == x
  {
    x % TWO_32
  }

  /** A uint64_t result. */
  function Wrap64(x: int): (r: uint64)
    ensures (x - r) % TWO_64 == 0
    ensures 0 <= x < TWO_64 ==> r == x
    ensures -TWO_64 <= x < 0 ==> r == x + TWO_64
  {
    x % TWO_64
  }

  /** `a * b` on uint32_t. */
  function MulU32(a: uint32, b: uint32): uint32 {
    Wrap32(a * b)
  }

  /** `a + b` on uint64_t. */
  function AddU64(a: uint64, b: uint64): uint64 {
    Wrap64(a + b)
  }

  /** `a - b` on uint64_t: wraps around when b > a. */
  function SubU64(a: uint64, b: uint64): uint64 {
    Wrap64(a - b)
  }

  /** The deadline countdown_ms sets: the timeout in microseconds,
      computed in 32 bits, after the clock reading. */
  function MsDeadline(now: uint64, timeout: uint32): uint64 {
    AddU64(MulU32(timeout, 1000), now)
  }

  /** The deadline countdown_sec sets. */
  function SecDeadline(now: uint64, timeout: uint32): uint64 {
    AddU64(MulU32(timeout, 1_000_000), now)
  }

  /** has_timer_expired */
  predicate Expired(endTime: uint64, now: uint64) {
    now >= endTime
  }

  /** left_ms as written: the deadline minus the clock in milliseconds,
      in 64-bit unsigned arithmetic. */
  function LeftMsAsWritten(endTime: uint64, now: uint64): uint64 {
    SubU64(endTime, now / 1000)
  }

  /** What left_ms evidently means: the whole milliseconds until the
      deadline, and none once it has passed. */
  function LeftMs(endTime: uint64, now: uint64): (ms: uint64)
    ensures Expired(endTime, now) ==> ms == 0
    ensures !Expired(endTime, now) ==> ms * 1000 <= endTime - now < (ms + 1) * 1000
  {
    if now >= endTime then 0 else (endTime - now) / 1000
  }

  /** The largest timeouts whose scaled value fits in 32 bits. */
  const MAX_MS_TIMEOUT: nat := 4_294_967
  const MAX_SEC_TIMEOUT: nat := 4_294

  /** struct Timer */
  class Timer {
    var endTime: uint64

    /** A timer as init_timer leaves it. */
    constructor ()
      ensures endTime == 0
    {
      endTime := 0;
    }

    /** init_timer */
    method InitTimer()
      modifies this
      ensures endTime == 0
    {
      endTime := 0;
    }

    /** has_timer_expired */
    method HasTimerExpired(now: uint64) returns (expired: bool)
      ensures expired <==> Expired(endTime, now)
    {
      expired := now >= endTime;
    }

    /** countdown_ms */
    method CountdownMs(now: uint64, timeout: uint32)
      modifies this
      ensures endTime == MsDeadline(now, timeout)
    {
      endTime := Wrap64(Wrap32(timeout * 1000) + now);
    }

    /** countdown_sec */
    method CountdownSec(now: uint64, timeout: uint32)
      modifies this
      ensures endTime == SecDeadline(now, timeout)
    {
      endTime := Wrap64(Wrap32(timeout * 1_000_000) + now);
    }

    /** left_ms, as written. */
    method LeftMsNow(now: uint64) returns (ms: uint64)
      ensures ms == LeftMsAsWritten(endTime, now)
    {
      ms := Wrap64(endTime - now / 1000);
    }
  }

  // ---------------------------------------------------------------------
  // Properties

  /** A freshly initialised timer has expired whatever the clock says. */
  lemma InitExpired(now: uint64)
    ensures Expired(0, now)
  {
  }

  /** Once expired, a timer stays expired while the clock moves forward. */
  lemma ExpiryMonotonic(endTime: uint64, now: uint64, later: uint64)
    requires Expired(endTime, now) && now <= later
    ensures Expired(endTime, later)
  {
  }

  /** Without wrap-around, countdown_ms(t) at time `start` has not expired
      until the clock reaches start + t milliseconds, and has from then on. */
  lemma CountdownMsExpiry(start: uint64, timeout: uint32, now: uint64)
    requires 0 < timeout <= MAX_MS_TIMEOUT && start + 1000 * timeout < TWO_64
    ensures MsDeadline(start, timeout) == start + 1000 * timeout
    ensures Expired(MsDeadline(start, timeout), now) <==> now >= start + 1000 * timeout
    ensures !Expired(MsDeadline(start, timeout), start)
  {
    assert timeout * 1000 < TWO_32;
  }

  /** The same for countdown_sec, with seconds. */
  lemma CountdownSecExpiry(start: uint64, timeout: uint32, now: uint64)
    requires 0 < timeout <= MAX_SEC_TIMEOUT && start + 1_000_000 * timeout < TWO_64
    ensures SecDeadline(start, timeout) == start + 1_000_000 * timeout
    ensures Expired(SecDeadline(start, timeout), now) <==> now >= start + 1_000_000 * timeout
    ensures !Expired(SecDeadline(start, timeout), start)
  {
    assert timeout * 1_000_000 < TWO_32;
  }

  /** The 32-bit product wraps for longer timeouts: 4294968 ms sets a
      deadline 704 microseconds away, and 4295 s one 32704 microseconds
      away. */
  lemma CountdownWraps(now: uint64)
    requires now < TWO_64 - 1_000_000
    ensures MsDeadline(now, MAX_MS_TIMEOUT + 1) == now + 704
    ensures SecDeadline(now, MAX_SEC_TIMEOUT + 1) == now + 32704
  {
    assert (MAX_MS_TIMEOUT + 1) * 1000 == TWO_32 + 704;
    assert (MAX_SEC_TIMEOUT + 1) * 1_000_000 == TWO_32 + 32704;
  }

  /** left_ms as written subtracts milliseconds from a deadline in
      microseconds: one millisecond after a clock reading of one second it
      reports a million milliseconds left. */
  lemma LeftMsMixesUnits()
    ensures MsDeadline(1_000_000, 1) == 1_001_000
    ensures LeftMsAsWritten(MsDeadline(1_000_000, 1), 1_000_000) == 1_000_000
    ensures LeftMs(MsDeadline(1_000_000, 1), 1_000_000) == 1
  {
  }

  /** Right after countdown_ms(t), t milliseconds are left. */
  lemma LeftMsAfterCountdown(start: uint64, timeout: uint32)
    requires timeout <= MAX_MS_TIMEOUT && start + 1000 * timeout < TWO_64
    ensures LeftMs(MsDeadline(start, timeout), start) == timeout
  {
    assert timeout * 1000 < TWO_32;
    assert MsDeadline(start, timeout) - start == timeout * 1000;
  }

  /** Time left only shrinks as the clock moves forward. */
  lemma LeftMsMonotonic(endTime: uint64, now: uint64, later: uint64)
    requires now <= later
    ensures LeftMs(endTime, later) <= LeftMs(endTime, now)
  {
  }
}
