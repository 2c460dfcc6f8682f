/**
 Go's fixed-width integers and `time.Time`, as far as the recorder uses them.

 A Time is a whole number of nanoseconds since the Unix epoch. Durations are
 nanoseconds too, held in 64 bits.
 */
module GoTime {
  const TWO_32 := 0x1_0000_0000
  const TWO_63 := 0x8000_0000_0000_0000
  const TWO_64 := 0x1_0000_0000_0000_0000

  type uint32 = x: int | 0 <= x < TWO_32
  type uint64 = x: int | 0 <= x < TWO_64
  type int64 = x: int | -TWO_63 <= x < TWO_63

  type Time = int
  type Duration = int64

  const NANOS_PER_SECOND := 1_000_000_000
  const NANOS_PER_MICRO := 1_000
  const MICROS_PER_SECOND := 1_000_000

  // time.Time{}: midnight, January 1 of year 1
  const ZERO_TIME: Time := -62_135_596_800 * NANOS_PER_SECOND
  // An RFC 3339 timestamp names a year from 0 to 9999 in its own zone, which is less than a day from UTC
  const ZONE: Duration := 24 * 3600 * NANOS_PER_SECOND
  const FIRST_TIMESTAMP: Time := -62_167_219_200 * NANOS_PER_SECOND - ZONE
  const END_OF_TIMESTAMPS: Time := 253_402_300_800 * NANOS_PER_SECOND + ZONE

  // ---------- two's complement ----------

  function ToUint64(x: int64): uint64 {
    if x < 0 then x + TWO_64 else x
  }

  function ToInt64(u: uint64): int64 {
    if u < TWO_63 then u else u - TWO_64
  }

  /** The value a 64-bit signed register holds after an overflowing computation of x. */
  function Wrap(x: int): int64 {
    ToInt64(x % TWO_64)
  }

  // ---------- time.Time ----------

  // Seconds, and nanoseconds within the second: 0 <= Nanosecond(t) also before 1970
  function Second(t: Time): int {
    t / NANOS_PER_SECOND
  }

  function Nanosecond(t: Time): int {
    t % NANOS_PER_SECOND
  }

  /** time.Time.UnixMicro */
  function UnixMicro(t: Time): int64 {
    Wrap(Second(t) * MICROS_PER_SECOND + Nanosecond(t) / NANOS_PER_MICRO)
  }

  // Go's / on integers truncates toward zero
  function Quotient(a: int, b: int): int
    requires b > 0
  {
    if a < 0 then -(-a / b) else a / b
  }

  /** time.Unix: nanoseconds outside one second are carried into the seconds. */
  function Unix(sec: int, nsec: int): Time {
    if 0 <= nsec < NANOS_PER_SECOND then
      sec * NANOS_PER_SECOND + nsec
    else
      var n := Quotient(nsec, NANOS_PER_SECOND);
      var rest := nsec - n * NANOS_PER_SECOND;
      if rest < 0 then (sec + n - 1) * NANOS_PER_SECOND + (rest + NANOS_PER_SECOND)
      else (sec + n) * NANOS_PER_SECOND + rest
  }

  /** The function time.UnixMicro, back from microseconds. */
  function FromUnixMicro(usec: int64): Time {
    var q := Quotient(usec, MICROS_PER_SECOND);
    Unix(q, (usec - q * MICROS_PER_SECOND) * NANOS_PER_MICRO)
  }

  /** time.Time.Sub: saturates at both ends of a Duration. */
  function Sub(t: Time, u: Time): Duration {
    if t - u < -TWO_63 then -TWO_63
    else if t - u >= TWO_63 then TWO_63 - 1
    else t - u
  }

  // ---------- how TempData keeps a time in a uint64 ----------

  function Stored(t: Time): uint64 {
    ToUint64(UnixMicro(t))
  }

  function Restored(u: uint64): Time {
    FromUnixMicro(ToInt64(u))
  }

  /** Does the microsecond count of t fit in 64 bits? */
  predicate Representable(t: Time) {
    -TWO_63 <= t / NANOS_PER_MICRO < TWO_63
  }

  lemma {:induction false} UnixMicroIsFloor(t: Time)
    ensures Second(t) * MICROS_PER_SECOND + Nanosecond(t) / NANOS_PER_MICRO == t / NANOS_PER_MICRO
  {
    var s, n := Second(t), Nanosecond(t);
    assert t == s * NANOS_PER_SECOND + n;
    assert t == NANOS_PER_MICRO * (s * MICROS_PER_SECOND + n / NANOS_PER_MICRO) + n % NANOS_PER_MICRO;
  }

  lemma {:induction false} FromUnixMicroIsExact(usec: int64)
    ensures FromUnixMicro(usec) == usec * NANOS_PER_MICRO
  {
  }

  /** Conversion to uint64 and back loses nothing. */
  lemma {:induction false} WrapTwice(x: int)
    ensures ToInt64(ToUint64(Wrap(x))) == Wrap(x)
    ensures Wrap(x) == x <==> -TWO_63 <= x < TWO_63
  {
  }

  /**
   The stored time comes back as the floor of the original to a whole
   microsecond, before 1970 too, exactly when its microsecond count fits in
   64 bits.
   */
  lemma {:induction false} RoundTrip(t: Time)
    ensures Restored(Stored(t)) == t - t % 1_000 <==> -0x8000_0000_0000_0000 <= t / 1_000 < 0x8000_0000_0000_0000
    ensures Restored(Stored(t)) == t - t % NANOS_PER_MICRO <==> Representable(t)
  {
    UnixMicroIsFloor(t);
    var us := t / NANOS_PER_MICRO;
    WrapTwice(us);
    FromUnixMicroIsExact(Wrap(us));
    assert t - t % NANOS_PER_MICRO == us * NANOS_PER_MICRO;
  }

  /** Every time an RFC 3339 timestamp can carry, in whatever zone, survives the round trip. */
  lemma {:induction false} TimestampsRoundTrip(t: Time)
    requires FIRST_TIMESTAMP <= t < END_OF_TIMESTAMPS
    ensures Restored(Stored(t)) == t - t % NANOS_PER_MICRO
  {
    assert Representable(t);
    RoundTrip(t);
  }

  /** The stored form is 0, the sign of a field never set, only within the first microsecond of 1970. */
  lemma {:induction false} StoredIsZero(t: Time)
    requires Representable(t)
    ensures Stored(t) == 0 <==> 0 <= t < NANOS_PER_MICRO
  {
    UnixMicroIsFloor(t);
    WrapTwice(t / NANOS_PER_MICRO);
  }

  /**
   A duration measured from the stored start is never too short, and too long
   by at most 999 nanoseconds. Saturation does not break this: it can only
   shrink the error.
   */
  lemma {:induction false} DurationError(start: Time, end: Time)
    requires Representable(start)
    ensures 0 <= Sub(end, Restored(Stored(start))) - Sub(end, start) <= 999
  {
    RoundTrip(start);
  }

  /** Sub is the exact difference where 64 bits hold it, and the nearest end of their range where they do not. */
  lemma {:induction false} SubMeans(t: Time, u: Time)
    ensures -0x8000_0000_0000_0000 <= t - u < 0x8000_0000_0000_0000 ==> Sub(t, u) == t - u
    ensures t - u < -0x8000_0000_0000_0000 ==> Sub(t, u) == -0x8000_0000_0000_0000
    ensures t - u >= 0x8000_0000_0000_0000 ==> Sub(t, u) == 0x7FFF_FFFF_FFFF_FFFF
  {
  }
}
