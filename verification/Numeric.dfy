/** memory/numeric.go, over the reals: the two conversions between token counts or
    seconds and the integers of a `Result`. */
module Numeric {

  const MAX_DURATION: int := 0x7FFF_FFFF_FFFF_FFFF
  const FLOAT_EPSILON_NANOS: real := 0.000001

  /** `time.Duration.Seconds`. */
  function Seconds(nanos: int): real { nanos as real / 1_000_000_000.0 }

  function Ceil(x: real): int { -((-x).Floor) }

  /** `math.Round`: halves go away from zero. */
  function Round(x: real): int { if x >= 0.0 then (x + 0.5).Floor else -((0.5 - x).Floor) }

  function RemainingFloor(value: real): int { if value <= 0.0 then 0 else value.Floor }

  function DurationFromSecondsCeil(seconds: real): int {
    if seconds <= 0.0 then 0 else
    var nanos := seconds * 1_000_000_000.0;
    if nanos >= MAX_DURATION as real then MAX_DURATION else
    var rounded := Round(nanos);
    var off := nanos - rounded as real;
    if (if off < 0.0 then -off else off) < FLOAT_EPSILON_NANOS then rounded else Ceil(nanos)
  }

  /** How far the rounded duration may be from the exact one. It is never a whole
      nanosecond too long, it is too short by less than the epsilon, and it is zero
      exactly for positive durations below the epsilon. */
  lemma DurationBounds(seconds: real)
    requires seconds > 0.0
    ensures var nanos := seconds * 1_000_000_000.0;
            var d := DurationFromSecondsCeil(seconds);
            && 0 <= d <= MAX_DURATION
            && d as real - 1.0 < nanos
            && (d == 0 <==> nanos < FLOAT_EPSILON_NANOS)
            && (nanos < MAX_DURATION as real ==> nanos - FLOAT_EPSILON_NANOS < d as real)
            && (nanos >= MAX_DURATION as real ==> d == MAX_DURATION)
  {
    var nanos := seconds * 1_000_000_000.0;
    assert nanos > 0.0;
    if nanos < MAX_DURATION as real {
      var c := Ceil(nanos);
      assert c as real - 1.0 < nanos <= c as real;
      var r := Round(nanos);
      assert nanos - 0.5 <= r as real <= nanos + 0.5;
    }
  }

  /** A duration within the epsilon of a whole number of nanoseconds becomes that number;
      any other unclamped one is rounded up. */
  lemma DurationExact(seconds: real, n: int)
    requires 0.0 < seconds && seconds * 1_000_000_000.0 < MAX_DURATION as real
    ensures var nanos := seconds * 1_000_000_000.0;
            var d := DurationFromSecondsCeil(seconds);
            && (n as real - FLOAT_EPSILON_NANOS < nanos < n as real + FLOAT_EPSILON_NANOS ==> d == n)
            && (n as real - 1.0 + FLOAT_EPSILON_NANOS <= nanos <= n as real - FLOAT_EPSILON_NANOS ==> d == n)
  {
    var nanos := seconds * 1_000_000_000.0;
    var r := Round(nanos);
    assert nanos - 0.5 <= r as real <= nanos + 0.5;
    var c := Ceil(nanos);
    assert c as real - 1.0 < nanos <= c as real;
  }
}
