/**
 * Line-sensor arithmetic of the robot's line follower.
 *
 * The three control scripts (bartender, janitor and the shared one) carry the
 * same definitions with the same constants, so they are modelled once here.
 * Sensor readings are integers; the normalised values and motor commands are
 * modelled over `real` (exact arithmetic, no floating-point error), and
 * Python's `round` (half to even) is modelled exactly on reals.
 */
module LineSensor {

  /** Raw readings below this count as fully white. */
  const WhiteThreshold: int := 220
  /** Raw readings above this count as fully black. */
  const BlackThreshold: int := 3000
  /** Motor command for straight-ahead driving; commands range over twice this. */
  const MotorStrength: int := 100

  /** Width of the linear band between the two thresholds. */
  const Span: real := (BlackThreshold - WhiteThreshold) as real

  // ---------------------------------------------------------------------------
  // normalize_brightness
  // ---------------------------------------------------------------------------

  /**
   * Maps a raw reading onto [0, 1]: 0 at or below the white threshold, 1 at or
   * above the black threshold, linear in between (the ensures also fix the
   * values AT the thresholds, where the linear branch is taken).
   */
  function NormalizeBrightness(brightness: int): (n: real)
    ensures 0.0 <= n <= 1.0
    ensures brightness <= WhiteThreshold ==> n == 0.0
    ensures brightness >= BlackThreshold ==> n == 1.0
    ensures WhiteThreshold < brightness < BlackThreshold ==> 0.0 < n < 1.0
  {
    if brightness < WhiteThreshold then 0.0
    else if brightness > BlackThreshold then 1.0
    else (brightness - WhiteThreshold) as real / Span
  }

  /** Brighter-than-before readings never normalise lower. */
  lemma NormalizeMonotone(a: int, b: int)
    requires a <= b
    ensures NormalizeBrightness(a) <= NormalizeBrightness(b)
  {
  }

  /** Inside the band the normalisation is strictly increasing. */
  lemma NormalizeStrictInBand(a: int, b: int)
    requires WhiteThreshold <= a < b <= BlackThreshold
    ensures NormalizeBrightness(a) < NormalizeBrightness(b)
  {
  }

  /**
   * Discrete continuity and linearity: one more raw unit changes the
   * normalised value by at most 1/Span, so there is no jump at either
   * threshold, and by exactly 1/Span inside the band.
   */
  lemma NormalizeStep(b: int)
    ensures 0.0 <= NormalizeBrightness(b + 1) - NormalizeBrightness(b) <= 1.0 / Span
    ensures WhiteThreshold <= b < BlackThreshold ==>
      NormalizeBrightness(b + 1) - NormalizeBrightness(b) == 1.0 / Span
  {
  }

  // ---------------------------------------------------------------------------
  // line_sense
  // ---------------------------------------------------------------------------

  /**
   * "Centerity" of the line: negative when the left sensor sees more black,
   * positive when the right one does, with magnitude the sum of the two
   * readings, and zero when they agree.
   */
  function LineSense(left: real, right: real): (c: real)
    ensures Abs(c) == (if left == right then 0.0 else Abs(left + right))
  {
    if left > right then -(left + right)
    else if left < right then left + right
    else 0.0
  }

  function Abs(x: real): (a: real)
    ensures a >= 0.0 && (a == x || a == -x)
  {
    if x < 0.0 then -x else x
  }

  /** Swapping the two sensors negates the signal. */
  lemma LineSenseAntisymmetric(left: real, right: real)
    ensures LineSense(left, right) == -LineSense(right, left)
  {
  }

  /**
   * For non-negative readings (normalised ones are), the sign of the signal
   * tells which side is darker and it is zero exactly when the readings agree.
   * Without the hypothesis the last clause fails: LineSense(1.0, -1.0) == 0.0.
   */
  lemma LineSenseSign(left: real, right: real)
    requires left >= 0.0 && right >= 0.0
    ensures LineSense(left, right) < 0.0 <==> left > right
    ensures LineSense(left, right) > 0.0 <==> left < right
    ensures LineSense(left, right) == 0.0 <==> left == right
  {
  }

  /** On normalised readings the signal lies in [-2, 2]. */
  lemma LineSenseBounded(left: real, right: real)
    requires 0.0 <= left <= 1.0 && 0.0 <= right <= 1.0
    ensures -2.0 <= LineSense(left, right) <= 2.0
  {
  }

  // ---------------------------------------------------------------------------
  // line_follow: clamp, motor split, rounding
  // ---------------------------------------------------------------------------

  /** `max(min(centerity, 1), -1)`: the signal clamped to [-1, 1]. */
  function Influence(centerity: real): (i: real)
    ensures -1.0 <= i <= 1.0
    ensures -1.0 <= centerity <= 1.0 ==> i == centerity
    ensures centerity > 1.0 ==> i == 1.0
    ensures centerity < -1.0 ==> i == -1.0
  {
    var m := if centerity <= 1.0 then centerity else 1.0;
    if m >= -1.0 then m else -1.0
  }

  /** Clamping is monotone and odd. */
  lemma InfluenceMonotoneOdd(a: real, b: real)
    ensures a <= b ==> Influence(a) <= Influence(b)
    ensures Influence(-a) == -Influence(a)
  {
  }

  /**
   * The left motor's command before rounding: above straight-ahead speed
   * exactly when the influence is positive (the right sensor is darker), and within [0, 2 * MotorStrength]
   * for a clamped influence.
   */
  function LeftDrive(influence: real): (d: real)
    ensures d > MotorStrength as real <==> influence > 0.0
    ensures d == MotorStrength as real <==> influence == 0.0
    ensures -1.0 <= influence <= 1.0 ==> 0.0 <= d <= 2.0 * MotorStrength as real
  {
    (1.0 + influence) * MotorStrength as real
  }

  /**
   * The right motor's command before rounding: above straight-ahead speed
   * exactly when the influence is negative (the left sensor is darker), and within [0, 2 * MotorStrength]
   * for a clamped influence.
   */
  function RightDrive(influence: real): (d: real)
    ensures d > MotorStrength as real <==> influence < 0.0
    ensures d == MotorStrength as real <==> influence == 0.0
    ensures -1.0 <= influence <= 1.0 ==> 0.0 <= d <= 2.0 * MotorStrength as real
  {
    (1.0 - influence) * MotorStrength as real
  }

  /**
   * For a clamped influence both unrounded commands lie in
   * [0, 2 * MotorStrength], they always add up to 2 * MotorStrength, and they
   * sit symmetrically about MotorStrength.
   */
  lemma DriveSplit(influence: real)
    requires -1.0 <= influence <= 1.0
    ensures 0.0 <= LeftDrive(influence) <= 2.0 * MotorStrength as real
    ensures 0.0 <= RightDrive(influence) <= 2.0 * MotorStrength as real
    ensures LeftDrive(influence) + RightDrive(influence) == 2.0 * MotorStrength as real
    ensures LeftDrive(influence) - MotorStrength as real == MotorStrength as real - RightDrive(influence)
  {
  }

  /** `n` is an integer within 0.5 of `x`, and the even one at a tie. */
  predicate IsRoundHalfEven(x: real, n: int) {
    && -0.5 <= n as real - x <= 0.5
    && ((n as real - x == 0.5 || x - n as real == 0.5) ==> n % 2 == 0)
  }

  /**
   * Python's `round` on a number: the nearest integer, ties going to the even
   * one. That property pins the result down uniquely (see RoundUnique).
   */
  function RoundHalfEven(x: real): (n: int)
    ensures IsRoundHalfEven(x, n)
  {
    var f := x.Floor;
    var d := x - f as real;
    if d < 0.5 then f
    else if d > 0.5 then f + 1
    else if f % 2 == 0 then f
    else f + 1
  }

  lemma RoundUnique(x: real, n: int)
    requires IsRoundHalfEven(x, n)
    ensures n == RoundHalfEven(x)
  {
  }

  /** Rounding commutes with reflection about an even integer. */
  lemma RoundReflect(c: int, x: real)
    requires c % 2 == 0
    ensures RoundHalfEven(c as real - x) == c - RoundHalfEven(x)
  {
    var n := RoundHalfEven(x);
    var y, m := c as real - x, c - n;
    assert m as real - y == x - n as real;
    if m as real - y == 0.5 || y - m as real == 0.5 {
      assert m == 2 * (c / 2 - n / 2);
    }
    RoundUnique(y, m);
  }

  lemma RoundMonotone(x: real, y: real)
    requires x <= y
    ensures RoundHalfEven(x) <= RoundHalfEven(y)
  {
  }

  /**
   * The pure part of one line-follow step: the two raw readings go through
   * normalisation, the centerity signal, the clamp and the rounded motor split.
   * The two commands always lie in [0, 2 * MotorStrength] and add up to
   * 2 * MotorStrength.
   */
  function LineFollowCommands(rawLeft: int, rawRight: int): (cmd: (int, int))
    ensures 0 <= cmd.0 <= 2 * MotorStrength && 0 <= cmd.1 <= 2 * MotorStrength
    ensures cmd.0 + cmd.1 == 2 * MotorStrength
  {
    var influence := Influence(LineSense(NormalizeBrightness(rawLeft), NormalizeBrightness(rawRight)));
    var l := RoundHalfEven(LeftDrive(influence));
    var r := RoundHalfEven(RightDrive(influence));
    DriveSplit(influence);
    RoundMonotone(0.0, LeftDrive(influence));
    RoundMonotone(LeftDrive(influence), 2.0 * MotorStrength as real);
    RoundReflect(2 * MotorStrength, LeftDrive(influence));
    assert RightDrive(influence) == (2 * MotorStrength) as real - LeftDrive(influence);
    (l, r)
  }

  /** Swapping the two sensors swaps the two motor commands. */
  lemma LineFollowMirror(rawLeft: int, rawRight: int)
    ensures LineFollowCommands(rawRight, rawLeft).0 == LineFollowCommands(rawLeft, rawRight).1
    ensures LineFollowCommands(rawRight, rawLeft).1 == LineFollowCommands(rawLeft, rawRight).0
  {
    var nl, nr := NormalizeBrightness(rawLeft), NormalizeBrightness(rawRight);
    LineSenseAntisymmetric(nl, nr);
    InfluenceMonotoneOdd(LineSense(nl, nr), 0.0);
  }

  /**
   * The robot steers towards the darker side: when the left sensor reads
   * darker the left motor gets at most MotorStrength and the right at least
   * MotorStrength (and the other way round); equal readings drive straight.
   */
  lemma LineFollowSteers(rawLeft: int, rawRight: int)
    ensures NormalizeBrightness(rawLeft) > NormalizeBrightness(rawRight) ==>
      LineFollowCommands(rawLeft, rawRight).0 <= MotorStrength <= LineFollowCommands(rawLeft, rawRight).1
    ensures NormalizeBrightness(rawLeft) < NormalizeBrightness(rawRight) ==>
      LineFollowCommands(rawLeft, rawRight).1 <= MotorStrength <= LineFollowCommands(rawLeft, rawRight).0
    ensures NormalizeBrightness(rawLeft) == NormalizeBrightness(rawRight) ==>
      LineFollowCommands(rawLeft, rawRight) == (MotorStrength, MotorStrength)
  {
    var nl, nr := NormalizeBrightness(rawLeft), NormalizeBrightness(rawRight);
    var i := Influence(LineSense(nl, nr));
    LineSenseSign(nl, nr);
    InfluenceMonotoneOdd(LineSense(nl, nr), 0.0);
    InfluenceMonotoneOdd(0.0, LineSense(nl, nr));
    if i <= 0.0 {
      RoundMonotone(LeftDrive(i), MotorStrength as real);
      RoundMonotone(MotorStrength as real, RightDrive(i));
    }
    if i >= 0.0 {
      RoundMonotone(RightDrive(i), MotorStrength as real);
      RoundMonotone(MotorStrength as real, LeftDrive(i));
    }
  }
}
