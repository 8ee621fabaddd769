/**
 * The loop that steers the resampler's ratio by the level of the playout buffer, over the
 * real numbers: what its two limits guarantee of every run, and that it favours neither
 * direction.
 */
module RatioControl {
  datatype Config = Config(targetMs: real, averageMs: real, loopPeriodMs: real, damping: real,
                           limitPpm: real, slewPpmSecond: real)

  const TWO_PI: real := 6.283185307179586
  const PLANT_MS_PER_SECOND_PER_PPM: real := 0.001

  /** A loop period divides; the limits are magnitudes. */
  predicate Sound(c: Config) {
    c.loopPeriodMs != 0.0 && c.limitPpm >= 0.0 && c.slewPpmSecond >= 0.0
  }

  function Omega(c: Config): real
    requires c.loopPeriodMs != 0.0
  {
    TWO_PI * 1000.0 / c.loopPeriodMs
  }

  function IntegralGain(c: Config): real
    requires c.loopPeriodMs != 0.0
  {
    Omega(c) * Omega(c) / PLANT_MS_PER_SECOND_PER_PPM
  }

  function ProportionalGain(c: Config): real
    requires c.loopPeriodMs != 0.0
  {
    2.0 * c.damping * Omega(c) / PLANT_MS_PER_SECOND_PER_PPM
  }

  datatype Loop = Loop(average: real, integral: real, correction: real, updates: nat, primed: bool)

  function Fresh(): Loop {
    Loop(0.0, 0.0, 0.0, 0, false)
  }

  function Ratio(s: Loop): real {
    1.0 + s.correction * 0.000001
  }

  function Clamp(x: real, limit: real): (r: real)
    requires limit >= 0.0
    ensures -limit <= r <= limit && (-limit <= x <= limit ==> r == x)
    ensures (x > limit ==> r == limit) && (x < -limit ==> r == -limit)
  {
    if x > limit then limit else if x < -limit then -limit else x
  }

  function Averaged(c: Config, s: Loop, level: real, elapsed: real): real {
    if !s.primed || c.averageMs <= 0.0 || elapsed >= c.averageMs then level
    else s.average + elapsed / c.averageMs * (level - s.average)
  }

  function Proportional(c: Config, error: real): real
    requires c.loopPeriodMs != 0.0
  {
    ProportionalGain(c) * error
  }

  /** What the integral gains in one update. */
  function Gained(c: Config, error: real, seconds: real): real
    requires c.loopPeriodMs != 0.0
  {
    IntegralGain(c) * error * seconds
  }

  function MaxDelta(c: Config, seconds: real): (d: real)
    requires Sound(c) && seconds >= 0.0
    ensures d >= 0.0
  {
    c.slewPpmSecond * seconds
  }

  /** The answer: the wanted correction slew-limited and clamped, and the rest out of the integral. */
  function Steered(c: Config, s: Loop, average: real, gained: real, proportional: real, maxDelta: real): Loop
    requires c.limitPpm >= 0.0 && maxDelta >= 0.0
  {
    var wanted := s.integral + gained + proportional;
    var correction := Clamp(s.correction + Clamp(wanted - s.correction, maxDelta), c.limitPpm);
    Loop(average, Clamp(correction - proportional, c.limitPpm), correction, s.updates + 1, true)
  }

  function Updated(c: Config, s: Loop, level: real, elapsed: real): Loop
    requires Sound(c)
  {
    if elapsed <= 0.0 then s
    else
      var average := Averaged(c, s, level, elapsed);
      var seconds, error := elapsed / 1000.0, average - c.targetMs;
      Steered(c, s, average, Gained(c, error, seconds), Proportional(c, error), MaxDelta(c, seconds))
  }

  /** One measurement: the level, and the time since the last. */
  datatype Measure = Measure(level: real, elapsed: real)

  function Run(c: Config, s: Loop, measures: seq<Measure>): Loop
    requires Sound(c)
    decreases |measures|
  {
    if measures == [] then s else Run(c, Updated(c, s, measures[0].level, measures[0].elapsed), measures[1..])
  }

  // ---------------------------------------------------------------------------
  // Bounds.

  predicate WithinLimits(c: Config, s: Loop) {
    -c.limitPpm <= s.correction <= c.limitPpm && -c.limitPpm <= s.integral <= c.limitPpm
  }

  /** Time counted by the loop, in seconds: a measure without any is ignored. */
  function Seconds(measures: seq<Measure>): (t: real)
    ensures t >= 0.0
  {
    if measures == [] then 0.0
    else (if measures[0].elapsed > 0.0 then measures[0].elapsed / 1000.0 else 0.0) + Seconds(measures[1..])
  }

  function Abs(x: real): real {
    if x < 0.0 then -x else x
  }

  lemma OneUpdateMoves(c: Config, s: Loop, level: real, elapsed: real)
    requires Sound(c) && WithinLimits(c, s) && elapsed > 0.0
    ensures var t := Updated(c, s, level, elapsed);
      WithinLimits(c, t) && Abs(t.correction - s.correction) <= MaxDelta(c, elapsed / 1000.0)
  {
    hide Gained, Averaged, Proportional, MaxDelta;
  }

  lemma SlewAdds(c: Config, x: real, y: real)
    requires Sound(c) && x >= 0.0 && y >= 0.0
    ensures MaxDelta(c, x) + MaxDelta(c, y) == MaxDelta(c, x + y)
  {
  }

  lemma {:induction false} SlewBinds(c: Config, s: Loop, measures: seq<Measure>)
    requires Sound(c) && WithinLimits(c, s)
    ensures WithinLimits(c, Run(c, s, measures))
    ensures Abs(Run(c, s, measures).correction - s.correction) <= MaxDelta(c, Seconds(measures))
    decreases |measures|
  {
    if measures != [] {
      hide Steered, MaxDelta;
      var m, rest := measures[0], measures[1..];
      if m.elapsed > 0.0 {
        OneUpdateMoves(c, s, m.level, m.elapsed);
        SlewAdds(c, m.elapsed / 1000.0, Seconds(rest));
      }
      SlewBinds(c, Updated(c, s, m.level, m.elapsed), rest);
    }
  }

  /**
   * Whatever levels are measured and however often: the correction and its integral stay
   * within the limit, and between any two moments the correction has moved no further than
   * the slew allows for the time between them.
   */
  lemma BoundedAndSlow(c: Config, s: Loop, measures: seq<Measure>)
    requires Sound(c) && WithinLimits(c, s)
    ensures WithinLimits(c, Run(c, s, measures))
    ensures Abs(Run(c, s, measures).correction - s.correction) <= c.slewPpmSecond * Seconds(measures)
  {
    hide *;
    SlewBinds(c, s, measures);
    MaxDeltaIs(c, Seconds(measures));
  }

  // ---------------------------------------------------------------------------
  // The average.

  ghost predicate Levels(measures: seq<Measure>, low: real, high: real) {
    forall i :: 0 <= i < |measures| ==> low <= measures[i].level <= high
  }

  lemma BetweenStays(a: real, b: real, weight: real, low: real, high: real)
    requires 0.0 <= weight <= 1.0 && low <= a <= high && low <= b <= high
    ensures low <= a + weight * (b - a) <= high
  {
    var d := b - a;
    var step, rest := weight * d, (1.0 - weight) * d;
    assert step + rest == d;
    assert d >= 0.0 ==> step >= 0.0 && rest >= 0.0;
    assert d <= 0.0 ==> step <= 0.0 && rest <= 0.0;
  }

  lemma FractionOfUnit(x: real, y: real)
    requires 0.0 <= x < y
    ensures 0.0 <= x / y <= 1.0
  {
    assert x / y * y == x;
  }

  lemma AverageBetween(c: Config, s: Loop, level: real, elapsed: real, low: real, high: real)
    requires elapsed > 0.0 && low <= level <= high && (s.primed ==> low <= s.average <= high)
    ensures low <= Averaged(c, s, level, elapsed) <= high
  {
    if s.primed && c.averageMs > 0.0 && elapsed < c.averageMs {
      var weight := elapsed / c.averageMs;
      FractionOfUnit(elapsed, c.averageMs);
      BetweenStays(s.average, level, weight, low, high);
    }
  }

  /** The averaged level never leaves the range of the levels measured. */
  lemma {:induction false} AverageInHull(c: Config, s: Loop, measures: seq<Measure>, low: real, high: real)
    requires Sound(c) && Levels(measures, low, high) && (s.primed ==> low <= s.average <= high)
    ensures var t := Run(c, s, measures); t.primed ==> low <= t.average <= high
    decreases |measures|
  {
    if measures != [] {
      var m := measures[0];
      if m.elapsed > 0.0 {
        AverageBetween(c, s, m.level, m.elapsed, low, high);
      }
      AverageInHull(c, Updated(c, s, m.level, m.elapsed), measures[1..], low, high);
    }
  }

  // ---------------------------------------------------------------------------
  // At the target, and about it.

  predicate AtRest(c: Config, s: Loop) {
    s.integral == 0.0 && s.correction == 0.0 && (s.primed ==> s.average == c.targetMs)
  }

  lemma RestStays(c: Config, s: Loop, elapsed: real)
    requires Sound(c) && AtRest(c, s)
    ensures AtRest(c, Updated(c, s, c.targetMs, elapsed))
  {
    if elapsed > 0.0 {
      assert Averaged(c, s, c.targetMs, elapsed) == c.targetMs;
      NoErrorNoGain(c, elapsed / 1000.0);
      hide Averaged, Gained, Proportional, MaxDelta;
    }
  }

  lemma NoErrorNoGain(c: Config, seconds: real)
    requires Sound(c)
    ensures Proportional(c, 0.0) == 0.0 && Gained(c, 0.0, seconds) == 0.0
  {
    hide IntegralGain, ProportionalGain;
    assert ProportionalGain(c) * 0.0 == 0.0;
    assert IntegralGain(c) * 0.0 == 0.0;
  }

  /** A level that is always at the target leaves the ratio at exactly one. */
  lemma {:induction false} TargetKeepsRatioOne(c: Config, s: Loop, measures: seq<Measure>)
    requires Sound(c) && AtRest(c, s)
    requires forall i :: 0 <= i < |measures| ==> measures[i].level == c.targetMs
    ensures Ratio(Run(c, s, measures)) == 1.0 && AtRest(c, Run(c, s, measures))
    decreases |measures|
  {
    if measures != [] {
      RestStays(c, s, measures[0].elapsed);
      hide Updated;
      TargetKeepsRatioOne(c, Updated(c, s, measures[0].level, measures[0].elapsed), measures[1..]);
    }
  }

  function Mirror(c: Config, s: Loop): Loop {
    s.(average := if s.primed then 2.0 * c.targetMs - s.average else s.average,
       integral := -s.integral, correction := -s.correction)
  }

  function MirrorLevels(c: Config, measures: seq<Measure>): (r: seq<Measure>)
    ensures |r| == |measures|
  {
    seq(|measures|, i requires 0 <= i < |measures| => measures[i].(level := 2.0 * c.targetMs - measures[i].level))
  }

  lemma AverageMirrors(c: Config, s: Loop, level: real, elapsed: real)
    ensures Averaged(c, Mirror(c, s), 2.0 * c.targetMs - level, elapsed)
         == 2.0 * c.targetMs - Averaged(c, s, level, elapsed)
  {
    if s.primed && c.averageMs > 0.0 && elapsed < c.averageMs {
      var weight := elapsed / c.averageMs;
      assert weight * (s.average - level) == -(weight * (level - s.average));
    }
  }

  lemma GainsMirror(c: Config, error: real, seconds: real)
    requires Sound(c)
    ensures Proportional(c, -error) == -Proportional(c, error)
    ensures Gained(c, -error, seconds) == -Gained(c, error, seconds)
  {
    var k, p := IntegralGain(c), ProportionalGain(c);
    hide IntegralGain, ProportionalGain;
    assert p * -error == -(p * error);
    assert k * -error == -(k * error);
    assert -(k * error) * seconds == -(k * error * seconds);
  }

  lemma SteerMirrors(c: Config, s: Loop, average: real, gained: real, proportional: real, maxDelta: real)
    requires c.limitPpm >= 0.0 && maxDelta >= 0.0
    ensures Steered(c, Mirror(c, s), 2.0 * c.targetMs - average, -gained, -proportional, maxDelta)
         == Mirror(c, Steered(c, s, average, gained, proportional, maxDelta))
  {
  }

  lemma UpdateMirrors(c: Config, s: Loop, level: real, elapsed: real)
    requires Sound(c)
    ensures Updated(c, Mirror(c, s), 2.0 * c.targetMs - level, elapsed) == Mirror(c, Updated(c, s, level, elapsed))
  {
    if elapsed > 0.0 {
      var error := Averaged(c, s, level, elapsed) - c.targetMs;
      AverageMirrors(c, s, level, elapsed);
      GainsMirror(c, error, elapsed / 1000.0);
      SteerMirrors(c, s, Averaged(c, s, level, elapsed), Gained(c, error, elapsed / 1000.0), Proportional(c, error),
                   MaxDelta(c, elapsed / 1000.0));
      hide Averaged, Steered, Gained, Proportional, MaxDelta;
      assert Averaged(c, Mirror(c, s), 2.0 * c.targetMs - level, elapsed) - c.targetMs == -error;
    }
  }

  /** Mirroring every level about the target negates the correction at every moment. */
  lemma {:induction false} MirroredRun(c: Config, s: Loop, measures: seq<Measure>)
    requires Sound(c)
    ensures Run(c, Mirror(c, s), MirrorLevels(c, measures)) == Mirror(c, Run(c, s, measures))
    ensures Run(c, Mirror(c, s), MirrorLevels(c, measures)).correction == -Run(c, s, measures).correction
    decreases |measures|
  {
    if measures != [] {
      var m := measures[0];
      UpdateMirrors(c, s, m.level, m.elapsed);
      hide Updated;
      assert MirrorLevels(c, measures)[1..] == MirrorLevels(c, measures[1..]);
      MirroredRun(c, Updated(c, s, m.level, m.elapsed), measures[1..]);
    }
  }

  // ---------------------------------------------------------------------------
  // No wind-up.

  /** The integral holds what the correction in force needs at the level in force, as far as the limit lets it. */
  predicate Unwound(c: Config, s: Loop)
    requires Sound(c)
  {
    s.primed ==> s.integral == Clamp(s.correction - Proportional(c, s.average - c.targetMs), c.limitPpm)
  }

  lemma UpdateUnwinds(c: Config, s: Loop, level: real, elapsed: real)
    requires Sound(c) && Unwound(c, s)
    ensures Unwound(c, Updated(c, s, level, elapsed))
  {
    hide Averaged, Gained, Proportional, MaxDelta, Clamp;
  }

  /** Whatever is measured, nothing the limits withheld is left in the integral. */
  lemma {:induction false} NeverWindsUp(c: Config, s: Loop, measures: seq<Measure>)
    requires Sound(c) && Unwound(c, s) && WithinLimits(c, s)
    ensures Unwound(c, Run(c, s, measures)) && WithinLimits(c, Run(c, s, measures))
    decreases |measures|
  {
    if measures != [] {
      var m := measures[0];
      UpdateUnwinds(c, s, m.level, m.elapsed);
      if m.elapsed > 0.0 {
        OneUpdateMoves(c, s, m.level, m.elapsed);
      }
      hide Updated;
      NeverWindsUp(c, Updated(c, s, m.level, m.elapsed), measures[1..]);
    }
  }

  /** What the integral's own limit adds to the next step; nothing while the integral is within it. */
  function Excess(c: Config, s: Loop): real
    requires Sound(c)
  {
    var needed := s.correction - Proportional(c, s.average - c.targetMs);
    Clamp(needed, c.limitPpm) - needed
  }

  /** The gains of a loop with angular frequency `w`, in radians a second. */
  lemma GainsFollow(c: Config, w: real, error: real, seconds: real)
    requires Sound(c) && w * c.loopPeriodMs == 6283.185307179586
    ensures Proportional(c, error) == 2000.0 * c.damping * w * error
    ensures Gained(c, error, seconds) == 1000.0 * w * w * error * seconds
  {
    assert Omega(c) == w by {
      assert Omega(c) * c.loopPeriodMs == 6283.185307179586;
      assert (Omega(c) - w) * c.loopPeriodMs == 0.0;
    }
    hide Omega;
    assert ProportionalGain(c) == 2000.0 * c.damping * w;
    assert IntegralGain(c) == 1000.0 * w * w;
  }

  /** The next correction is the one in force and a step, slew-limited and clamped. */
  lemma CorrectedBy(c: Config, s: Loop, level: real, elapsed: real, step: real)
    requires Sound(c) && Unwound(c, s) && s.primed && elapsed > 0.0
    requires var (before, after) := (s.average - c.targetMs, Averaged(c, s, level, elapsed) - c.targetMs);
      step == Proportional(c, after) - Proportional(c, before) + Gained(c, after, elapsed / 1000.0) + Excess(c, s)
    ensures Updated(c, s, level, elapsed).correction
         == Clamp(s.correction + Clamp(step, MaxDelta(c, elapsed / 1000.0)), c.limitPpm)
  {
    hide Averaged, Gained, Proportional, MaxDelta;
    var average, seconds := Averaged(c, s, level, elapsed), elapsed / 1000.0;
    var gained, proportional := Gained(c, average - c.targetMs, seconds), Proportional(c, average - c.targetMs);
    assert s.integral + gained + proportional - s.correction == step;
  }

  /** The part of the correction that answers an error, in ppm. */
  ghost function Damped(c: Config, w: real, error: real): real {
    1000.0 * (2.0 * c.damping * w * error)
  }

  /** What the law of the loop asks for, in ppm, of an error that goes from one value to the next. */
  ghost function Asked(c: Config, w: real, before: real, after: real, seconds: real): real {
    1000.0 * (2.0 * c.damping * w * (after - before) + w * w * after * seconds)
  }

  /** What the integral's own limit holds back of what the correction in force needs. */
  ghost function Withheld(c: Config, w: real, s: Loop): real
    requires Sound(c)
  {
    var needed := s.correction - Damped(c, w, s.average - c.targetMs);
    Clamp(needed, c.limitPpm) - needed
  }

  lemma AskedInParts(c: Config, w: real, before: real, after: real, seconds: real)
    requires Sound(c) && w * c.loopPeriodMs == 6283.185307179586
    ensures Asked(c, w, before, after, seconds)
         == Proportional(c, after) - Proportional(c, before) + Gained(c, after, seconds)
    ensures Damped(c, w, before) == Proportional(c, before)
  {
    GainsFollow(c, w, before, seconds);
    GainsFollow(c, w, after, seconds);
    hide Proportional, Gained;
    var k, i := c.damping * w, w * w;
    assert Asked(c, w, before, after, seconds) == 1000.0 * (2.0 * k * (after - before) + i * after * seconds);
    assert 2.0 * k * (after - before) == 2.0 * k * after - 2.0 * k * before;
  }

  /**
   * The law of the loop: `w` being two pi to a loop period, the correction moves by 1000 times
   * twice damping times w times the change of the error, and w squared times the error and the
   * time. However hard the loop was held back, the move starts from the correction in force;
   * slew and limit cut it, and what the integral's own limit holds is added.
   */
  lemma CorrectsFromWhereItIs(c: Config, w: real, s: Loop, level: real, elapsed: real)
    requires Sound(c) && Unwound(c, s) && s.primed && elapsed > 0.0 && w * c.loopPeriodMs == 6283.185307179586
    ensures var t, seconds := Updated(c, s, level, elapsed), elapsed / 1000.0;
      var step := Asked(c, w, s.average - c.targetMs, t.average - c.targetMs, seconds) + Withheld(c, w, s);
      t.correction == Clamp(s.correction + Clamp(step, c.slewPpmSecond * seconds), c.limitPpm)
  {
    hide *;
    var average, seconds := Averaged(c, s, level, elapsed), elapsed / 1000.0;
    var before, after := s.average - c.targetMs, average - c.targetMs;
    AskedInParts(c, w, before, after, seconds);
    ExcessIs(c, w, s);
    CorrectedBy(c, s, level, elapsed, Asked(c, w, before, after, seconds) + Excess(c, s));
    MaxDeltaIs(c, seconds);
    UpdatedAverage(c, s, level, elapsed);
  }

  lemma MaxDeltaIs(c: Config, seconds: real)
    requires Sound(c) && seconds >= 0.0
    ensures MaxDelta(c, seconds) == c.slewPpmSecond * seconds
  {
  }

  /** The first correction: the same law from a correction and an error of nothing. */
  lemma FirstCorrection(c: Config, w: real, level: real, elapsed: real)
    requires Sound(c) && elapsed > 0.0 && w * c.loopPeriodMs == 6283.185307179586
    ensures var t, seconds := Updated(c, Fresh(), level, elapsed), elapsed / 1000.0;
      t.correction
      == Clamp(Clamp(Asked(c, w, 0.0, level - c.targetMs, seconds), c.slewPpmSecond * seconds), c.limitPpm)
  {
    hide *;
    var seconds, error := elapsed / 1000.0, level - c.targetMs;
    AskedInParts(c, w, 0.0, error, seconds);
    NoErrorNoGain(c, seconds);
    MaxDeltaIs(c, seconds);
    FirstBy(c, level, elapsed, Asked(c, w, 0.0, error, seconds));
  }

  lemma FirstBy(c: Config, level: real, elapsed: real, step: real)
    requires Sound(c) && elapsed > 0.0
    requires step == Proportional(c, level - c.targetMs) + Gained(c, level - c.targetMs, elapsed / 1000.0)
    ensures Updated(c, Fresh(), level, elapsed).correction
         == Clamp(Clamp(step, MaxDelta(c, elapsed / 1000.0)), c.limitPpm)
  {
    hide Gained, Proportional, MaxDelta;
  }

  lemma ExcessIs(c: Config, w: real, s: Loop)
    requires Sound(c) && w * c.loopPeriodMs == 6283.185307179586
    ensures Excess(c, s) == Withheld(c, w, s)
  {
    AskedInParts(c, w, s.average - c.targetMs, 0.0, 0.0);
    hide Asked, Damped, Proportional, Clamp;
  }

  /** No limit bites in the next update: not the integral's, not the slew's, not the correction's. */
  ghost predicate Free(c: Config, w: real, s: Loop, average: real, seconds: real) {
    var before, after := s.average - c.targetMs, average - c.targetMs;
    var step := Asked(c, w, before, after, seconds);
    && -c.limitPpm <= s.correction - Damped(c, w, before) <= c.limitPpm
    && -(c.slewPpmSecond * seconds) <= step <= c.slewPpmSecond * seconds
    && -c.limitPpm <= s.correction + step <= c.limitPpm
  }

  /** While no limit bites that is all: the correction moves by exactly what the law asks. */
  lemma MovesByTheLaw(c: Config, w: real, s: Loop, level: real, elapsed: real)
    requires Sound(c) && Unwound(c, s) && s.primed && elapsed > 0.0 && w * c.loopPeriodMs == 6283.185307179586
    requires Free(c, w, s, Updated(c, s, level, elapsed).average, elapsed / 1000.0)
    ensures var t := Updated(c, s, level, elapsed);
      && t.correction == s.correction
                         + Asked(c, w, s.average - c.targetMs, t.average - c.targetMs, elapsed / 1000.0)
      && (Ratio(t) - 1.0) * 1000000.0 == t.correction && t.updates == s.updates + 1
  {
    hide *;
    CorrectsFromWhereItIs(c, w, s, level, elapsed);
    NothingBites(c, w, s, Updated(c, s, level, elapsed).average, elapsed / 1000.0);
    RatioIs(Updated(c, s, level, elapsed));
    UpdateCounts(c, s, level, elapsed);
  }

  lemma UpdateCounts(c: Config, s: Loop, level: real, elapsed: real)
    requires Sound(c)
    ensures Updated(c, s, level, elapsed).updates == s.updates + if elapsed > 0.0 then 1 else 0
  {
  }

  lemma RatioIs(s: Loop)
    ensures (Ratio(s) - 1.0) * 1000000.0 == s.correction
  {
  }

  lemma NothingBites(c: Config, w: real, s: Loop, average: real, seconds: real)
    requires Sound(c) && seconds >= 0.0 && Free(c, w, s, average, seconds)
    ensures c.slewPpmSecond * seconds >= 0.0 && Withheld(c, w, s) == 0.0
    ensures var step := Asked(c, w, s.average - c.targetMs, average - c.targetMs, seconds);
      Clamp(s.correction + Clamp(step, c.slewPpmSecond * seconds), c.limitPpm) == s.correction + step
  {
    hide Asked, Damped, Clamp;
    MaxDeltaIs(c, seconds);
  }

  /** The level the loop steers by: the first one seen, then a first-order average over `averageMs`. */
  lemma AverageFollows(c: Config, s: Loop, level: real, elapsed: real)
    requires Sound(c)
    ensures var t := Updated(c, s, level, elapsed);
      if elapsed <= 0.0 then t == s
      else if s.primed && elapsed < c.averageMs then
        t.primed && (t.average - s.average) * c.averageMs == elapsed * (level - s.average)
      else t.primed && t.average == level
  {
    if elapsed > 0.0 {
      UpdatedAverage(c, s, level, elapsed);
      if s.primed && elapsed < c.averageMs {
        var weight, d := elapsed / c.averageMs, level - s.average;
        assert weight * c.averageMs == elapsed;
        assert weight * d * c.averageMs == weight * c.averageMs * d;
      }
    }
  }

  /**
   * The loop closed over its plant, a level that moves by a thousandth of a millisecond a second
   * for each ppm the correction is short of the offset between the clocks. While no limit bites
   * and the level is not averaged, its error obeys the difference equation of an oscillator of
   * angular frequency `w` and the configured damping: period and damping are what was asked for.
   */
  lemma ClosedLoopIsDamped(c: Config, w: real, s: Loop, offset: real, x1: real, elapsed: real, x2: real)
    requires Sound(c) && Unwound(c, s) && s.primed && elapsed > 0.0 && w * c.loopPeriodMs == 6283.185307179586
    requires c.averageMs <= elapsed && Free(c, w, s, x1, elapsed / 1000.0)
    requires x1 == s.average + 0.001 * (offset - s.correction) * (elapsed / 1000.0)
    requires x2 == x1 + 0.001 * (offset - Updated(c, s, x1, elapsed).correction) * (elapsed / 1000.0)
    ensures Updated(c, s, x1, elapsed).average == x1
    ensures var x0, seconds := s.average, elapsed / 1000.0;
      (x2 - x1) - (x1 - x0) == -(2.0 * c.damping * w * (x1 - x0) + w * w * (x1 - c.targetMs) * seconds) * seconds
  {
    hide *;
    AverageFollows(c, s, x1, elapsed);
    MovesByTheLaw(c, w, s, x1, elapsed);
    PlantAnswers(c, w, s.average, x1, s.correction, Updated(c, s, x1, elapsed).correction, offset, elapsed / 1000.0);
  }

  lemma PlantAnswers(c: Config, w: real, x0: real, x1: real, before: real, after: real, offset: real, seconds: real)
    requires x1 == x0 + 0.001 * (offset - before) * seconds
    requires after == before + Asked(c, w, x0 - c.targetMs, x1 - c.targetMs, seconds)
    ensures var x2 := x1 + 0.001 * (offset - after) * seconds;
      (x2 - x1) - (x1 - x0) == -(2.0 * c.damping * w * (x1 - x0) + w * w * (x1 - c.targetMs) * seconds) * seconds
  {
    var asked := 2.0 * c.damping * w * (x1 - x0) + w * w * (x1 - c.targetMs) * seconds;
    assert after == before + 1000.0 * asked by {
      assert x1 - c.targetMs - (x0 - c.targetMs) == x1 - x0;
    }
    hide Asked;
    assert 0.001 * (offset - after) * seconds == 0.001 * (offset - before) * seconds - asked * seconds;
  }

  lemma ProportionalGrows(c: Config, low: real, high: real)
    requires c.loopPeriodMs > 0.0 && c.damping >= 0.0 && low <= high
    ensures Proportional(c, low) <= Proportional(c, high) && Proportional(c, 0.0) == 0.0
  {
    var p := ProportionalGain(c);
    assert Omega(c) > 0.0;
    assert p >= 0.0;
    hide ProportionalGain;
    assert p * high - p * low == p * (high - low);
  }

  lemma GainedHasItsSign(c: Config, error: real, seconds: real)
    requires c.loopPeriodMs > 0.0 && seconds > 0.0 && error >= 0.0
    ensures Gained(c, error, seconds) >= 0.0 && (error > 0.0 ==> Gained(c, error, seconds) > 0.0)
  {
    var w := Omega(c);
    assert w > 0.0;
    hide Omega;
    assert w * w > 0.0;
    var k := IntegralGain(c);
    assert k > 0.0;
    hide IntegralGain;
    assert k * error >= 0.0 && (error > 0.0 ==> k * error > 0.0);
    var gain := k * error;
    assert gain * seconds >= 0.0 && (gain > 0.0 ==> gain * seconds > 0.0);
  }

  lemma AverageRises(c: Config, s: Loop, level: real, elapsed: real)
    requires s.primed && elapsed > 0.0 && level >= s.average
    ensures Averaged(c, s, level, elapsed) >= s.average
  {
    AverageBetween(c, s, level, elapsed, s.average, level);
  }

  /**
   * From any state a run can leave, with the integral at its limit or not: a level that has not
   * come down and is still above the target never lowers the correction, and raises it at once
   * unless it is at its limit. Nothing stored is paid back first.
   */
  lemma FollowsTheError(c: Config, s: Loop, level: real, elapsed: real)
    requires Sound(c) && c.loopPeriodMs > 0.0 && c.damping >= 0.0 && c.slewPpmSecond > 0.0
    requires WithinLimits(c, s) && Unwound(c, s) && s.primed && elapsed > 0.0
    requires level >= s.average && Averaged(c, s, level, elapsed) >= c.targetMs
    ensures var t := Updated(c, s, level, elapsed);
      && t.correction >= s.correction
      && (t.average > c.targetMs ==> t.correction > s.correction || t.correction == c.limitPpm)
  {
    var average, seconds := Averaged(c, s, level, elapsed), elapsed / 1000.0;
    AverageRises(c, s, level, elapsed);
    hide Averaged;
    ProportionalGrows(c, s.average - c.targetMs, average - c.targetMs);
    ProportionalGrows(c, 0.0, average - c.targetMs);
    GainedHasItsSign(c, average - c.targetMs, seconds);
    assert MaxDelta(c, seconds) > 0.0;
    hide Gained, Proportional, MaxDelta;
  }

  lemma UnwoundMirrors(c: Config, s: Loop)
    requires Sound(c) && Unwound(c, s) && WithinLimits(c, s)
    ensures Unwound(c, Mirror(c, s)) && WithinLimits(c, Mirror(c, s))
  {
    if s.primed {
      GainsMirror(c, s.average - c.targetMs, 0.0);
      hide Proportional;
      assert Mirror(c, s).average - c.targetMs == -(s.average - c.targetMs);
    }
  }

  /** A loop that was driven to its upper limit, however long, comes off it on the first level on the other side. */
  lemma LeavesTheLimitAtOnce(c: Config, measures: seq<Measure>, level: real, elapsed: real)
    requires Sound(c) && c.loopPeriodMs > 0.0 && c.damping >= 0.0 && c.slewPpmSecond > 0.0 && c.limitPpm > 0.0
    requires elapsed > 0.0
    requires var s := Run(c, Fresh(), measures);
      s.primed && s.correction == c.limitPpm && level <= s.average && Averaged(c, s, level, elapsed) < c.targetMs
    ensures Updated(c, Run(c, Fresh(), measures), level, elapsed).correction < c.limitPpm
  {
    var s := Run(c, Fresh(), measures);
    NeverWindsUp(c, Fresh(), measures);
    UnwoundMirrors(c, s);
    AverageMirrors(c, s, level, elapsed);
    UpdateMirrors(c, s, level, elapsed);
    hide Run, Averaged, Updated, Unwound;
    FollowsTheError(c, Mirror(c, s), 2.0 * c.targetMs - level, elapsed);
    UpdatedAverage(c, Mirror(c, s), 2.0 * c.targetMs - level, elapsed);
  }

  lemma UpdatedAverage(c: Config, s: Loop, level: real, elapsed: real)
    requires Sound(c) && elapsed > 0.0
    ensures Updated(c, s, level, elapsed).average == Averaged(c, s, level, elapsed)
  {
  }

  // ---------------------------------------------------------------------------
  // The loop in place.

  class RatioControl {
    const config: Config
    var averageLevelMs: real
    var integralPpm: real
    var correctionPpm: real
    var updates: nat
    var primed: bool

    function State(): Loop
      reads this
    {
      Loop(averageLevelMs, integralPpm, correctionPpm, updates, primed)
    }

    ghost predicate Valid()
      reads this
    {
      Sound(config) && WithinLimits(config, State())
    }

    constructor (config: Config)
      requires Sound(config)
      ensures Valid() && this.config == config && State() == Fresh()
    {
      this.config := config;
      averageLevelMs, integralPpm, correctionPpm, updates, primed := 0.0, 0.0, 0.0, 0, false;
    }

    method Update(levelMs: real, elapsedMs: real)
      requires Valid()
      modifies this
      ensures Valid() && State() == Updated(config, old(State()), levelMs, elapsedMs)
    {
      if elapsedMs <= 0.0 {
        return;
      }
      AverageLevel(levelMs, elapsedMs);
      hide Averaged, Gained, Proportional, MaxDelta;
      var seconds := elapsedMs / 1000.0;
      var error := averageLevelMs - config.targetMs;
      var proportional := Proportional(config, error);
      integralPpm := integralPpm + Gained(config, error, seconds);
      var wanted := integralPpm + proportional;
      var delta := wanted - correctionPpm;
      var maxDelta := MaxDelta(config, seconds);
      if delta > maxDelta {
        delta := maxDelta;
      } else if delta < -maxDelta {
        delta := -maxDelta;
      }
      correctionPpm := correctionPpm + delta;
      if correctionPpm > config.limitPpm {
        correctionPpm := config.limitPpm;
      } else if correctionPpm < -config.limitPpm {
        correctionPpm := -config.limitPpm;
      }
      integralPpm := correctionPpm - proportional;
      if integralPpm > config.limitPpm {
        integralPpm := config.limitPpm;
      } else if integralPpm < -config.limitPpm {
        integralPpm := -config.limitPpm;
      }
      updates := updates + 1;
    }

    /** A first-order average, started at the first level. */
    method AverageLevel(levelMs: real, elapsedMs: real)
      requires elapsedMs > 0.0
      modifies this`averageLevelMs, this`primed
      ensures primed && averageLevelMs == Averaged(config, old(State()), levelMs, elapsedMs)
    {
      if !primed {
        averageLevelMs := levelMs;
        primed := true;
      } else if config.averageMs <= 0.0 {
        averageLevelMs := levelMs;
      } else {
        var alpha := if elapsedMs >= config.averageMs then 1.0 else elapsedMs / config.averageMs;
        averageLevelMs := averageLevelMs + alpha * (levelMs - averageLevelMs);
      }
    }

    /** At the clamp, and never past it. */
    method AtLimit() returns (limited: bool)
      requires Valid()
      ensures limited <==> correctionPpm == config.limitPpm || correctionPpm == -config.limitPpm
    {
      limited := Abs(correctionPpm) >= config.limitPpm;
    }
  }
}
