/**
 * What the delay line promises, against an unbounded history of every frame pushed: which
 * earlier frames each output frame is, through any number of changes of offset.
 */
module Delay {
  import opened Bytes
  import opened Samples

  /** Lengths in frames; `maxDelay` and `fade` come from milliseconds when the line is opened. */
  datatype Shape = Shape(channels: nat, sampleRate: nat, periodFrames: nat, width: Width, maxDelay: nat, fade: nat)

  type Frame = seq<seq<byte>>

  ghost predicate IsFrame(g: Shape, f: Frame) {
    |f| == g.channels && forall c :: 0 <= c < |f| ==> |f[c]| == g.width
  }

  ghost predicate AllFrames(g: Shape, h: seq<Frame>) {
    forall n :: 0 <= n < |h| ==> IsFrame(g, h[n])
  }

  function Silence(g: Shape): (f: Frame)
    ensures IsFrame(g, f)
  {
    seq(g.channels, c => seq(g.width, b => 0))
  }

  /** Frame `n` of the history, silence before frame zero. */
  function Tap(g: Shape, h: seq<Frame>, n: int): Frame
    requires n < |h|
  {
    if n < 0 then Silence(g) else h[n]
  }

  /** The fade curve, of which the raised cosine is one: inside the unit interval, from zero. */
  type Curve = nat -> real

  ghost predicate IsCurve(g: Shape, curve: Curve) {
    && (forall step: nat :: step < g.fade ==> 0.0 <= curve(step) <= 1.0)
    && (g.fade > 0 ==> curve(0) == 0.0)
  }

  function Weight(g: Shape, curve: Curve, step: nat): real {
    if g.fade == 0 || step >= g.fade then 1.0 else curve(step)
  }

  function Blend(g: Shape, a: Frame, b: Frame, weight: real): (f: Frame)
    requires IsFrame(g, a) && IsFrame(g, b)
    ensures IsFrame(g, f)
  {
    seq(g.channels, c requires 0 <= c < g.channels => BlendSample(a[c], b[c], weight))
  }

  datatype Line = Line(applied: nat, target: nat, fading: bool, from: nat, to: nat, step: nat,
                       pushed: nat, crossfades: nat)

  function Opened(): Line {
    Line(0, 0, false, 0, 0, 0, 0, 0)
  }

  /** No tap is further back than the line reaches. */
  predicate InReach(g: Shape, s: Line) {
    s.applied <= g.maxDelay && s.target <= g.maxDelay && s.from <= g.maxDelay && s.to <= g.maxDelay
    && (s.fading ==> s.step <= g.fade)
  }

  // ---------------------------------------------------------------------------
  // Steps.

  function CapacityMs(g: Shape): real
    requires g.sampleRate > 0
  {
    g.maxDelay as real * 1000.0 / g.sampleRate as real
  }

  /** Milliseconds as frames, to the nearest. */
  function FramesOf(ms: real, rate: nat): nat
    requires ms >= 0.0
  {
    NotNegative(ms, rate);
    (ms * rate as real / 1000.0 + 0.5).Floor
  }

  lemma NotNegative(ms: real, rate: nat)
    requires ms >= 0.0
    ensures (ms * rate as real / 1000.0 + 0.5).Floor >= 0
  {
    assert ms * rate as real >= 0.0;
  }

  function OffsetFrames(g: Shape, ms: real): (n: nat)
    requires ms >= 0.0
    ensures n <= g.maxDelay
  {
    var n := FramesOf(ms, g.sampleRate);
    if n > g.maxDelay then g.maxDelay else n
  }

  /** `n` frames are nearer to so many milliseconds than any other number, or the later of the two nearest. */
  ghost predicate Nearest(n: int, ms: real, rate: nat) {
    -500.0 < n as real * 1000.0 - ms * rate as real <= 500.0
  }

  /** From zero to what the line reaches. */
  ghost predicate Reaches(g: Shape, ms: real) {
    0.0 <= ms && ms * g.sampleRate as real <= g.maxDelay as real * 1000.0
  }

  lemma FramesAreNearest(ms: real, rate: nat)
    requires ms >= 0.0
    ensures Nearest(FramesOf(ms, rate), ms, rate)
  {
    var x := ms * rate as real / 1000.0;
    assert x * 1000.0 == ms * rate as real;
    hide Nearest;
    assert FramesOf(ms, rate) == (x + 0.5).Floor;
    NearestFloor(x, ms, rate);
  }

  lemma NearestFloor(x: real, ms: real, rate: nat)
    requires x * 1000.0 == ms * rate as real
    ensures Nearest((x + 0.5).Floor, ms, rate)
  {
  }

  /** The capacity in milliseconds is the reach in frames. */
  lemma WithinCapacity(g: Shape, ms: real)
    requires g.sampleRate > 0
    ensures ms <= CapacityMs(g) <==> ms * g.sampleRate as real <= g.maxDelay as real * 1000.0
  {
    var rate := g.sampleRate as real;
    var spare := CapacityMs(g) - ms;
    assert CapacityMs(g) * rate == g.maxDelay as real * 1000.0;
    assert spare * rate == CapacityMs(g) * rate - ms * rate;
    assert spare >= 0.0 ==> spare * rate >= 0.0;
    assert spare < 0.0 ==> spare * rate < 0.0;
  }

  /** A request: refused outside the range, applied at once by a line that has heard nothing. */
  function Requested(g: Shape, s: Line, ms: real): (r: (Line, bool))
    requires g.sampleRate > 0
    ensures InReach(g, s) ==> InReach(g, r.0)
  {
    if !(ms >= 0.0) || ms > CapacityMs(g) then (s, false)
    else
      var n := OffsetFrames(g, ms);
      (if s.pushed == 0 && !s.fading then s.(target := n, applied := n) else s.(target := n), true)
  }

  /**
   * A request is accepted exactly between zero and what the line reaches, and its target is the
   * number of frames nearest to it. What has been heard is not changed by it: only a line that
   * has heard nothing is there at once.
   */
  lemma RequestIsNearest(g: Shape, s: Line, ms: real)
    requires g.sampleRate > 0
    ensures var (t, accepted) := Requested(g, s, ms);
      && (accepted <==> Reaches(g, ms))
      && (!accepted ==> t == s)
      && (accepted ==> Nearest(t.target, ms, g.sampleRate))
      && t == s.(target := t.target, applied := if accepted && s.pushed == 0 && !s.fading then t.target else s.applied)
  {
    WithinCapacity(g, ms);
    hide CapacityMs, Nearest;
    if 0.0 <= ms <= CapacityMs(g) {
      FramesAreNearest(ms, g.sampleRate);
      NearestInReach(g, ms, FramesOf(ms, g.sampleRate));
    }
    hide FramesOf;
  }

  /** Rounding never passes the reach: the cut at it changes nothing. */
  lemma NearestInReach(g: Shape, ms: real, n: nat)
    requires Nearest(n, ms, g.sampleRate) && ms * g.sampleRate as real <= g.maxDelay as real * 1000.0
    ensures n <= g.maxDelay
  {
  }

  /** A period begins with a fade when the target has moved. */
  function PeriodStart(s: Line): Line {
    if !s.fading && s.target != s.applied then s.(fading := true, from := s.applied, to := s.target, step := 0)
    else s
  }

  function Next(g: Shape, s: Line): Line {
    if !s.fading then s
    else if s.step + 1 > g.fade then
      s.(step := s.step + 1, fading := false, applied := s.to, crossfades := s.crossfades + 1)
    else s.(step := s.step + 1)
  }

  function Later(g: Shape, s: Line, frames: nat): (t: Line)
    ensures InReach(g, s) ==> InReach(g, t)
    decreases frames
  {
    if frames == 0 then s else Later(g, Next(g, s), frames - 1)
  }

  /** Output frame `n`. */
  function Output(g: Shape, curve: Curve, h: seq<Frame>, s: Line, n: nat): (f: Frame)
    requires n < |h| && AllFrames(g, h)
    ensures IsFrame(g, f)
  {
    if s.fading then Blend(g, Tap(g, h, n - s.from), Tap(g, h, n - s.to), Weight(g, curve, s.step))
    else Tap(g, h, n - s.applied)
  }

  function Outputs(g: Shape, curve: Curve, h: seq<Frame>, s: Line, n: nat, frames: nat): (out: seq<Frame>)
    requires n + frames <= |h| && AllFrames(g, h)
    ensures |out| == frames
    decreases frames
  {
    if frames == 0 then [] else [Output(g, curve, h, s, n)] + Outputs(g, curve, h, Next(g, s), n + 1, frames - 1)
  }

  /** One period pushed: the new state and the output, read from the history with the period in it. */
  function Processed(g: Shape, curve: Curve, h: seq<Frame>, s: Line, period: seq<Frame>): (r: (Line, seq<Frame>))
    requires AllFrames(g, h) && AllFrames(g, period)
    ensures |r.1| == |period| && (InReach(g, s) ==> InReach(g, r.0))
  {
    var t := PeriodStart(s).(pushed := s.pushed + |period|);
    (Later(g, t, |period|), Outputs(g, curve, h + period, t, |h|, |period|))
  }

  lemma {:induction false} LaterAdds(g: Shape, s: Line, a: nat, b: nat)
    ensures Later(g, s, a + b) == Later(g, Later(g, s, a), b)
    decreases a
  {
    if a > 0 {
      LaterAdds(g, Next(g, s), a - 1, b);
    }
  }

  lemma {:induction false} OutputAt(g: Shape, curve: Curve, h: seq<Frame>, s: Line, n: nat, frames: nat, i: nat)
    requires n + frames <= |h| && AllFrames(g, h) && i < frames
    ensures Outputs(g, curve, h, s, n, frames)[i] == Output(g, curve, h, Later(g, s, i), n + i)
    decreases frames
  {
    hide Output, Next;
    if i > 0 {
      OutputAt(g, curve, h, Next(g, s), n + 1, frames - 1, i - 1);
    }
  }

  /** A fade runs on for as long as it has frames left, and then lands. */
  lemma {:induction false} FadeRuns(g: Shape, s: Line, k: nat)
    requires s.fading && s.step <= g.fade && s.step + k <= g.fade + 1
    ensures Later(g, s, k) ==
      if s.step + k <= g.fade then s.(step := s.step + k)
      else s.(step := g.fade + 1, fading := false, applied := s.to, crossfades := s.crossfades + 1)
    decreases k
  {
    if k > 0 && s.step + 1 <= g.fade {
      FadeRuns(g, Next(g, s), k - 1);
    } else if k > 0 {
      assert k == 1 && Later(g, s, 1) == Later(g, Next(g, s), 0);
    }
  }

  lemma {:induction false} SteadyStays(g: Shape, s: Line, k: nat)
    requires !s.fading
    ensures Later(g, s, k) == s
  {
    if k > 0 {
      SteadyStays(g, s, k - 1);
    }
  }

  // ---------------------------------------------------------------------------
  // Whole runs.

  datatype Op = Request(ms: real) | Push(period: seq<Frame>)

  ghost predicate Usable(g: Shape, ops: seq<Op>) {
    && g.sampleRate > 0
    && forall i :: 0 <= i < |ops| && ops[i].Push? ==>
         0 < |ops[i].period| <= g.periodFrames && AllFrames(g, ops[i].period)
  }

  function Pushed(ops: seq<Op>): seq<Frame> {
    if ops == [] then [] else (if ops[0].Push? then ops[0].period else []) + Pushed(ops[1..])
  }

  ghost function After(g: Shape, s: Line, ops: seq<Op>): Line
    requires Usable(g, ops)
    decreases |ops|
  {
    if ops == [] then s
    else
      var t := match ops[0]
        case Request(ms) => Requested(g, s, ms).0
        case Push(period) => Later(g, PeriodStart(s).(pushed := s.pushed + |period|), |period|);
      After(g, t, ops[1..])
  }

  ghost function Heard(g: Shape, curve: Curve, h: seq<Frame>, s: Line, ops: seq<Op>): seq<Frame>
    requires Usable(g, ops) && AllFrames(g, h)
    decreases |ops|
  {
    if ops == [] then []
    else
      match ops[0]
      case Request(ms) => Heard(g, curve, h, Requested(g, s, ms).0, ops[1..])
      case Push(period) =>
        var (t, out) := Processed(g, curve, h, s, period);
        out + Heard(g, curve, h + period, t, ops[1..])
  }

  /** The line as it outputs frame `i` of the run. */
  ghost function StateAt(g: Shape, s: Line, ops: seq<Op>, i: nat): Line
    requires Usable(g, ops) && i < |Pushed(ops)|
    decreases |ops|
  {
    match ops[0]
    case Request(ms) => StateAt(g, Requested(g, s, ms).0, ops[1..], i)
    case Push(period) =>
      var t := PeriodStart(s).(pushed := s.pushed + |period|);
      if i < |period| then Later(g, t, i) else StateAt(g, Later(g, t, |period|), ops[1..], i - |period|)
  }

  lemma {:induction false} PushedFrames(g: Shape, ops: seq<Op>)
    requires Usable(g, ops)
    ensures AllFrames(g, Pushed(ops))
  {
    if ops != [] {
      PushedFrames(g, ops[1..]);
    }
  }

  lemma {:induction false} HeardSize(g: Shape, curve: Curve, h: seq<Frame>, s: Line, ops: seq<Op>)
    requires Usable(g, ops) && AllFrames(g, h)
    ensures |Heard(g, curve, h, s, ops)| == |Pushed(ops)|
    decreases |ops|
  {
    hide Requested, Later, Outputs;
    if ops != [] {
      match ops[0]
      case Request(ms) => HeardSize(g, curve, h, Requested(g, s, ms).0, ops[1..]);
      case Push(period) => HeardSize(g, curve, h + period, Processed(g, curve, h, s, period).0, ops[1..]);
    }
  }

  /** More history does not change a frame that was there. */
  lemma OutputLater(g: Shape, curve: Curve, h: seq<Frame>, more: seq<Frame>, s: Line, n: nat)
    requires n < |h| && AllFrames(g, h) && AllFrames(g, h + more)
    ensures Output(g, curve, h + more, s, n) == Output(g, curve, h, s, n)
  {
    hide Blend, Silence, Weight;
  }

  /**
   * Over any run of requests and periods: every output frame is what the line, as it is by
   * then, reads from everything pushed.
   */
  lemma {:induction false} HeardAt(g: Shape, curve: Curve, h: seq<Frame>, s: Line, ops: seq<Op>, i: nat)
    requires Usable(g, ops) && AllFrames(g, h) && AllFrames(g, h + Pushed(ops)) && i < |Pushed(ops)|
    ensures |Heard(g, curve, h, s, ops)| == |Pushed(ops)|
    ensures Heard(g, curve, h, s, ops)[i] == Output(g, curve, h + Pushed(ops), StateAt(g, s, ops, i), |h| + i)
    decreases |ops|
  {
    hide Requested, Later, Outputs, Output;
    HeardSize(g, curve, h, s, ops);
    var rest := ops[1..];
    if ops[0].Request? {
      assert Pushed(ops) == Pushed(rest);
      HeardAt(g, curve, h, Requested(g, s, ops[0].ms).0, rest, i);
    } else {
      var period := ops[0].period;
      var t := PeriodStart(s).(pushed := s.pushed + |period|);
      assert h + period + Pushed(rest) == h + Pushed(ops);
      if i < |period| {
        OutputAt(g, curve, h + period, t, |h|, |period|, i);
        OutputLater(g, curve, h + period, Pushed(rest), Later(g, t, i), |h| + i);
      } else {
        HeardAt(g, curve, h + period, Later(g, t, |period|), rest, i - |period|);
      }
    }
  }

  /** Outside a fade it is the frame the applied delay before, octet for octet, or silence before frame zero. */
  lemma SteadyFrame(g: Shape, curve: Curve, h: seq<Frame>, s: Line, ops: seq<Op>, i: nat)
    requires Usable(g, ops) && AllFrames(g, h) && i < |Pushed(ops)| && !StateAt(g, s, ops, i).fading
    ensures |Heard(g, curve, h, s, ops)| == |Pushed(ops)|
    ensures Heard(g, curve, h, s, ops)[i] == Tap(g, h + Pushed(ops), |h| + i - StateAt(g, s, ops, i).applied)
  {
    PushedFrames(g, ops);
    hide StateAt, Heard, Tap;
    HeardAt(g, curve, h, s, ops, i);
  }

  // ---------------------------------------------------------------------------
  // From one output frame to the next.

  /**
   * A fade goes on with its own two taps, and lands on the second; a line at rest stays where
   * it is, or starts a fade from there to another target.
   */
  ghost predicate Continues(g: Shape, a: Line, b: Line) {
    && b.applied == a.applied
    && if a.fading then b.fading && b.from == a.from && b.to == a.to && b.step == a.step
       else b.fading ==> b.step == 0 && b.from == a.applied && b.to == b.target != a.applied
  }

  lemma {:induction false} FirstState(g: Shape, s: Line, ops: seq<Op>)
    requires Usable(g, ops) && 0 < |Pushed(ops)| && s.pushed > 0
    ensures Continues(g, s, StateAt(g, s, ops, 0))
    decreases |ops|
  {
    if ops[0].Request? {
      FirstState(g, Requested(g, s, ops[0].ms).0, ops[1..]);
      hide OffsetFrames, CapacityMs;
    }
  }

  lemma {:induction false} StateFollows(g: Shape, s: Line, ops: seq<Op>, i: nat)
    requires Usable(g, ops) && i + 1 < |Pushed(ops)|
    ensures Continues(g, Next(g, StateAt(g, s, ops, i)), StateAt(g, s, ops, i + 1))
    decreases |ops|
  {
    hide Requested, Next;
    if ops[0].Request? {
      StateFollows(g, Requested(g, s, ops[0].ms).0, ops[1..], i);
    } else {
      var period := ops[0].period;
      var t := PeriodStart(s).(pushed := s.pushed + |period|);
      if i + 1 <= |period| {
        LaterAdds(g, t, i, 1);
        LaterOnce(g, Later(g, t, i));
        if i + 1 == |period| {
          LaterPushed(g, t, |period|);
          FirstState(g, Later(g, t, |period|), ops[1..]);
        } else {
          ContinuesSelf(g, Later(g, t, i + 1));
        }
      } else {
        StateFollows(g, Later(g, t, |period|), ops[1..], i - |period|);
      }
    }
  }

  lemma LaterOnce(g: Shape, s: Line)
    ensures Later(g, s, 1) == Next(g, s)
  {
    assert Later(g, Next(g, s), 0) == Next(g, s);
  }

  lemma {:induction false} LaterPushed(g: Shape, s: Line, frames: nat)
    ensures Later(g, s, frames).pushed == s.pushed
    decreases frames
  {
    if frames > 0 {
      LaterPushed(g, Next(g, s), frames - 1);
    }
  }

  lemma ContinuesSelf(g: Shape, a: Line)
    ensures Continues(g, a, a)
  {
  }

  lemma {:induction false} FadeGoesOn(g: Shape, s: Line, ops: seq<Op>, i: nat, k: nat)
    requires Usable(g, ops) && i + k < |Pushed(ops)|
    requires StateAt(g, s, ops, i).fading && StateAt(g, s, ops, i).step + k <= g.fade
    ensures var a, b := StateAt(g, s, ops, i), StateAt(g, s, ops, i + k);
      b.fading && b.from == a.from && b.to == a.to && b.step == a.step + k
    decreases k
  {
    hide StateAt;
    if k > 0 {
      FadeGoesOn(g, s, ops, i, k - 1);
      StateFollows(g, s, ops, i + k - 1);
    }
  }

  /**
   * Every fade that starts anywhere in a run blends its two taps for exactly `fade` + 1
   * frames, whatever is requested meanwhile, and then has landed: the next frame is the new
   * tap, unless it is already the first of a fade from there.
   */
  lemma EveryFadeIsWhole(g: Shape, curve: Curve, h: seq<Frame>, s: Line, ops: seq<Op>, i: nat, k: nat)
    requires Usable(g, ops) && AllFrames(g, h) && AllFrames(g, h + Pushed(ops))
    requires i + k < |Pushed(ops)| && k <= g.fade + 1
    requires StateAt(g, s, ops, i).fading && StateAt(g, s, ops, i).step == 0
    ensures |Heard(g, curve, h, s, ops)| == |Pushed(ops)|
    ensures var (all, n, a) := (h + Pushed(ops), |h| + i + k, StateAt(g, s, ops, i));
      var (frame, b) := (Heard(g, curve, h, s, ops)[i + k], StateAt(g, s, ops, i + k));
      if k <= g.fade then
        frame == Blend(g, Tap(g, all, n - a.from), Tap(g, all, n - a.to), if k < g.fade then curve(k) else 1.0)
      else
        && b.applied == a.to
        && (!b.fading ==> frame == Tap(g, all, n - a.to))
        && (b.fading ==> b.step == 0 && b.from == a.to != b.to)
  {
    hide StateAt, Heard, Tap, Blend;
    HeardAt(g, curve, h, s, ops, i + k);
    if k <= g.fade {
      FadeGoesOn(g, s, ops, i, k);
    } else {
      FadeGoesOn(g, s, ops, i, g.fade);
      StateFollows(g, s, ops, i + g.fade);
    }
  }

  // ---------------------------------------------------------------------------
  // Runs that ask for one offset.

  /** Every request is for `n` frames, or refused. */
  ghost predicate AsksFor(g: Shape, ops: seq<Op>, n: nat)
    requires g.sampleRate > 0
  {
    forall i :: 0 <= i < |ops| && ops[i].Request? && 0.0 <= ops[i].ms <= CapacityMs(g) ==>
      OffsetFrames(g, ops[i].ms) == n
  }

  lemma {:induction false} TargetStays(g: Shape, s: Line, ops: seq<Op>, i: nat)
    requires Usable(g, ops) && i < |Pushed(ops)| && AsksFor(g, ops, s.target)
    ensures StateAt(g, s, ops, i).target == s.target
    decreases |ops|
  {
    hide OffsetFrames, CapacityMs;
    if ops[0].Request? {
      TargetStays(g, Requested(g, s, ops[0].ms).0, ops[1..], i);
    } else {
      var period := ops[0].period;
      var t := PeriodStart(s).(pushed := s.pushed + |period|);
      LaterTarget(g, t, if i < |period| then i else |period|);
      hide Later;
      if i >= |period| {
        TargetStays(g, Later(g, t, |period|), ops[1..], i - |period|);
      }
    }
  }

  lemma {:induction false} LaterTarget(g: Shape, s: Line, frames: nat)
    ensures Later(g, s, frames).target == s.target
    decreases frames
  {
    if frames > 0 {
      LaterTarget(g, Next(g, s), frames - 1);
    }
  }

  lemma {:induction false} FirstStateAt(g: Shape, s: Line, ops: seq<Op>)
    requires Usable(g, ops) && 0 < |Pushed(ops)| && AsksFor(g, ops, s.target)
    requires !s.fading && (s.pushed > 0 || s.target == s.applied)
    ensures var a := StateAt(g, s, ops, 0);
      if s.target == s.applied then !a.fading && a.applied == s.applied
      else a.fading && a.step == 0 && a.from == s.applied && a.to == s.target
    decreases |ops|
  {
    hide OffsetFrames, CapacityMs;
    if ops[0].Request? {
      FirstStateAt(g, Requested(g, s, ops[0].ms).0, ops[1..]);
    }
  }

  /** Once at the target, at rest there. */
  lemma {:induction false} RestStays(g: Shape, s: Line, ops: seq<Op>, i: nat, k: nat)
    requires Usable(g, ops) && i + k < |Pushed(ops)| && AsksFor(g, ops, s.target)
    requires !StateAt(g, s, ops, i).fading && StateAt(g, s, ops, i).applied == s.target
    ensures !StateAt(g, s, ops, i + k).fading && StateAt(g, s, ops, i + k).applied == s.target
    decreases k
  {
    hide StateAt, AsksFor;
    if k > 0 {
      RestStays(g, s, ops, i, k - 1);
      StateFollows(g, s, ops, i + k - 1);
      TargetStays(g, s, ops, i + k);
    }
  }

  /** A line at rest delays exactly, however the run is cut into periods and its offset asked for again. */
  lemma SteadyIsExact(g: Shape, curve: Curve, h: seq<Frame>, s: Line, ops: seq<Op>, i: nat)
    requires Usable(g, ops) && AllFrames(g, h) && AsksFor(g, ops, s.target)
    requires !s.fading && s.target == s.applied && i < |Pushed(ops)|
    ensures |Heard(g, curve, h, s, ops)| == |Pushed(ops)|
    ensures Heard(g, curve, h, s, ops)[i] == Tap(g, h + Pushed(ops), |h| + i - s.applied)
  {
    hide StateAt, AsksFor, Heard, Tap;
    FirstStateAt(g, s, ops);
    RestStays(g, s, ops, 0, i);
    SteadyFrame(g, curve, h, s, ops, i);
  }

  /** Every request is for zero milliseconds. */
  ghost predicate AsksForNoDelay(ops: seq<Op>) {
    forall i :: 0 <= i < |ops| && ops[i].Request? ==> ops[i].ms == 0.0
  }

  /** Zero milliseconds is zero frames. */
  lemma ZeroAsksForZero(g: Shape, ops: seq<Op>)
    requires g.sampleRate > 0 && AsksForNoDelay(ops)
    ensures AsksFor(g, ops, 0)
  {
    assert 0.0 * g.sampleRate as real == 0.0;
  }

  /** A run that asks for nothing but zero, or what is nearest zero frames, passes everything through unchanged. */
  lemma ZeroIsCopy(g: Shape, curve: Curve, ops: seq<Op>)
    requires Usable(g, ops) && (AsksForNoDelay(ops) || AsksFor(g, ops, 0))
    ensures Heard(g, curve, [], Opened(), ops) == Pushed(ops)
  {
    assert g.sampleRate > 0;
    hide *;
    if AsksForNoDelay(ops) {
      ZeroAsksForZero(g, ops);
    }
    OpenedIsAtRest(g);
    HeardSize(g, curve, [], Opened(), ops);
    forall i | 0 <= i < |Pushed(ops)|
      ensures Heard(g, curve, [], Opened(), ops)[i] == Pushed(ops)[i]
    {
      SteadyIsExact(g, curve, [], Opened(), ops, i);
      NoDelayTap(g, Pushed(ops), i);
    }
  }

  lemma OpenedIsAtRest(g: Shape)
    ensures !Opened().fading && Opened().target == Opened().applied == 0 && AllFrames(g, [])
  {
  }

  lemma NoDelayTap(g: Shape, h: seq<Frame>, i: nat)
    requires i < |h|
    ensures [] + h == h && Tap(g, h, i) == h[i]
  {
  }

  /**
   * The whole of a change: from rest at one offset to rest at another. The first `fade` + 1
   * frames blend the old tap into the new; every frame after them is the new tap.
   */
  lemma ChangeOfOffset(g: Shape, curve: Curve, h: seq<Frame>, s: Line, ops: seq<Op>, i: nat)
    requires Usable(g, ops) && AllFrames(g, h) && AllFrames(g, h + Pushed(ops)) && AsksFor(g, ops, s.target)
    requires !s.fading && s.pushed > 0 && s.target != s.applied && i < |Pushed(ops)|
    ensures |Heard(g, curve, h, s, ops)| == |Pushed(ops)|
    ensures var all, n := h + Pushed(ops), |h| + i;
      Heard(g, curve, h, s, ops)[i] ==
      if i <= g.fade then
        Blend(g, Tap(g, all, n - s.applied), Tap(g, all, n - s.target), if i < g.fade then curve(i) else 1.0)
      else Tap(g, all, n - s.target)
  {
    hide StateAt, AsksFor, Heard, Tap, Blend;
    FirstStateAt(g, s, ops);
    if i <= g.fade {
      EveryFadeIsWhole(g, curve, h, s, ops, 0, i);
    } else {
      EveryFadeIsWhole(g, curve, h, s, ops, 0, g.fade + 1);
      StateFollows(g, s, ops, g.fade);
      TargetStays(g, s, ops, g.fade + 1);
      FadeGoesOn(g, s, ops, 0, g.fade);
      RestStays(g, s, ops, g.fade + 1, i - (g.fade + 1));
      SteadyFrame(g, curve, h, s, ops, i);
    }
  }

  lemma LandedStays(g: Shape, s: Line, left: nat, k: nat)
    requires left <= k && !Later(g, s, left).fading
    ensures Later(g, s, k) == Later(g, s, left)
  {
    LaterAdds(g, s, left, k - left);
    SteadyStays(g, Later(g, s, left), k - left);
  }

  /** The first frame of a fade is the old tap, if it has frames to fade over, and its last the new. */
  lemma FadeMeetsItsEnds(g: Shape, curve: Curve, a: Frame, b: Frame)
    requires IsCurve(g, curve) && IsFrame(g, a) && IsFrame(g, b)
    ensures g.fade > 0 ==> Blend(g, a, b, curve(0)) == a
    ensures Blend(g, a, b, 1.0) == b
  {
    hide BlendSample;
    forall c | 0 <= c < g.channels
      ensures g.fade > 0 ==> BlendSample(a[c], b[c], curve(0)) == a[c]
      ensures BlendSample(a[c], b[c], 1.0) == b[c]
    {
      if g.fade > 0 {
        BlendBetween(a[c], b[c], curve(0));
      }
      BlendBetween(a[c], b[c], 1.0);
    }
  }

  /** Every blended sample lies between its two taps, as near as can be to their shares: a fade never clips. */
  lemma FadeNeverClips(g: Shape, curve: Curve, a: Frame, b: Frame, step: nat, c: nat)
    requires IsCurve(g, curve) && IsFrame(g, a) && IsFrame(g, b) && c < g.channels
    ensures var w := if step < g.fade then curve(step) else 1.0;
      var x, y, z := DecodeSample(a[c]), DecodeSample(b[c]), DecodeSample(Blend(g, a, b, w)[c]);
      (x <= z <= y || y <= z <= x) && IsBlend(x, y, z, w)
  {
    hide BlendSample, DecodeSample, IsBlend;
    BlendBetween(a[c], b[c], if step < g.fade then curve(step) else 1.0);
  }

  // ---------------------------------------------------------------------------
  // Settling.

  /** How many more frames may be pushed before the line rests at its target. */
  function Debt(g: Shape, s: Line): nat
    requires s.fading ==> s.step <= g.fade
  {
    if s.fading then
      g.fade + 1 - s.step + if s.target != s.to then g.periodFrames + g.fade + 1 else 0
    else if s.target != s.applied then g.fade + 1
    else 0
  }

  lemma PushPays(g: Shape, s: Line, frames: nat)
    requires InReach(g, s) && 0 < frames <= g.periodFrames
    ensures var u := Later(g, PeriodStart(s), frames);
      && InReach(g, u) && u.target == s.target && Debt(g, u) <= (if Debt(g, s) > frames then Debt(g, s) - frames else 0)
  {
    hide Later;
    var t := PeriodStart(s);
    if t.fading {
      var left := g.fade + 1 - t.step;
      if frames < left {
        FadeRuns(g, t, frames);
      } else {
        FadeRuns(g, t, left);
        LandedStays(g, t, left, frames);
      }
    } else {
      SteadyStays(g, t, frames);
    }
  }

  /** A request for the target changes nothing, or ends a wait that is no fade. */
  lemma RequestCosts(g: Shape, s: Line, ms: real)
    requires g.sampleRate > 0 && InReach(g, s)
    requires 0.0 <= ms <= CapacityMs(g) ==> OffsetFrames(g, ms) == s.target
    ensures var u := Requested(g, s, ms).0;
      InReach(g, u) && u.target == s.target && Debt(g, u) <= Debt(g, s)
  {
    hide OffsetFrames, CapacityMs;
  }

  /**
   * From the last new request on the line rests at its target within two fades and a period,
   * whatever it was doing.
   */
  lemma {:induction false} Settles(g: Shape, s: Line, ops: seq<Op>)
    requires Usable(g, ops) && AsksFor(g, ops, s.target) && InReach(g, s)
    requires |Pushed(ops)| >= Debt(g, s)
    ensures var u := After(g, s, ops); !u.fading && u.applied == u.target == s.target
    ensures Debt(g, s) <= 2 * (g.fade + 1) + g.periodFrames
    decreases |ops|
  {
    hide OffsetFrames, CapacityMs;
    if ops != [] && ops[0].Request? {
      RequestCosts(g, s, ops[0].ms);
      Settles(g, Requested(g, s, ops[0].ms).0, ops[1..]);
    } else if ops != [] {
      hide Later, Requested;
      var frames := |ops[0].period|;
      PushPays(g, s.(pushed := s.pushed + frames), frames);
      Settles(g, Later(g, PeriodStart(s).(pushed := s.pushed + frames), frames), ops[1..]);
    }
  }
}
