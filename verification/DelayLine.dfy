/**
 * The delay line as it is built: a ring just longer than it can be asked to reach, written
 * before it is read, with the two taps of a fade. Every call does what module Delay says of
 * an unbounded history, also when input and output are one array.
 */
module DelayLine {
  import opened Arithmetic
  import opened Bytes
  import opened Samples
  import opened RingIndex
  import opened Delay

  datatype Config = Config(channels: nat, sampleRate: nat, periodFrames: nat, sampleBytes: nat,
                           capacityMs: real, fadeMs: real)

  predicate Refused(c: Config) {
    c.channels == 0 || (c.sampleBytes != 2 && c.sampleBytes != 3) || c.periodFrames == 0 || c.sampleRate == 0
    || !(c.capacityMs >= 0.0) || c.fadeMs < 0.0
  }

  function ShapeOf(c: Config): Shape
    requires !Refused(c)
  {
    Shape(c.channels, c.sampleRate, c.periodFrames, c.sampleBytes,
          FramesOf(c.capacityMs, c.sampleRate), FramesOf(c.fadeMs, c.sampleRate))
  }

  /** Every geometry with a frame in it, and every capacity and fade that is not negative, is opened as asked. */
  lemma OpensAsAsked(c: Config)
    ensures Refused(c) <==>
      c.channels < 1 || !(2 <= c.sampleBytes <= 3) || c.periodFrames < 1 || c.sampleRate < 1
      || c.capacityMs < 0.0 || c.fadeMs < 0.0
    ensures !Refused(c) ==>
      var g := ShapeOf(c);
      && g == Shape(c.channels, c.sampleRate, c.periodFrames, c.sampleBytes, g.maxDelay, g.fade)
      && Nearest(g.maxDelay, c.capacityMs, c.sampleRate) && Nearest(g.fade, c.fadeMs, c.sampleRate)
  {
    if !Refused(c) {
      FramesAreNearest(c.capacityMs, c.sampleRate);
      FramesAreNearest(c.fadeMs, c.sampleRate);
      hide FramesOf, Nearest;
    }
  }

  /**
   * The ring proper is one array of samples, addressed sample by sample; taking the
   * frame first and then the channel is the same place.
   */
  lemma FlatIndex(ringFrames: nat, channels: nat, frame: nat, channel: nat)
    requires ringFrames > 0 && channel < channels
    ensures ringFrames * channels > 0
    ensures (frame * channels + channel) % (ringFrames * channels) == frame % ringFrames * channels + channel
  {
    var q, r := frame / ringFrames, frame % ringFrames;
    assert frame == q * ringFrames + r;
    FlatPlace(ringFrames, channels, q, r, channel);
    Placed(frame * channels + channel, ringFrames * channels, q, r * channels + channel);
  }

  lemma Placed(value: nat, flat: nat, q: nat, place: nat)
    requires place < flat && value == q * flat + place
    ensures value % flat == place
  {
    DivideUnique(value, flat, q, place);
  }

  lemma FlatPlace(ringFrames: nat, channels: nat, q: nat, r: nat, channel: nat)
    requires r < ringFrames && channel < channels
    ensures r * channels + channel < ringFrames * channels
    ensures (q * ringFrames + r) * channels + channel == q * (ringFrames * channels) + (r * channels + channel)
  {
    MultiplyOrdered(r + 1, ringFrames, channels);
    assert (r + 1) * channels == r * channels + channels;
    Distributed(q, ringFrames, r, channels);
  }

  lemma Distributed(q: nat, n: nat, r: nat, m: nat)
    ensures (q * n + r) * m == q * (n * m) + r * m
  {
    assert q * n * m == q * (n * m);
  }

  lemma NothingStored(slots: seq<Frame>)
    requires slots != []
    ensures Stored(slots, [], Less(0, |slots|), 0)
  {
  }

  lemma StartsInReach(c: Config)
    requires !Refused(c)
    ensures ShapeOf(c).sampleRate > 0 && ShapeOf(c).periodFrames > 0
    ensures InReach(ShapeOf(c), Opened()) && AllFrames(ShapeOf(c), [])
  {
    hide FramesOf;
  }

  class DelayLine {
    const curve: Curve
    var shape: Shape
    var ring: array<Frame>
    var writtenFrames: nat
    var appliedDelay: nat
    var targetDelay: nat
    var fading: bool
    var fadeFrom: nat
    var fadeTo: nat
    var fadeStep: nat
    var pushedFrames: nat
    var crossfades: nat

    /** Every frame pushed since the line was opened. */
    ghost var history: seq<Frame>

    ghost function State(): Line
      reads this
    {
      Line(appliedDelay, targetDelay, fading, fadeFrom, fadeTo, fadeStep, pushedFrames, crossfades)
    }

    predicate IsOpen()
      reads this
    {
      ring.Length > 0
    }

    /** The ring still holds every frame the line can be asked for. */
    ghost predicate Valid()
      reads this, ring
    {
      IsOpen() ==>
        && shape.sampleRate > 0 && shape.periodFrames > 0
        && ring.Length == shape.maxDelay + shape.fade + shape.periodFrames + 2
        && InReach(shape, State()) && AllFrames(shape, history)
        && |history| == writtenFrames == pushedFrames
        && Stored(ring[..], history, Less(writtenFrames, ring.Length), writtenFrames)
    }

    constructor (curve: Curve)
      ensures Valid() && !IsOpen() && fresh(ring) && this.curve == curve
    {
      this.curve := curve;
      shape := Shape(0, 0, 0, 2, 0, 0);
      ring := new Frame[0];
      writtenFrames, appliedDelay, targetDelay, fading := 0, 0, 0, false;
      fadeFrom, fadeTo, fadeStep, pushedFrames, crossfades := 0, 0, 0, 0, 0;
      history := [];
    }

    method Open(config: Config) returns (ok: bool)
      requires Valid()
      modifies this
      ensures Valid()
      ensures ok <==>
        && config.channels >= 1 && 2 <= config.sampleBytes <= 3 && config.periodFrames >= 1 && config.sampleRate >= 1
        && config.capacityMs >= 0.0 && config.fadeMs >= 0.0
      ensures ok ==>
        && shape.channels == config.channels && shape.width == config.sampleBytes
        && shape.sampleRate == config.sampleRate && shape.periodFrames == config.periodFrames
        && Nearest(shape.maxDelay, config.capacityMs, config.sampleRate)
        && Nearest(shape.fade, config.fadeMs, config.sampleRate)
      ensures ok ==> !Refused(config) && IsOpen() && fresh(ring) && shape == ShapeOf(config)
      ensures ok ==> State() == Opened() && history == []
      ensures !ok ==> unchanged(this)
    {
      hide Less, Stored, FramesOf, ShapeOf, Refused, InReach, AllFrames, Nearest;
      OpensAsAsked(config);
      if Refused(config) {
        return false;
      }
      StartsInReach(config);
      shape := ShapeOf(config);
      ring := new Frame[shape.maxDelay + shape.fade + shape.periodFrames + 2](i => []);
      writtenFrames, appliedDelay, targetDelay, fading := 0, 0, 0, false;
      fadeFrom, fadeTo, fadeStep, pushedFrames, crossfades := 0, 0, 0, 0, 0;
      history := [];
      NothingStored(ring[..]);
      return true;
    }

    method SetOffsetMs(ms: real) returns (ok: bool)
      requires Valid()
      modifies this`targetDelay, this`appliedDelay
      ensures Valid()
      ensures !IsOpen() ==> !ok && State() == old(State())
      ensures IsOpen() ==> (State(), ok) == Requested(shape, old(State()), ms)
      ensures IsOpen() ==>
        (ok <==> Reaches(shape, ms)) && (ok ==> Nearest(targetDelay, ms, shape.sampleRate))
    {
      hide Nearest, Reaches, Stored, CapacityMs, OffsetFrames, AllFrames;
      if IsOpen() {
        RequestIsNearest(shape, State(), ms);
      }
      if !IsOpen() {
        return false;
      }
      if !(ms >= 0.0) || ms > CapacityMs(shape) {
        return false;
      }
      var frames := OffsetFrames(shape, ms);
      targetDelay := frames;
      if pushedFrames == 0 && !fading {
        appliedDelay := frames;
      }
      return true;
    }

    /** A frame the ring still holds, or silence before the first. */
    method FrameAt(n: int) returns (f: Frame)
      requires Valid() && IsOpen() && n < writtenFrames && (n >= 0 ==> Less(writtenFrames, ring.Length) <= n)
      ensures f == Tap(shape, history, n) && IsFrame(shape, f)
    {
      if n < 0 {
        return Silence(shape);
      }
      assert ring[..][n % ring.Length] == history[n];
      return ring[n % ring.Length];
    }

    method BlendFrames(a: Frame, b: Frame, weight: real) returns (f: Frame)
      requires IsFrame(shape, a) && IsFrame(shape, b)
      ensures f == Blend(shape, a, b, weight)
    {
      hide BlendSample;
      f := [];
      for channel := 0 to shape.channels
        invariant |f| == channel
        invariant forall c :: 0 <= c < channel ==> f[c] == BlendSample(a[c], b[c], weight)
      {
        var x, y := DecodeSample(a[channel]), DecodeSample(b[channel]);
        var blended := Mixed(x, y, weight);
        assert EncodeSample(shape.width, Round(blended)) == BlendSample(a[channel], b[channel], weight) by {
          BlendDefinition(a[channel], b[channel], weight);
        }
        f := f + [EncodeSample(shape.width, Round(blended))];
      }
    }

    /** Copy frames from `first` on into the output, silence before frame zero. */
    method CopyOutFrames(first: int, frames: nat, output: array<Frame>, at: nat)
      requires Valid() && IsOpen() && at + frames <= output.Length && output != ring
      requires frames <= ring.Length && first + frames <= writtenFrames
      requires Less(writtenFrames, ring.Length) <= Max(first, 0)
      modifies output
      ensures forall k :: at <= k < at + frames ==> output[k] == Tap(shape, history, first + (k - at))
      ensures forall k :: 0 <= k < output.Length && !(at <= k < at + frames) ==> output[k] == old(output[k])
    {
      hide Silence, Stored;
      ghost var slots := ring[..];
      forall k | at <= k < at + frames {
        output[k] := Silence(shape);
      }
      if first + frames <= 0 {
        return;
      }
      var start: nat := if first < 0 then 0 else first;
      var skip: nat := if first < 0 then -first else 0;
      var count := frames - skip;
      assert ring[..] == slots;
      var piece := CopyOut(ring, start, count);
      PieceIsHistory(slots, history, Less(writtenFrames, ring.Length), writtenFrames, start, piece);
      forall k | at + skip <= k < at + frames {
        output[k] := piece[k - at - skip];
      }
    }

    /**
     * The delayed period in exchange for the next one. Both may live in the same array, since
     * all of the input is stored before any output is written.
     */
    method Process(input: array<Frame>, output: array<Frame>, frames: nat) returns (ok: bool)
      requires Valid() && frames <= input.Length && frames <= output.Length && input != ring && output != ring
      requires AllFrames(shape, input[..frames])
      modifies this, ring, output
      ensures Valid() && ring == old(ring) && shape == old(shape)
      ensures ok <==> old(IsOpen()) && 0 < frames <= shape.periodFrames
      ensures !ok ==> State() == old(State()) && history == old(history) && output[..] == old(output[..])
      ensures ok ==> AllFrames(shape, old(history)) && AllFrames(shape, old(input[..frames]))
      ensures ok ==> history == old(history) + old(input[..frames])
      ensures ok ==>
        (State(), output[..frames]) == Processed(shape, curve, old(history), old(State()), old(input[..frames]))
      ensures output[frames..] == old(output[frames..])
    {
      hide Outputs, Later, Stored, InReach, AllFrames;
      if !IsOpen() || frames == 0 || frames > shape.periodFrames {
        return false;
      }
      ghost var h, s, period := history, State(), input[..frames];
      HearPeriod(input, frames);
      StartFade();
      ghost var t := PeriodStart(s).(pushed := s.pushed + frames);
      ProducePeriod(writtenFrames - frames, frames, output, t);
      return true;
    }

    /** A line that is at rest away from its target starts to fade towards it. */
    method StartFade()
      requires Valid() && IsOpen()
      modifies this`fading, this`fadeFrom, this`fadeTo, this`fadeStep
      ensures Valid() && State() == PeriodStart(old(State()))
    {
      hide Stored;
      if !fading && targetDelay != appliedDelay {
        fading, fadeFrom, fadeTo, fadeStep := true, appliedDelay, targetDelay, 0;
      }
    }

    /** The period's output: the frames of a fade, and then plain copies. */
    method ProducePeriod(base: nat, frames: nat, output: array<Frame>, ghost t: Line)
      requires Valid() && IsOpen() && 0 < frames <= shape.periodFrames && frames <= output.Length && output != ring
      requires base + frames == writtenFrames && State() == t
      modifies this`fading, this`fadeStep, this`appliedDelay, this`crossfades, output
      ensures Valid() && State() == Later(shape, t, frames)
      ensures output[..frames] == Outputs(shape, curve, history, t, base, frames)
      ensures output[frames..] == old(output[frames..])
    {
      hide Outputs, Later, Stored, Tap;
      var done := FadePeriod(base, frames, output, t);
      assert output[frames..] == output[done..][frames - done..];
      if done < frames {
        ghost var faded := output[..];
        CopyOutFrames(base - appliedDelay + done, frames - done, output, done);
        SteadyOutputs(shape, curve, history, t, base, frames, done);
        assert output[..done] == faded[..done];
      }
    }

    /** The period goes into the ring first, so a delay of zero reads back what was just written. */
    method HearPeriod(input: array<Frame>, frames: nat)
      requires Valid() && IsOpen() && 0 < frames <= shape.periodFrames && frames <= input.Length && input != ring
      requires AllFrames(shape, input[..frames])
      modifies this`writtenFrames, this`pushedFrames, this`history, ring
      ensures Valid() && history == old(history) + old(input[..frames])
      ensures State() == old(State()).(pushed := old(pushedFrames) + frames)
    {
      hide Stored, TwoPieces, InReach;
      var capacity := ring.Length;
      ghost var before := ring[..];
      CopyIn(ring, writtenFrames, input[..frames]);
      StoredLater(
        before, history, Less(writtenFrames, capacity), Less(writtenFrames + frames, capacity), writtenFrames);
      StoredAppend(before, ring[..], history, Less(writtenFrames + frames, capacity), input[..frames]);
      history := history + input[..frames];
      writtenFrames := writtenFrames + frames;
      pushedFrames := pushedFrames + frames;
      assert InReach(shape, State()) by { ReachSame(shape, old(State()), State()); }
    }

    /** The frames of the period a fade under way takes. */
    method FadePeriod(base: nat, frames: nat, output: array<Frame>, ghost t: Line) returns (done: nat)
      requires Valid() && IsOpen() && 0 < frames <= shape.periodFrames && frames <= output.Length && output != ring
      requires base + frames == writtenFrames && State() == t
      modifies this`fading, this`fadeStep, this`appliedDelay, this`crossfades, output
      ensures Valid() && done <= frames && (done < frames ==> !fading)
      ensures State() == Later(shape, t, frames) == Later(shape, t, done)
      ensures output[..done] == Outputs(shape, curve, history, t, base, frames)[..done]
      ensures output[done..] == old(output[done..])
    {
      hide Output, Outputs, Next, Later, Stored, InReach;
      done := 0;
      LaterNone(shape, t);
      while done < frames && fading
        invariant Valid() && IsOpen() && done <= frames
        invariant State() == Later(shape, t, done)
        invariant output[..done] == Outputs(shape, curve, history, t, base, frames)[..done]
        invariant output[done..] == old(output[done..])
      {
        ghost var before := output[..];
        OutputAt(shape, curve, history, t, base, frames, done);
        LaterAdds(shape, t, done, 1);
        LaterOnce(shape, State());
        FadeFrame(base, done, output);
        assert output[..done] == before[..done] && output[done + 1..] == before[done + 1..];
        done := done + 1;
      }
      if done < frames {
        LandedStays(shape, t, done, frames);
      }
    }

    /** Output frame `base` + `done`, blended, and a step further into the fade. */
    method FadeFrame(base: nat, done: nat, output: array<Frame>)
      requires Valid() && IsOpen() && fading && done < output.Length && output != ring
      requires base + done < writtenFrames <= base + shape.periodFrames
      modifies this`fading, this`fadeStep, this`appliedDelay, this`crossfades, output
      ensures Valid() && State() == Next(shape, old(State()))
      ensures output[..] == old(output[..])[done := Output(shape, curve, history, old(State()), base + done)]
    {
      hide Silence, Blend, Stored, Weight, Tap;
      var weight := Weight(shape, curve, fadeStep);
      var a := FrameAt(base - fadeFrom + done);
      var b := FrameAt(base - fadeTo + done);
      output[done] := BlendFrames(a, b, weight);
      fadeStep := fadeStep + 1;
      if fadeStep > shape.fade {
        fading, appliedDelay, crossfades := false, fadeTo, crossfades + 1;
      }
    }
  }

  lemma LaterNone(g: Shape, s: Line)
    ensures Later(g, s, 0) == s
  {
  }

  lemma ReachSame(g: Shape, s: Line, t: Line)
    requires InReach(g, s) && t == s.(pushed := t.pushed)
    ensures InReach(g, t)
  {
  }

  /** After a fade has landed the rest of the period is the tap it landed on. */
  lemma SteadyOutputs(g: Shape, curve: Curve, h: seq<Frame>, s: Line, n: nat, frames: nat, done: nat)
    requires n + frames <= |h| && AllFrames(g, h) && done <= frames && !Later(g, s, done).fading
    ensures forall k :: done <= k < frames ==>
      Outputs(g, curve, h, s, n, frames)[k] == Tap(g, h, n + k - Later(g, s, done).applied)
  {
    forall k | done <= k < frames
      ensures Outputs(g, curve, h, s, n, frames)[k] == Tap(g, h, n + k - Later(g, s, done).applied)
    {
      OutputAt(g, curve, h, s, n, frames, k);
      LandedStays(g, s, done, k);
    }
  }

  function Max(a: int, b: int): int {
    if a < b then b else a
  }

  lemma BlendDefinition(a: seq<byte>, b: seq<byte>, weight: real)
    requires |a| == |b| && (|a| == 2 || |a| == 3)
    ensures BlendSample(a, b, weight) == EncodeSample(|a|, Round(Mixed(DecodeSample(a), DecodeSample(b), weight)))
  {
  }

  lemma PieceIsHistory<F>(slots: seq<F>, history: seq<F>, from: nat, to: nat, start: nat, piece: seq<F>)
    requires slots != [] && Stored(slots, history, from, to) && from <= start && start + |piece| <= to
    requires forall i :: 0 <= i < |piece| ==> piece[i] == slots[(start + i) % |slots|]
    ensures start + |piece| <= |history| && forall i :: 0 <= i < |piece| ==> piece[i] == history[start + i]
  {
    forall i | 0 <= i < |piece|
      ensures piece[i] == history[start + i]
    {
      assert slots[(start + i) % |slots|] == history[start + i];
    }
  }
}
