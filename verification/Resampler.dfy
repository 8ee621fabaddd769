/**
 * The resampler's carry: whole periods taken from the playout buffer, as many frames used as
 * the converter uses, the rest kept for the next pull. The converter itself is any function
 * that uses no more than it is given and makes no more than it is asked for.
 */
module Resampler {
  import opened Bytes
  import opened PlayoutBuffer
  import Playout

  /** One call of the converter: what it used, what it made, its next state. */
  datatype Conversion<S, F> = Conversion(failed: bool, used: nat, made: seq<F>, next: S)

  type Converter<!S, !F> = (S, seq<F>, nat, real) -> Conversion<S, F>

  ghost predicate Obeys<S(!new), F(!new)>(convert: Converter<S, F>) {
    forall s: S, input: seq<F>, want: nat, ratio: real ::
      convert(s, input, want, ratio).used <= |input| && |convert(s, input, want, ratio).made| <= want
  }

  lemma ConversionBounded<S(!new), F(!new)>(convert: Converter<S, F>, s: S, input: seq<F>, want: nat, ratio: real)
    requires Obeys(convert)
    ensures convert(s, input, want, ratio).used <= |input| && |convert(s, input, want, ratio).made| <= want
  {
  }

  /** Given input and asked for output it always makes or uses something. */
  ghost predicate Willing<S(!new), F(!new)>(convert: Converter<S, F>) {
    forall s: S, input: seq<F>, want: nat, ratio: real ::
      input != [] && want > 0 ==>
        var c := convert(s, input, want, ratio); !c.failed && (c.used > 0 || c.made != [])
  }

  /**
   * It makes `ratio` frames for each it uses, but for what `phase` says its state has made and
   * not yet used the input for.
   */
  ghost predicate KeepsRate<S(!new), F(!new)>(convert: Converter<S, F>, phase: S -> real) {
    forall s: S, input: seq<F>, want: nat, ratio: real ::
      ratio > 0.0 && !convert(s, input, want, ratio).failed ==>
        var c := convert(s, input, want, ratio);
        |c.made| as real - ratio * c.used as real == phase(c.next) - phase(s)
  }

  /**
   * From one state to the other a converter that keeps its rate has used `ratio` frames of input
   * for each frame of output, but for what the two states tell.
   */
  ghost predicate Paced<S(!new), F(!new)>(convert: Converter<S, F>, ratio: real, made: int, used: int, from: S, to: S)
  {
    forall phase: S -> real :: KeepsRate(convert, phase) ==>
      made as real * ratio - used as real == ratio * (phase(to) - phase(from))
  }

  lemma PacedNone<S(!new), F(!new)>(convert: Converter<S, F>, ratio: real, s: S)
    ensures Paced(convert, ratio, 0, 0, s, s)
  {
  }

  lemma PacedOne<S(!new), F(!new)>(convert: Converter<S, F>, ratio: real, s: S, input: seq<F>, want: nat)
    requires ratio > 0.0 && !convert(s, input, want, 1.0 / ratio).failed
    ensures var c := convert(s, input, want, 1.0 / ratio); Paced(convert, ratio, |c.made|, c.used, s, c.next)
  {
    var c := convert(s, input, want, 1.0 / ratio);
    forall phase: S -> real | KeepsRate(convert, phase)
      ensures |c.made| as real * ratio - c.used as real == ratio * (phase(c.next) - phase(s))
    {
      RateKept(convert, phase, s, input, want, ratio);
    }
  }

  lemma PacedOn<S(!new), F(!new)>(convert: Converter<S, F>, ratio: real, made: int, used: int, a: S, b: S,
                                  more: int, again: int, c: S)
    requires Paced(convert, ratio, made, used, a, b) && Paced(convert, ratio, more, again, b, c)
    ensures Paced(convert, ratio, made + more, used + again, a, c)
  {
    forall phase: S -> real | KeepsRate(convert, phase)
      ensures (made + more) as real * ratio - (used + again) as real == ratio * (phase(c) - phase(a))
    {
      assert (made + more) as real * ratio == made as real * ratio + more as real * ratio;
      assert ratio * (phase(c) - phase(a)) == ratio * (phase(c) - phase(b)) + ratio * (phase(b) - phase(a));
    }
  }

  lemma RateKept<S(!new), F(!new)>(convert: Converter<S, F>, phase: S -> real, s: S, input: seq<F>, want: nat,
                                   ratio: real)
    requires KeepsRate(convert, phase) && ratio > 0.0 && !convert(s, input, want, 1.0 / ratio).failed
    ensures var c := convert(s, input, want, 1.0 / ratio);
      |c.made| as real * ratio - c.used as real == ratio * (phase(c.next) - phase(s))
  {
    var c := convert(s, input, want, 1.0 / ratio);
    assert 1.0 / ratio > 0.0;
    var made, used, other := |c.made| as real, c.used as real, 1.0 / ratio;
    assert other * ratio == 1.0;
    assert (made - other * used) * ratio == made * ratio - used * (other * ratio);
  }

  /** A period's octets as frames; the buffer's periods all hold the same number. */
  ghost predicate Decodes<F>(decode: seq<byte> -> seq<F>, frames: nat) {
    forall p: seq<byte> :: |decode(p)| == frames
  }

  datatype Fill = Filled | BufferDry | LookAhead

  datatype Pulled = Full | Short | NotOpen | NoAudio | TooLarge | Dry | OutgrownScratch | ConverterFailed | MadeNothing

  /** The frames of the periods, one after another. */
  ghost function Frames<F>(decode: seq<byte> -> seq<F>, periods: seq<Playout.Played<seq<byte>>>): seq<F> {
    if periods == [] then []
    else Frames(decode, periods[..|periods| - 1]) + decode(periods[|periods| - 1].period)
  }

  /** The sender positions of those frames. */
  ghost function PositionsOf<T>(periods: seq<Playout.Played<T>>, periodFrames: nat): seq<nat> {
    if periods == [] then []
    else
      PositionsOf(periods[..|periods| - 1], periodFrames) + Span(periods[|periods| - 1].position, periodFrames)
  }

  ghost function TakeOps(n: nat): (ops: seq<Playout.Op<seq<byte>>>)
    ensures |ops| == n
  {
    if n == 0 then [] else [Playout.TakeOp] + TakeOps(n - 1)
  }

  /** `n` takes, and the periods they play. */
  ghost predicate Took(g: Playout.Geometry, before: Playout.Playout<seq<byte>>, after: Playout.Playout<seq<byte>>,
                       n: nat, periods: seq<Playout.Played<seq<byte>>>)
    requires g.periodFrames > 0 && Playout.Inv(g, before)
  {
    Playout.Run(g, before, TakeOps(n)) == (after, periods)
  }

  lemma TookNone(g: Playout.Geometry, s: Playout.Playout<seq<byte>>)
    requires g.periodFrames > 0 && Playout.Inv(g, s)
    ensures Took(g, s, s, 0, [])
  {
  }

  lemma {:induction false} TookOneMore(
    g: Playout.Geometry, s: Playout.Playout<seq<byte>>, t: Playout.Playout<seq<byte>>, n: nat,
    periods: seq<Playout.Played<seq<byte>>>)
    requires g.periodFrames > 0 && Playout.Inv(g, s) && Playout.Inv(g, t) && Took(g, s, t, n, periods)
    ensures var (u, out) := Playout.Apply(g, t, Playout.TakeOp);
      Took(g, s, u, n + 1, if out.Some? then periods + [out.value] else periods)
    decreases n
  {
    hide Playout.Inv, Playout.Apply;
    var (u, out) := Playout.Apply(g, t, Playout.TakeOp);
    assert TakeOps(n + 1)[0] == Playout.TakeOp && TakeOps(n + 1)[1..] == TakeOps(n);
    if n == 0 {
      assert TakeOps(0) == [] && Playout.Run(g, u, []) == (u, []);
      assert t == s && periods == [];
      if out.Some? {
        assert [out.value] + [] == [] + [out.value];
      }
    } else {
      assert TakeOps(n)[0] == Playout.TakeOp && TakeOps(n)[1..] == TakeOps(n - 1);
      var (s1, first) := Playout.Apply(g, s, Playout.TakeOp);
      var rest := Playout.Run(g, s1, TakeOps(n - 1)).1;
      TookOneMore(g, s1, t, n - 1, rest);
      if first.Some? && out.Some? {
        assert [first.value] + (rest + [out.value]) == [first.value] + rest + [out.value];
      }
    }
  }

  /** A take that plays leaves fewer periods held, and its position was the head's. */
  lemma TakePlays(g: Playout.Geometry, s: Playout.Playout<seq<byte>>)
    requires g.periodFrames > 0 && Playout.Inv(g, s)
    ensures s.head < s.end ==> s.head in s.held
    ensures Playout.Apply(g, s, Playout.TakeOp) == Playout.Take(g, s)
    ensures var (t, out) := Playout.Take(g, s);
      && (out.Some? ==> |t.held| < |s.held| && t.played == s.played + g.periodFrames)
      && (out.Some? ==> out.value.position == s.head && t.head == s.head + g.periodFrames)
      && (out.None? ==> t.played == s.played && |t.held| <= |s.held|)
      && (out.Some? <==> s.head < s.end) && s.head <= t.head
  {
    Playout.TakeKeeps(g, s);
    Playout.TakeExactly(g, s);
    hide Playout.Inv, Playout.Take, Playout.RunEnd, Playout.Frames, Playout.Capacity;
    assert (s.held - {s.head}).Keys == s.held.Keys - {s.head};
    if s.head in s.held {
      assert |s.held.Keys - {s.head}| == |s.held.Keys| - 1;
    }
  }

  /** Where a pull starts: the window, what was on the books, and how far the buffer is ahead of the converter. */
  datatype Mark<S, F> = Mark(
    window: Playout.Playout<seq<byte>>, taken: seq<F>, positions: seq<nat>, converted: seq<F>,
    ahead: int, inOrder: bool, state: S, ratio: real, used: nat)

  ghost predicate StrictlyIncreasing(s: seq<nat>) {
    forall i, j :: 0 <= i < j < |s| ==> s[i] < s[j]
  }

  ghost function Span(from: nat, n: nat): (s: seq<nat>)
    ensures |s| == n
  {
    seq(n, i requires 0 <= i < n => from + i)
  }

  ghost predicate Gapless(positions: seq<nat>, k: nat)
    requires k < |positions|
  {
    forall i :: 0 <= i <= k ==> positions[i] == positions[0] + i
  }

  /** The sender's frames missing among the first `k` + 1. */
  ghost function Missing(positions: seq<nat>, k: nat): (n: nat)
    requires k < |positions| && StrictlyIncreasing(positions)
  {
    if k == 0 then 0 else Missing(positions, k - 1) + (positions[k] - positions[k - 1] - 1)
  }

  /** Increasing positions are ahead of a count of frames by those missing, and keep up only without gaps. */
  lemma {:induction false} CountedPosition(positions: seq<nat>, k: nat)
    requires StrictlyIncreasing(positions) && k < |positions|
    ensures positions[k] == positions[0] + k + Missing(positions, k)
    ensures Missing(positions, k) == 0 <==> Gapless(positions, k)
  {
    if k > 0 {
      CountedPosition(positions, k - 1);
      assert positions[k - 1] < positions[k];
      if positions[0] + k == positions[k] {
        assert Gapless(positions, k - 1);
      }
    }
  }

  /** What the converter has made since is at the front of the output, in order. */
  ghost predicate Emitted<F>(before: seq<F>, after: seq<F>, output: seq<F>, produced: int) {
    0 <= produced <= |output| && after == before + output[..produced]
  }

  class Resampler<S(!new), F(!new)> {
    const convert: Converter<S, F>
    const decode: seq<byte> -> seq<F>
    const silence: F
    const periodFrames: nat

    var isOpen: bool
    var state: S
    var ratio: real
    const input: array<F>
    var carriedFrames: nat
    var pendingPosition: nat
    var primed: bool
    var inputFrames: nat
    var outputFrames: nat
    var shortPulls: nat

    /** Every frame taken from the buffer, its sender position, and those the converter used. */
    ghost var taken: seq<F>
    ghost var positions: seq<nat>
    ghost var consumed: seq<F>
    /** Everything the converter made. */
    ghost var converted: seq<F>

    /** What was consumed and what is carried are exactly what was taken, in order. */
    ghost predicate Valid()
      reads `carriedFrames, `pendingPosition, `primed, `inputFrames, `outputFrames, `ratio, input
      reads `taken, `positions, `consumed, `converted
    {
      && periodFrames > 0 && input.Length == 4 * periodFrames && carriedFrames <= input.Length
      && Obeys(convert) && Decodes(decode, periodFrames)
      && taken == consumed + input[..carriedFrames]
      && |consumed| == inputFrames && |positions| == |taken|
      && (primed <==> taken != [])
      && (primed ==> pendingPosition == positions[0] + inputFrames)
      && |converted| == outputFrames && ratio > 0.0
    }

    /** The sender's positions have only grown, and the buffer has not played anything that was not taken. */
    ghost predicate InOrder(buffer: PlayoutBuffer)
      reads `positions, buffer`head
    {
      StrictlyIncreasing(positions) && (positions != [] ==> positions[|positions| - 1] < buffer.head)
    }

    /** A buffer of the same periods; another one, rebuilt, may take its place between calls. */
    ghost predicate Sound(buffer: PlayoutBuffer)
      reads `carriedFrames, `pendingPosition, `primed, `inputFrames, `outputFrames, `ratio, input
      reads `taken, `positions, `consumed, `converted
      reads buffer, buffer.positions, buffer.audio
    {
      Valid() && buffer.Valid() && buffer.g.periodFrames == periodFrames
    }

    ghost function Here(buffer: PlayoutBuffer): Mark<S, F>
      reads `carriedFrames, `inputFrames, `taken, `positions, `converted, `state, `ratio, buffer
    {
      Mark(buffer.Model(), taken, positions, converted,
           buffer.played - inputFrames - carriedFrames, InOrder(buffer), state, ratio, inputFrames)
    }

    /** `n` takes since the mark played `periods`, all of them taken here, and no frame is unaccounted for. */
    ghost predicate Since(mark: Mark<S, F>, buffer: PlayoutBuffer, n: nat, periods: seq<Playout.Played<seq<byte>>>)
      reads `carriedFrames, `pendingPosition, `primed, `inputFrames, `outputFrames, `ratio, input
      reads `taken, `positions, `consumed, `converted, `state
      reads buffer, buffer.positions, buffer.audio
    {
      && ratio == mark.ratio
      && Paced(convert, ratio, |converted| - |mark.converted|, inputFrames - mark.used, mark.state, state)
      && Sound(buffer) && buffer.g.periodFrames > 0 && Playout.Inv(buffer.g, mark.window)
      && Took(buffer.g, mark.window, buffer.Model(), n, periods)
      && taken == mark.taken + Frames(decode, periods)
      && positions == mark.positions + PositionsOf(periods, periodFrames)
      && buffer.played - inputFrames - carriedFrames == mark.ahead
      && (mark.inOrder ==> InOrder(buffer))
    }

    constructor (convert: Converter<S, F>, decode: seq<byte> -> seq<F>, silence: F, periodFrames: nat, state: S)
      requires Obeys(convert) && Decodes(decode, periodFrames) && periodFrames > 0
      ensures Valid() && isOpen && fresh(input) && ratio == 1.0
      ensures taken == consumed == converted == [] && inputFrames == carriedFrames == outputFrames == shortPulls == 0
    {
      this.convert, this.decode, this.silence, this.periodFrames := convert, decode, silence, periodFrames;
      this.state := state;
      input := new F[4 * periodFrames](_ => silence);
      isOpen, ratio, carriedFrames, pendingPosition, primed := true, 1.0, 0, 0, false;
      inputFrames, outputFrames, shortPulls := 0, 0, 0;
      taken, positions, consumed, converted := [], [], [], [];
    }

    /** The ratio stays usable whatever is asked for. */
    method SetRatio(asked: real)
      requires Valid()
      modifies this`ratio
      ensures Valid()
      ensures asked <= 0.0 || !isOpen ==> ratio == old(ratio)
      ensures asked > 0.0 && isOpen ==>
        0.5 <= ratio <= 2.0 && (0.5 <= asked <= 2.0 ==> ratio == asked)
        && (asked < 0.5 ==> ratio == 0.5) && (asked > 2.0 ==> ratio == 2.0)
    {
      if !isOpen || asked <= 0.0 {
        return;
      }
      ratio := if asked < 0.5 then 0.5 else if asked > 2.0 then 2.0 else asked;
    }

    method Append(frames: seq<F>)
      requires carriedFrames + |frames| <= input.Length
      modifies input
      ensures input[..carriedFrames + |frames|] == old(input[..carriedFrames]) + frames
    {
      forall i | 0 <= i < |frames| {
        input[carriedFrames + i] := frames[i];
      }
    }

    /** A period joins the carry. */
    method Accept(frames: seq<F>, position: nat)
      requires Valid() && |frames| == periodFrames && carriedFrames + periodFrames <= input.Length
      modifies this`carriedFrames, this`pendingPosition, this`primed, this`taken, this`positions, input
      ensures Valid() && carriedFrames == old(carriedFrames) + periodFrames
      ensures taken == old(taken) + frames && positions == old(positions) + Span(position, periodFrames)
    {
      hide Obeys, Decodes;
      if !primed {
        primed := true;
        pendingPosition := position;
      }
      ghost var before := input[..carriedFrames];
      Append(frames);
      carriedFrames := carriedFrames + periodFrames;
      assert taken + frames == consumed + (before + frames);
      taken := taken + frames;
      positions := positions + Span(position, periodFrames);
    }

    /** Take one period into the carry. */
    method FillFromBuffer(buffer: PlayoutBuffer) returns (r: Fill, ghost out: Option<Playout.Played<seq<byte>>>)
      requires Sound(buffer)
      requires buffer.positions as object != input && buffer.audio as object != input
      modifies this`carriedFrames, this`pendingPosition, this`primed, this`taken, this`positions, input
      modifies buffer, buffer.positions
      ensures Sound(buffer) && (old(InOrder(buffer)) ==> InOrder(buffer))
      ensures r == LookAhead <==> old(carriedFrames) + periodFrames > input.Length
      ensures r != LookAhead ==> (buffer.Model(), out) == Playout.Apply(buffer.g, old(buffer.Model()), Playout.TakeOp)
      ensures r == Filled <==> r != LookAhead && out.Some?
      ensures r != LookAhead ==> (r == Filled <==> old(buffer.head) < old(buffer.contiguousEnd))
      ensures r == Filled ==>
        && carriedFrames == old(carriedFrames) + periodFrames && taken == old(taken) + decode(out.value.period)
        && positions == old(positions) + Span(out.value.position, periodFrames)
        && |buffer.held| < old(|buffer.held|) && buffer.played == old(buffer.played) + periodFrames
      ensures r != Filled ==>
        && taken == old(taken) && positions == old(positions) && carriedFrames == old(carriedFrames)
        && buffer.played == old(buffer.played) && primed == old(primed) && input[..] == old(input[..])
      ensures r == LookAhead ==> buffer.Model() == old(buffer.Model())
    {
      hide Playout.Take, Playout.Apply, Playout.Inv, Obeys;
      if carriedFrames + periodFrames > input.Length {
        return LookAhead, None;
      }
      TakePlays(buffer.g, buffer.Model());
      var arrived := buffer.Take();
      out := arrived;
      if arrived.None? {
        return BufferDry, out;
      }
      assert |decode(arrived.value.period)| == periodFrames;
      Accept(decode(arrived.value.period), arrived.value.position);
      r := Filled;
    }

    method MoveToFront(from: nat, frames: nat)
      requires from + frames <= input.Length
      modifies input
      ensures input[..frames] == old(input[from..from + frames])
    {
      forall i | 0 <= i < frames {
        input[i] := input[from + i];
      }
    }

    /** The converter has used that much of the carry; the rest moves to the front. */
    method Use(used: nat)
      requires Valid() && used <= carriedFrames
      modifies this`carriedFrames, this`pendingPosition, this`inputFrames, this`consumed, input
      ensures Valid() && carriedFrames == old(carriedFrames) - used && inputFrames == old(inputFrames) + used
    {
      hide Decodes, StrictlyIncreasing, Obeys;
      ghost var carry := input[..carriedFrames];
      var left := carriedFrames - used;
      if left > 0 && used > 0 {
        MoveToFront(used, left);
      }
      assert input[..left] == carry[used..];
      assert consumed + carry == consumed + carry[..used] + carry[used..];
      carriedFrames := left;
      pendingPosition := pendingPosition + used;
      inputFrames := inputFrames + used;
      consumed := consumed + carry[..used];
    }

    /** Frames the converter has made are on the books. */
    method Book(made: seq<F>)
      requires Valid()
      modifies this`outputFrames, this`converted
      ensures Valid() && outputFrames == old(outputFrames) + |made| && converted == old(converted) + made
    {
      hide Decodes, StrictlyIncreasing, Obeys;
      outputFrames := outputFrames + |made|;
      converted := converted + made;
    }

    /** The converter's answer to that input: what it made, how much it used, and the state it left. */
    ghost predicate Answered(before: S, carry: seq<F>, want: nat, made: seq<F>, used: int)
      reads `state, `ratio
    {
      && ratio > 0.0
      && var c := convert(before, carry, want, 1.0 / ratio);
         !c.failed && c.used == used && c.made == made && c.next == state
    }

    /** The converter, as it is, refuses what is carried. */
    ghost predicate Fails(want: nat)
      reads `state, `ratio, `carriedFrames, input
    {
      && ratio > 0.0 && carriedFrames <= input.Length
      && convert(state, input[..carriedFrames], want, 1.0 / ratio).failed
    }

    ghost predicate StalledFrom(before: S, want: nat)
      reads `state, `ratio, `carriedFrames, input
    {
      && ratio > 0.0 && carriedFrames <= input.Length
      && var c := convert(before, input[..carriedFrames], want, 1.0 / ratio);
         !c.failed && c.used == 0 && c.made == [] && c.next == state
    }

    /** Its last answer used nothing of what is carried and made nothing of it. */
    ghost predicate Stalled(want: nat)
      reads `state, `ratio, `carriedFrames, input
    {
      exists before: S :: StalledFrom(before, want)
    }

    lemma WillingGoesOn(want: nat)
      requires Willing(convert) && want > 0 && 0 < carriedFrames <= input.Length
      ensures !Fails(want) && !Stalled(want)
    {
      assert |input[..carriedFrames]| == carriedFrames;
    }

    lemma Answers(want: nat)
      requires Valid()
      ensures ratio > 0.0 && carriedFrames <= input.Length
      ensures var c := convert(state, input[..carriedFrames], want, 1.0 / ratio);
        c.used <= carriedFrames && |c.made| <= want
    {
      hide Decodes, StrictlyIncreasing;
      ConversionBounded(convert, state, input[..carriedFrames], want, 1.0 / ratio);
    }

    /** One call of the converter over the carry. */
    method Convert(want: nat) returns (r: Pulled, made: seq<F>)
      requires Valid() && want > 0
      modifies this`state, this`carriedFrames, this`pendingPosition, this`inputFrames, this`outputFrames, input
      modifies this`consumed, this`converted
      ensures Valid() && |made| <= want && r in {Full, ConverterFailed, MadeNothing}
      ensures r == Full ==> outputFrames == old(outputFrames) + |made|
      ensures r == Full ==> made != [] || carriedFrames < old(carriedFrames)
      ensures r == Full ==>
        Answered(old(state), old(input[..carriedFrames]), want, made, old(carriedFrames) - carriedFrames)
      ensures converted == old(converted) + made
      ensures r != Full ==> made == [] && outputFrames == old(outputFrames) && carriedFrames == old(carriedFrames)
      ensures r == ConverterFailed ==> Fails(want)
      ensures r == MadeNothing ==> Stalled(want)
      ensures inputFrames + carriedFrames == old(inputFrames + carriedFrames) && carriedFrames <= old(carriedFrames)
      ensures Paced(convert, ratio, |made|, inputFrames - old(inputFrames), old(state), state)
    {
      hide Valid, Paced;
      made := [];
      Answers(want);
      PacedNone(convert, ratio, state);
      ghost var before, carry := state, input[..carriedFrames];
      var c := convert(state, input[..carriedFrames], want, 1.0 / ratio);
      if c.failed {
        return ConverterFailed, [];
      }
      state := c.next;
      PacedOne(convert, ratio, before, carry, want);
      if |c.made| == 0 && c.used == 0 {
        assert StalledFrom(before, want);
        return MadeNothing, [];
      }
      Use(c.used);
      made := c.made;
      Book(made);
      r := Full;
    }

    /** A fill of an empty carry: never refused, and one more take since the mark. */
    method Refill(buffer: PlayoutBuffer, ghost mark: Mark<S, F>,
                  ghost n: nat, ghost periods: seq<Playout.Played<seq<byte>>>)
      returns (r: Fill, ghost n': nat, ghost periods': seq<Playout.Played<seq<byte>>>)
      requires Since(mark, buffer, n, periods) && carriedFrames == 0
      requires buffer.positions as object != input && buffer.audio as object != input
      modifies this`carriedFrames, this`pendingPosition, this`primed, this`taken, this`positions, input
      modifies buffer, buffer.positions
      ensures Since(mark, buffer, n', periods')
      ensures r != LookAhead && (r == Filled <==> old(buffer.head) < old(buffer.contiguousEnd))
      ensures n' == n + 1 && |periods'| == |periods| + if r == Filled then 1 else 0
      ensures r == Filled ==> |buffer.held| < old(|buffer.held|) && carriedFrames > 0 && old(positions) < positions
      ensures r == BufferDry ==> carriedFrames == 0 && positions == old(positions) && periods' == periods
    {
      hide Valid, InOrder, Took, Playout.Apply, Playout.Inv, buffer.Slots, Paced, Span, Obeys, Decodes;
      BufferAgrees(buffer);
      ghost var was := buffer.Model();
      ghost var out;
      r, out := FillFromBuffer(buffer);
      TookOneMore(buffer.g, mark.window, was, n, periods);
      n' := n + 1;
      periods' := if out.Some? then periods + [out.value] else periods;
      if out.Some? {
        assert periods'[..|periods'| - 1] == periods;
        assert mark.taken + Frames(decode, periods) + decode(out.value.period)
            == mark.taken + (Frames(decode, periods) + decode(out.value.period));
        assert mark.positions + PositionsOf(periods, periodFrames) + Span(out.value.position, periodFrames)
            == mark.positions + (PositionsOf(periods, periodFrames) + Span(out.value.position, periodFrames));
      }
    }

    /**
     * The position a pull reports counts frames from the first one taken. While the sender's
     * positions grow it is behind the sender's position of the frame it speaks of by the
     * sender's frames that were missing on the way, and so is that position exactly when
     * none was.
     */
    lemma ReportedPositionIsTrueIff()
      requires Valid() && carriedFrames > 0 && StrictlyIncreasing(positions)
      ensures inputFrames < |positions|
      ensures positions[inputFrames] == pendingPosition + Missing(positions, inputFrames)
      ensures pendingPosition == positions[inputFrames] <==> Gapless(positions, inputFrames)
    {
      hide Obeys, Decodes, Gapless, Missing;
      CountedPosition(positions, inputFrames);
    }

    lemma BufferAgrees(buffer: PlayoutBuffer)
      requires Sound(buffer)
      ensures buffer.g.periodFrames == periodFrames > 0
      ensures carriedFrames == 0 ==> carriedFrames + periodFrames <= input.Length
    {
    }

    lemma MarkHere(buffer: PlayoutBuffer)
      requires Sound(buffer)
      ensures Since(Here(buffer), buffer, 0, [])
    {
      hide Playout.Inv, Paced;
      PacedNone(convert, ratio, state);
      BufferAgrees(buffer);
      TookNone(buffer.g, buffer.Model());
      assert taken + [] == taken && positions + [] == positions;
    }

    lemma SinceSays(mark: Mark<S, F>, buffer: PlayoutBuffer, n: nat, periods: seq<Playout.Played<seq<byte>>>)
      requires Since(mark, buffer, n, periods)
      ensures Sound(buffer) && |converted| == outputFrames
      ensures buffer.g.periodFrames > 0 && Playout.Inv(buffer.g, mark.window)
      ensures Took(buffer.g, mark.window, buffer.Model(), n, periods)
      ensures taken == mark.taken + Frames(decode, periods)
      ensures positions == mark.positions + PositionsOf(periods, periodFrames)
      ensures buffer.played - inputFrames - carriedFrames == mark.ahead && (mark.inOrder ==> InOrder(buffer))
      ensures ratio == mark.ratio
      ensures Paced(convert, ratio, |converted| - |mark.converted|, inputFrames - mark.used, mark.state, state)
    {
      hide Paced, Took, Playout.Inv, InOrder, Obeys, Decodes, StrictlyIncreasing;
    }

    lemma CarriesPositions(buffer: PlayoutBuffer)
      requires Sound(buffer) && carriedFrames > 0
      ensures positions != []
    {
    }

    /** Where this pull begins at the sender, by the resampler's own count. */
    method StartedAt(ghost buffer: PlayoutBuffer) returns (position: nat)
      requires Sound(buffer)
      ensures position == if positions != [] then positions[0] + inputFrames else 0
    {
      hide Obeys, Decodes, StrictlyIncreasing;
      position := if primed then pendingPosition else 0;
    }

    method Hush(output: array<F>, frames: nat)
      requires frames <= output.Length
      modifies output
      ensures forall k :: 0 <= k < frames ==> output[k] == silence
      ensures forall k :: frames <= k < output.Length ==> output[k] == old(output[k])
    {
      forall k | 0 <= k < frames {
        output[k] := silence;
      }
    }

    method ConvertSome(buffer: PlayoutBuffer, want: nat, ghost mark: Mark<S, F>,
                       ghost n: nat, ghost periods: seq<Playout.Played<seq<byte>>>)
      returns (r: Pulled, made: seq<F>)
      requires Since(mark, buffer, n, periods) && want > 0
      requires buffer.positions as object != input && buffer.audio as object != input
      modifies this`state, this`carriedFrames, this`pendingPosition, this`inputFrames, this`outputFrames, input
      modifies this`consumed, this`converted
      ensures Since(mark, buffer, n, periods) && |made| <= want && r in {Full, ConverterFailed, MadeNothing}
      ensures r == Full ==> made != [] || carriedFrames < old(carriedFrames)
      ensures r == Full ==>
        Answered(old(state), old(input[..carriedFrames]), want, made, old(carriedFrames) - carriedFrames)
      ensures converted == old(converted) + made
      ensures r != Full ==> made == [] && carriedFrames == old(carriedFrames)
      ensures (r == ConverterFailed ==> Fails(want)) && (r == MadeNothing ==> Stalled(want))
    {
      hide Valid, InOrder, Playout.Inv, Took, Answered, buffer.Slots, Paced, Fails, Stalled;
      ghost var was, used, before := converted, inputFrames, state;
      r, made := Convert(want);
      PacedOn(convert, ratio, |was| - |mark.converted|, used - mark.used, mark.state, before,
              |made|, inputFrames - used, state);
    }

    /** What has been made since is at the front, silence follows up to `frames`, the rest is as it was. */
    ghost predicate Delivered(before: seq<F>, after: seq<F>, output: seq<F>, was: seq<F>, frames: nat) {
      && |output| == |was| && |after| - |before| <= frames <= |output|
      && Emitted(before, after, output, |after| - |before|)
      && (forall k :: |after| - |before| <= k < frames ==> output[k] == silence)
      && (forall k :: frames <= k < |output| ==> output[k] == was[k])
    }

    /** What the converter made goes behind what it made before. */
    method Emit(made: seq<F>, output: array<F>, at: nat, ghost before: seq<F>, ghost after: seq<F>)
      requires at + |made| <= output.Length && Emitted(before, after, output[..], at)
      modifies output
      ensures Emitted(before, after + made, output[..], at + |made|)
      ensures forall k :: at + |made| <= k < output.Length ==> output[k] == old(output[k])
    {
      forall k | 0 <= k < |made| {
        output[at + k] := made[k];
      }
      assert output[..at + |made|] == old(output[..at]) + made;
    }

    /** One turn: convert some of the carry, and put it behind what is there. */
    method EmitSome(buffer: PlayoutBuffer, output: array<F>, produced: nat, want: nat, ghost mark: Mark<S, F>,
                    ghost n: nat, ghost periods: seq<Playout.Played<seq<byte>>>)
      returns (r: Pulled, now: nat)
      requires Since(mark, buffer, n, periods) && want > 0 && produced + want <= output.Length
      requires output != input && buffer.positions as object != input && buffer.audio as object != input
      requires buffer.positions as object != output && buffer.audio as object != output
      requires Emitted(mark.converted, converted, output[..], produced)
      modifies this`state, this`carriedFrames, this`pendingPosition, this`inputFrames, this`outputFrames, input, output
      modifies this`consumed, this`converted
      ensures Since(mark, buffer, n, periods) && r in {Full, ConverterFailed, MadeNothing}
      ensures produced <= now <= produced + want && Emitted(mark.converted, converted, output[..], now)
      ensures r == Full ==> now > produced || carriedFrames < old(carriedFrames)
      ensures r != Full ==> now == produced && carriedFrames == old(carriedFrames)
      ensures (r == ConverterFailed ==> Fails(want)) && (r == MadeNothing ==> Stalled(want))
      ensures forall k :: now <= k < output.Length ==> output[k] == old(output[k])
    {
      hide Since, Answered, Fails, Stalled;
      ghost var was := converted;
      var made;
      r, made := ConvertSome(buffer, want, mark, n, periods);
      Emit(made, output, produced, mark.converted, was);
      now := produced + |made|;
    }

    /** The loop of a pull: convert what is carried, and take another period when it is used up. */
    method ProduceAll(buffer: PlayoutBuffer, output: array<F>, frames: nat, ghost mark: Mark<S, F>,
                      ghost n0: nat, ghost periods0: seq<Playout.Played<seq<byte>>>)
      returns (r: Pulled, ghost n: nat, ghost periods: seq<Playout.Played<seq<byte>>>)
      requires Since(mark, buffer, n0, periods0) && frames <= output.Length && converted == mark.converted
      requires output != input && buffer.positions as object != input && buffer.audio as object != input
      requires buffer.positions as object != output && buffer.audio as object != output
      modifies this, input, output, buffer, buffer.positions
      ensures Since(mark, buffer, n, periods) && old(positions) <= positions
      ensures r in {Full, Short, ConverterFailed, MadeNothing}
      ensures n + |periods0| == n0 + |periods| + if r == Short then 1 else 0
      ensures r == Short ==> carriedFrames == 0
      ensures var left := frames - (|converted| - |mark.converted|);
        && (r == ConverterFailed ==> left > 0 && carriedFrames > 0 && Fails(left))
        && (r == MadeNothing ==> left > 0 && carriedFrames > 0 && Stalled(left))
      ensures Emitted(mark.converted, converted, output[..], |converted| - |mark.converted|)
      ensures |converted| - |mark.converted| <= frames
      ensures r == Full ==> |converted| - |mark.converted| == frames
      ensures r == Short ==> |converted| - |mark.converted| < frames
      ensures forall k :: |converted| - |mark.converted| <= k < output.Length ==> output[k] == old(output[k])
      ensures shortPulls == old(shortPulls) + if r == Short then 1 else 0
    {
      hide Since, Fails, Stalled, Sound, Playout.Inv;
      n, periods, r := n0, periods0, Full;
      var produced := 0;
      while produced < frames
        invariant Since(mark, buffer, n, periods) && produced <= frames && r == Full
        invariant old(positions) <= positions && shortPulls == old(shortPulls) && n + |periods0| == n0 + |periods|
        invariant Emitted(mark.converted, converted, output[..], produced)
        invariant forall k :: produced <= k < output.Length ==> output[k] == old(output[k])
        decreases frames - produced, |buffer.held|, carriedFrames
      {
        if carriedFrames == 0 {
          var fill;
          fill, n, periods := Refill(buffer, mark, n, periods);
          if fill != Filled {
            shortPulls := shortPulls + if fill == LookAhead then 0 else 1;
            return if fill == LookAhead then OutgrownScratch else Short, n, periods;
          }
        }
        r, produced := EmitSome(buffer, output, produced, frames - produced, mark, n, periods);
        if r != Full {
          return;
        }
      }
    }

    /** Silence first, then what the converter makes over it. */
    method Deliver(buffer: PlayoutBuffer, output: array<F>, frames: nat, ghost mark: Mark<S, F>,
                   ghost n0: nat, ghost periods0: seq<Playout.Played<seq<byte>>>)
      returns (r: Pulled, ghost n: nat, ghost periods: seq<Playout.Played<seq<byte>>>)
      requires Since(mark, buffer, n0, periods0) && frames <= output.Length && converted == mark.converted
      requires output != input && buffer.positions as object != input && buffer.audio as object != input
      requires buffer.positions as object != output && buffer.audio as object != output
      modifies this, input, output, buffer, buffer.positions
      ensures Since(mark, buffer, n, periods) && old(positions) <= positions
      ensures r in {Full, Short, ConverterFailed, MadeNothing}
      ensures n + |periods0| == n0 + |periods| + if r == Short then 1 else 0
      ensures r == Short ==> carriedFrames == 0
      ensures var left := frames - (|converted| - |mark.converted|);
        && (r == ConverterFailed ==> left > 0 && carriedFrames > 0 && Fails(left))
        && (r == MadeNothing ==> left > 0 && carriedFrames > 0 && Stalled(left))
      ensures Delivered(mark.converted, converted, output[..], old(output[..]), frames)
      ensures r == Full ==> |converted| - |mark.converted| == frames
      ensures r == Short ==> |converted| - |mark.converted| < frames
      ensures shortPulls == old(shortPulls) + if r == Short then 1 else 0
    {
      hide Since, Answered, Fails, Stalled;
      Hush(output, frames);
      r, n, periods := ProduceAll(buffer, output, frames, mark, n0, periods0);
    }

    /** Open, and asked for a frame at least and a period at most. */
    ghost predicate MayPull(frames: nat)
      reads `isOpen
    {
      isOpen && 0 < frames <= periodFrames
    }

    /** Fill an empty carry if the buffer has anything at its head; the rest of the pull is delivering. */
    method PullSome(buffer: PlayoutBuffer, output: array<F>, frames: nat, ghost mark: Mark<S, F>)
      returns (r: Pulled, position: nat, ghost n: nat, ghost periods: seq<Playout.Played<seq<byte>>>)
      requires Since(mark, buffer, 0, []) && MayPull(frames) && frames <= output.Length && converted == mark.converted
      requires output != input && buffer.positions as object != input && buffer.audio as object != input
      requires buffer.positions as object != output && buffer.audio as object != output
      modifies this, input, output, buffer, buffer.positions
      ensures Since(mark, buffer, n, periods) && r in {Full, Short, Dry, ConverterFailed, MadeNothing}
      ensures r == Dry <==> old(carriedFrames) == 0 && old(buffer.head) >= old(buffer.contiguousEnd)
      ensures n == |periods| + if r in {Dry, Short} then 1 else 0
      ensures r == Short ==> carriedFrames == 0
      ensures var left := frames - (|converted| - |mark.converted|);
        && (r == ConverterFailed ==> left > 0 && carriedFrames > 0 && Fails(left))
        && (r == MadeNothing ==> left > 0 && carriedFrames > 0 && Stalled(left))
      ensures r == Dry ==>
        periods == [] && converted == mark.converted && output[..] == old(output[..])
      ensures r != Dry ==>
        && Delivered(mark.converted, converted, output[..], old(output[..]), frames)
        && positions != [] && position == positions[0] + old(inputFrames)
      ensures r == Full ==> |converted| - |mark.converted| == frames
      ensures r == Short ==> |converted| - |mark.converted| < frames
      ensures shortPulls == old(shortPulls) + if r == Short then 1 else 0
    {
      hide Sound, Since, Took, Playout.Inv, Delivered, Fails, Stalled, Frames, PositionsOf, Paced, InOrder;
      n, periods, position := 0, [], 0;
      SinceSays(mark, buffer, n, periods);
      if carriedFrames == 0 {
        var fill;
        fill, n, periods := Refill(buffer, mark, n, periods);
        SinceSays(mark, buffer, n, periods);
        if fill != Filled {
          return if fill == LookAhead then OutgrownScratch else Dry, 0, n, periods;
        }
      }
      CarriesPositions(buffer);
      position := StartedAt(buffer);
      r, n, periods := Deliver(buffer, output, frames, mark, n, periods);
    }

    /**
     * Produce `frames` frames for the device, taking whole periods as the converter needs them.
     */
    method Pull(buffer: PlayoutBuffer, output: array<F>, frames: nat)
      returns (r: Pulled, position: nat, ghost n: nat, ghost periods: seq<Playout.Played<seq<byte>>>)
      requires Sound(buffer) && frames <= output.Length
      requires output != input && buffer.positions as object != input && buffer.audio as object != input
      requires buffer.positions as object != output && buffer.audio as object != output
      modifies this, input, output, buffer, buffer.positions
      ensures Sound(buffer)
      ensures r != OutgrownScratch
      ensures r == NotOpen <==> !old(isOpen)
      ensures r == NoAudio <==> old(isOpen) && frames == 0
      ensures r == TooLarge <==> old(isOpen) && frames > periodFrames
      ensures r == Dry <==>
        old(MayPull(frames)) && old(carriedFrames) == 0 && old(buffer.head) >= old(buffer.contiguousEnd)
      ensures n == |periods| + if r in {Dry, Short} then 1 else 0
      ensures r == Short ==> carriedFrames == 0
      ensures var left := frames - (|converted| - |old(converted)|);
        && (r == ConverterFailed ==> left > 0 && carriedFrames > 0 && Fails(left))
        && (r == MadeNothing ==> left > 0 && carriedFrames > 0 && Stalled(left))
      ensures Willing(convert) && old(MayPull(frames)) ==>
        old(carriedFrames) > 0 || old(buffer.head) < old(buffer.contiguousEnd) ==> r in {Full, Short}
      ensures ratio == old(ratio)
      ensures Paced(convert, ratio, |converted| - |old(converted)|, inputFrames - old(inputFrames), old(state), state)
      ensures Took(buffer.g, old(buffer.Model()), buffer.Model(), n, periods)
      ensures taken == old(taken) + Frames(decode, periods)
      ensures positions == old(positions) + PositionsOf(periods, periodFrames)
      ensures buffer.played + old(inputFrames + carriedFrames) == old(buffer.played) + inputFrames + carriedFrames
      ensures old(InOrder(buffer)) ==> InOrder(buffer)
      ensures r in {NotOpen, NoAudio, TooLarge, Dry} ==>
        periods == [] && outputFrames == old(outputFrames) && output[..] == old(output[..])
      ensures r !in {NotOpen, NoAudio, TooLarge, Dry} ==>
        && Delivered(old(converted), converted, output[..], old(output[..]), frames)
        && positions != [] && position == positions[0] + old(inputFrames)
      ensures outputFrames - old(outputFrames) == |converted| - |old(converted)|
      ensures r == Full ==> outputFrames == old(outputFrames) + frames
      ensures r == Short ==> outputFrames < old(outputFrames) + frames
      ensures shortPulls == old(shortPulls) + if r == Short then 1 else 0
    {
      hide Sound, Since, Took, Playout.Inv, Delivered, Paced, Fails, Stalled, InOrder, Willing;
      hide Frames, PositionsOf, StrictlyIncreasing;
      ghost var mark := Here(buffer);
      MarkHere(buffer);
      SinceSays(mark, buffer, 0, []);
      if !isOpen {
        return NotOpen, 0, 0, [];
      }
      if frames == 0 {
        return NoAudio, 0, 0, [];
      }
      if frames > periodFrames {
        return TooLarge, 0, 0, [];
      }
      r, position, n, periods := PullSome(buffer, output, frames, mark);
      SinceSays(mark, buffer, n, periods);
      if Willing(convert) && r in {ConverterFailed, MadeNothing} {
        CarryFits(buffer);
        WillingGoesOn(frames - (|converted| - |mark.converted|));
        assert false;
      }
    }

    lemma CarryFits(buffer: PlayoutBuffer)
      requires Sound(buffer)
      ensures carriedFrames <= input.Length
    {
    }
  }

  ghost predicate HoldsAroundAHole(s: Playout.Playout<seq<byte>>, first: seq<byte>, second: seq<byte>) {
    s.primed && s.head == 0 && s.end == 1 && s.held == map[0 := first, 2 := second]
  }

  lemma HoleIsPushed(first: seq<byte>, second: seq<byte>)
    ensures var g := Playout.Geometry(4, 1, 1);
      var s := Playout.Run(g, Playout.Empty(), [Playout.PushOp(0, first, 1), Playout.PushOp(2, second, 1)]).0;
      HoldsAroundAHole(s, first, second) && Playout.Inv(g, s)
  {
    var g := Playout.Geometry(4, 1, 1);
    var s0: Playout.Playout<seq<byte>> := Playout.Empty();
    var o1, o2 := Playout.PushOp(0, first, 1), Playout.PushOp(2, second, 1);
    var s1 := Playout.Apply(g, s0, o1).0;
    assert s1.primed && s1.head == 0 && s1.end == 1 && s1.held == map[0 := first];
    var s2 := Playout.Apply(g, s1, o2).0;
    assert s2.head == 0 && s2.end == 1 && s2.held == map[0 := first, 2 := second];
    assert Playout.Run(g, s1, [o2]).0 == s2 by { assert [o2][1..] == []; }
    assert Playout.Run(g, s0, [o1, o2]).0 == s2 by { assert [o1, o2][1..] == [o2]; }
  }

  /** A take at the head of that window, at the hole, and behind it. */
  lemma HoleIsTaken(s: Playout.Playout<seq<byte>>, first: seq<byte>, second: seq<byte>)
    returns (t: Playout.Playout<seq<byte>>, u: Playout.Playout<seq<byte>>, v: Playout.Playout<seq<byte>>)
    requires HoldsAroundAHole(s, first, second) && Playout.Inv(Playout.Geometry(4, 1, 1), s)
    ensures var g := Playout.Geometry(4, 1, 1);
      && Playout.Apply(g, s, Playout.TakeOp) == (t, Some(Playout.Played(0, first)))
      && Playout.Apply(g, t, Playout.TakeOp) == (u, None)
      && Playout.Apply(g, u, Playout.TakeOp) == (v, Some(Playout.Played(2, second)))
      && Playout.Inv(g, t) && Playout.Inv(g, u)
  {
    var g := Playout.Geometry(4, 1, 1);
    t := TakenAtHead(s, 0, first);
    assert s.held - {0} == map[2 := second];
    u := TakenAtHole(t, second);
    v := TakenAtHead(u, 2, second);
  }

  lemma TakenAtHead(s: Playout.Playout<seq<byte>>, head: nat, period: seq<byte>)
    returns (t: Playout.Playout<seq<byte>>)
    requires Playout.Inv(Playout.Geometry(4, 1, 1), s)
    requires s.primed && s.head == head && s.end == head + 1 && head in s.held && s.held[head] == period
    ensures Playout.Apply(Playout.Geometry(4, 1, 1), s, Playout.TakeOp) == (t, Some(Playout.Played(head, period)))
    ensures Playout.Inv(Playout.Geometry(4, 1, 1), t)
    ensures t.primed && t.head == t.end == head + 1 && t.held == s.held - {head}
  {
    var g := Playout.Geometry(4, 1, 1);
    t := Playout.Apply(g, s, Playout.TakeOp).0;
    TakePlays(g, s);
    Playout.TakeExactly(g, s);
    hide Playout.Apply, Playout.Take, Playout.Inv;
  }

  lemma TakenAtHole(t: Playout.Playout<seq<byte>>, second: seq<byte>) returns (u: Playout.Playout<seq<byte>>)
    requires Playout.Inv(Playout.Geometry(4, 1, 1), t)
    requires t.primed && t.head == t.end == 1 && t.held == map[2 := second]
    ensures Playout.Apply(Playout.Geometry(4, 1, 1), t, Playout.TakeOp) == (u, None)
    ensures Playout.Inv(Playout.Geometry(4, 1, 1), u)
    ensures u.primed && u.head == 2 && u.end == 3 && u.held == map[2 := second]
  {
    var g := Playout.Geometry(4, 1, 1);
    u := Playout.Apply(g, t, Playout.TakeOp).0;
    TakePlays(g, t);
    hide Playout.Apply, Playout.Inv;
    assert Playout.From(t.held, 2) == map[2 := second];
    assert Playout.RunEnd(g, map[2 := second], 3, 6) == 3;
  }

  /** Three takes over that window play the two periods. */
  lemma HoleIsCrossed(s: Playout.Playout<seq<byte>>, first: seq<byte>, second: seq<byte>)
    returns (v: Playout.Playout<seq<byte>>)
    requires HoldsAroundAHole(s, first, second) && Playout.Inv(Playout.Geometry(4, 1, 1), s)
    ensures Took(Playout.Geometry(4, 1, 1), s, v, 3, [Playout.Played(0, first), Playout.Played(2, second)])
  {
    hide *;
    var g, one, two := Playout.Geometry(4, 1, 1), Playout.Played(0, first), Playout.Played(2, second);
    var t, u;
    t, u, v := HoleIsTaken(s, first, second);
    TookNone(g, s);
    TookOneMore(g, s, s, 0, []);
    assert [] + [one] == [one];
    TookOneMore(g, s, t, 1, [one]);
    TookOneMore(g, s, u, 2, [one]);
    assert [one] + [two] == [one, two];
  }

  /**
   * A hole does get crossed: with the periods at 0 and 2 pushed and the one at 1 missing, three
   * takes play the two, and the frame counted as the sender's 1 is the sender's 2.
   */
  lemma HoleIsCounted(first: seq<byte>, second: seq<byte>)
    ensures var g := Playout.Geometry(4, 1, 1);
      var s := Playout.Run(g, Playout.Empty(), [Playout.PushOp(0, first, 1), Playout.PushOp(2, second, 1)]).0;
      var periods := [Playout.Played(0, first), Playout.Played(2, second)];
      && Playout.Inv(g, s) && (exists after :: Took(g, s, after, 3, periods))
      && PositionsOf(periods, 1) == [0, 2] && StrictlyIncreasing([0, 2]) && !Gapless([0, 2], 1)
  {
    hide Playout.Apply, Playout.Window, Playout.Run, Took, HoldsAroundAHole, PositionsOf;
    HoleIsPushed(first, second);
    var g := Playout.Geometry(4, 1, 1);
    var s := Playout.Run(g, Playout.Empty(), [Playout.PushOp(0, first, 1), Playout.PushOp(2, second, 1)]).0;
    hide Playout.Inv;
    var v := HoleIsCrossed(s, first, second);
    PositionsOfTwo(0, first, second);
    var counted: seq<nat> := [0, 2];
    assert counted[1] != counted[0] + 1;
  }

  lemma PositionsOfTwo<T>(at: nat, first: T, second: T)
    ensures PositionsOf([Playout.Played(at, first), Playout.Played(at + 2, second)], 1) == [at, at + 2]
  {
    var one, two := [Playout.Played(at, first)], [Playout.Played(at, first), Playout.Played(at + 2, second)];
    assert one[..0] == [] && two[..1] == one;
    assert PositionsOf(one, 1) == [] + Span(at, 1);
    assert PositionsOf(two, 1) == PositionsOf(one, 1) + Span(at + 2, 1);
  }
}
