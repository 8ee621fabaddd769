/** What transmit steps put on the link, those that fail part way included, and what losses make of it. */
module SenderRuns {
  import opened Arithmetic
  import opened Bytes
  import opened EndToEnd
  import opened Packing
  import opened Transport
  import Fragments
  import WireFrame

  /** All the messages of the frames, one after another. */
  ghost function OnWire(frames: seq<Fragments.Sent>): seq<seq<byte>> {
    if frames == [] then []
    else
      var last := frames[|frames| - 1];
      OnWire(frames[..|frames| - 1]) + Fragments.Messages(last.frame, last.sequence)
  }

  lemma TransmittedBack(e: Setup, s: Sender, periods: seq<seq<Sample>>, accepts: seq<nat>)
    requires |periods| == |accepts| > 0 && AllOfSize(e.fmt, periods)
    ensures var n := |periods| - 1;
      var (t, before) := Transmitted(e, s, periods[..n], accepts[..n]);
      var (u, sent, _) := Stepped(e, t, periods[n], accepts[n]);
      Transmitted(e, s, periods, accepts) == (u, before + sent)
  {
    hide Stepped, OfSize;
  }

  lemma OfSizeEach(e: Setup, periods: seq<seq<Sample>>)
    requires AllPeriods(e, periods)
    ensures AllOfSize(e.fmt, periods)
  {
  }

  /** Over a link that accepts everything the sender's steps put exactly the frames of the run on it. */
  lemma {:induction false} TransmittedIsOnWire(e: Setup, s: Sender, periods: seq<seq<Sample>>, accepts: seq<nat>)
    requires Ready(e) && AllPeriods(e, periods) && |accepts| == |periods|
    requires forall i :: 0 <= i < |accepts| ==> accepts[i] >= Fragments.MAX_FRAGMENTS
    ensures AllOfSize(e.fmt, periods)
    ensures Transmitted(e, s, periods, accepts) == (After(e, s, |periods|), OnWire(SentFrames(e, s, periods)))
    decreases |periods|
  {
    OfSizeEach(e, periods);
    if periods == [] {
      AfterAdvances(e, s, 0);
    } else {
      var n := |periods| - 1;
      hide Stepped, After, Ready, Fragments.Messages, SentOne, OnWire, OfSize, IsPeriod;
      TransmittedIsOnWire(e, s, periods[..n], accepts[..n]);
      AfterAdvances(e, s, n);
      SteppedPeriod(e, After(e, s, n), periods[n], accepts[n]);
      OnWireBack(SentFrames(e, s, periods));
      TransmittedBack(e, s, periods, accepts);
      hide Transmitted;
      assert SentFrames(e, s, periods)[..n] == SentFrames(e, s, periods[..n]);
    }
  }

  lemma {:induction false} OnWireFront(frames: seq<Fragments.Sent>)
    requires frames != []
    ensures OnWire(frames) == Fragments.Messages(frames[0].frame, frames[0].sequence) + OnWire(frames[1..])
    decreases |frames|
  {
    var n := |frames| - 1;
    OnWireBack(frames);
    if n == 0 {
      assert frames[..0] == [] && frames[1..] == [];
    } else {
      OnWireBack(frames[1..]);
      hide Fragments.Messages, OnWire;
      OnWireFront(frames[..n]);
      assert frames[..n][1..] == frames[1..][..n - 1] && frames[1..][n - 1] == frames[n];
    }
  }

  lemma OnWireBack(frames: seq<Fragments.Sent>)
    requires frames != []
    ensures var last := frames[|frames| - 1];
      OnWire(frames) == OnWire(frames[..|frames| - 1]) + Fragments.Messages(last.frame, last.sequence)
  {
  }

  lemma KeptFront<T>(s: seq<T>, arrives: seq<bool>)
    requires |arrives| == |s| > 0
    ensures Fragments.Kept(s, arrives) == (if arrives[0] then [s[0]] else []) + Fragments.Kept(s[1..], arrives[1..])
  {
  }

  lemma {:induction false} KeptAppend<T>(a: seq<T>, b: seq<T>, arrives: seq<bool>)
    requires |arrives| == |a| + |b|
    ensures Fragments.Kept(a + b, arrives)
         == Fragments.Kept(a, arrives[..|a|]) + Fragments.Kept(b, arrives[|a|..])
  {
    if a == [] {
      assert a + b == b && arrives[0..] == arrives;
    } else {
      var rest, later := a[1..], arrives[1..];
      assert (a + b)[0] == a[0] && (a + b)[1..] == rest + b;
      assert later[..|rest|] == arrives[..|a|][1..] && later[|rest|..] == arrives[|a|..];
      KeptAppend(rest, b, later);
      hide Fragments.Kept;
      KeptFront(a + b, arrives);
      KeptFront(a, arrives[..|a|]);
    }
  }

  /** A mask for everything sent, cut into one for each frame. */
  function PerFrame(frames: seq<Fragments.Sent>, keep: seq<bool>): seq<seq<bool>>
    decreases |frames|
  {
    if frames == [] then []
    else
      var n := Fragments.Min(Fragments.FragmentCount(|frames[0].frame|), |keep|);
      [keep[..n]] + PerFrame(frames[1..], keep[n..])
  }

  lemma FirstIsMasked(frames: seq<Fragments.Sent>, arrives: seq<seq<bool>>)
    requires frames != [] && arrives != [] && Fragments.Sendable(frames[0])
    requires |arrives[0]| == Fragments.FragmentCount(|frames[0].frame|)
    requires Fragments.Masked(frames[1..], arrives[1..])
    ensures Fragments.Masked(frames, arrives)
    ensures var first := Fragments.Messages(frames[0].frame, frames[0].sequence);
      Fragments.Arrivals(frames, arrives)
      == Fragments.Kept(first, arrives[0]) + Fragments.Arrivals(frames[1..], arrives[1..])
  {
    hide Fragments.Messages, Fragments.FragmentCount;
    assert forall i :: 1 <= i < |frames| ==> arrives[i] == arrives[1..][i - 1] && frames[i] == frames[1..][i - 1];
  }

  /** So every in-order subsequence of what was sent is what some masks let arrive. */
  lemma {:induction false} EveryLossIsMasked(frames: seq<Fragments.Sent>, keep: seq<bool>)
    requires forall i :: 0 <= i < |frames| ==> Fragments.Sendable(frames[i])
    requires |keep| == |OnWire(frames)|
    ensures Fragments.Masked(frames, PerFrame(frames, keep))
    ensures Fragments.Arrivals(frames, PerFrame(frames, keep)) == Fragments.Kept(OnWire(frames), keep)
    decreases |frames|
  {
    if frames != [] {
      hide Fragments.Messages, Fragments.FragmentCount, OnWire, Fragments.Kept;
      OnWireFront(frames);
      var first := Fragments.Messages(frames[0].frame, frames[0].sequence);
      KeptAppend(first, OnWire(frames[1..]), keep);
      EveryLossIsMasked(frames[1..], keep[|first|..]);
      var arrives := PerFrame(frames, keep);
      assert arrives[1..] == PerFrame(frames[1..], keep[|first|..]);
      hide PerFrame;
      FirstIsMasked(frames, arrives);
    } else {
      NothingOnWire(frames);
    }
  }

  lemma NothingOnWire(frames: seq<Fragments.Sent>)
    requires frames == []
    ensures OnWire(frames) == []
  {
  }

  /** Two periods framed by the same sender, one after a failed step: no fragment header tells them apart. */
  lemma SameSenderTwins(e: Setup, s: Sender, first: seq<Sample>, second: seq<Sample>)
    requires Ready(e) && IsPeriod(e.fmt, first) && IsPeriod(e.fmt, second)
    ensures var (f, g) := (SentOne(e, s, first), SentOne(e, s, second));
      && |f.frame| == |g.frame| == FrameBytes(e)
      && (Fragments.Twins(f, g) <==> Fragments.FragmentCount(FrameBytes(e)) > 1)
  {
    FramedPeriod(e, s, first);
    FramedPeriod(e, s, second);
    hide Framed, Ready, WireFrame.Encodable, WireFrame.Serialize, FrameBytes;
  }

  /** What a step gives a link that takes some or all of it. */
  lemma SteppedPeriod(e: Setup, s: Sender, period: seq<Sample>, accepts: nat)
    requires Ready(e) && IsPeriod(e.fmt, period)
    ensures var sent := SentOne(e, s, period);
      var messages := Fragments.Messages(sent.frame, sent.sequence);
      && |messages| == Fragments.FragmentCount(FrameBytes(e))
      && Stepped(e, s, period, accepts)
         == if |messages| <= accepts then (Advanced(e, s), messages, true) else (s, messages[..accepts], false)
  {
    FramedPeriod(e, s, period);
    WireFrame.RefusedExactly(Framed(e, s, period).value);
    hide Framed, Ready, WireFrame.Encodable, WireFrame.Refusal, WireFrame.Serialize, FrameBytes;
  }

  /** A frame of several messages is what every engine of two blocks or more writes. */
  lemma SeveralMessagesIff(e: Setup)
    requires Ready(e)
    ensures Fragments.FragmentCount(FrameBytes(e)) > 1 <==> |e.config.blocks| > 1
  {
    ReadyPeriod(e);
    assert Known(e.fmt);
    var each := WireFrame.BLOCK_HEADER_BYTES + BlockDataBytes(e);
    assert 776 <= each <= 1160;
    if |e.config.blocks| > 1 {
      MultiplyOrdered(2, |e.config.blocks|, each);
    }
    hide Ready;
  }

  lemma {:induction false} HandedAppend(e: Setup, a: seq<seq<byte>>, b: seq<seq<byte>>)
    ensures Handed(e, a + b) == Handed(e, a) + Handed(e, b)
  {
    hide Asked;
    if a == [] {
      assert a + b == b;
    } else {
      assert (a + b)[0] == a[0] && (a + b)[1..] == a[1..] + b;
      HandedAppend(e, a[1..], b);
    }
  }

  /**
   * Whatever went before, steps that failed part way included: a period whose messages all
   * arrive in a row is handed to the buffer, between what came before and what comes after.
   */
  lemma WholePeriodIsHanded(e: Setup, s: Sender, i: nat, period: seq<Sample>,
                            before: seq<seq<byte>>, after: seq<seq<byte>>)
    requires Ready(e) && IsPeriod(e.fmt, period) && s.position + i * e.fmt.periodFrames < POSITIONS
    ensures var sent := SentOne(e, After(e, s, i), period);
      var messages := Fragments.Messages(sent.frame, sent.sequence);
      var (a, earlier) := Fragments.Received(Fragments.FRESH, before);
      var later := Fragments.Received(Fragments.Received(a, messages).0, after).1;
      Handed(e, Fragments.Received(Fragments.FRESH, before + messages + after).1)
      == Handed(e, earlier) + [PeriodPush(e, s, i, period)] + Handed(e, later)
  {
    FramedPeriod(e, After(e, s, i), period);
    ReadyFits(e);
    ReadsBack(e, s, i, period);
    var sent := SentOne(e, After(e, s, i), period);
    var messages := Fragments.Messages(sent.frame, sent.sequence);
    hide Ready, Framed, After, SentOne, FrameBytes, Asked, Fragments.Messages, Fragments.Received, PeriodPush;
    Fragments.WholeFrameIsDelivered(before, sent, after);
    var earlier := Fragments.Received(Fragments.FRESH, before).1;
    var t := Fragments.Received(Fragments.Received(Fragments.FRESH, before).0, messages).0;
    var later := Fragments.Received(t, after).1;
    HandedAppend(e, earlier, [sent.frame]);
    HandedAppend(e, earlier + [sent.frame], later);
    OneHanded(e, sent.frame);
  }

  lemma OneHanded(e: Setup, bytes: seq<byte>)
    ensures Handed(e, [bytes]) == Asked(e, bytes)
  {
    hide Asked;
    var frames := [bytes];
    assert frames[1..] == [] && Asked(e, bytes) + [] == Asked(e, bytes);
  }
}
