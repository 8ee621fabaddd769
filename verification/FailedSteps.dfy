/**
 * Runs with transmit steps that fail part way: each leaves its sequence and its position to
 * the next, and messages of both can be joined. What the decoder's check leaves of that.
 */
module FailedSteps {
  import opened Arithmetic
  import opened Bytes
  import opened BlockMap
  import opened EndToEnd
  import opened Lifetime
  import opened Packing
  import opened Patchwork
  import opened SenderRuns
  import opened Transport
  import Crc32
  import Fragments
  import Playout
  import WireFrame

  // ---------------------------------------------------------------------------
  // Frames of one sender.

  /** The last message of every frame carries the whole of its check. */
  lemma ChecksUncut(e: Setup)
    requires Ready(e)
    ensures Fragments.FragmentCount(FrameBytes(e)) > 0
    ensures LastStart(FrameBytes(e)) + WireFrame.CHECKSUM_BYTES <= FrameBytes(e)
  {
    ReadyPeriod(e);
    ReadyFits(e);
    assert Known(e.fmt);
    var n, each := |e.config.blocks|, WireFrame.BLOCK_HEADER_BYTES + BlockDataBytes(e);
    assert each == 776 || each == 1160;
    hide Ready;
    assert n == 1 || n == 2 || n == 3 || n == 4 || n == 5 || n == 6 || n == 7 || n == 8;
  }

  /** Two periods framed by one sender differ in what the blocks carry, and nowhere else. */
  lemma FramedAlike(e: Setup, s: Sender, first: seq<Sample>, second: seq<Sample>)
    requires Ready(e) && IsPeriod(e.fmt, first) && IsPeriod(e.fmt, second)
    ensures var (f, g) := (Framed(e, s, first), Framed(e, s, second));
      f.Success? && g.Success? && FramesAlike(f.value, g.value)
  {
    FramedBlocks(e, s, first);
    FramedBlocks(e, s, second);
    hide Ready, PackedBlock, IsPeriod;
    var f, g := Framed(e, s, first).value, Framed(e, s, second).value;
    forall i | 0 <= i < |f.blocks|
      ensures f.blocks[i].(data := g.blocks[i].data) == g.blocks[i] && |f.blocks[i].data| == |g.blocks[i].data|
    {
      OneShape(e, i, first);
      OneShape(e, i, second);
    }
  }

  lemma FramedBlocks(e: Setup, s: Sender, period: seq<Sample>)
    requires Ready(e) && IsPeriod(e.fmt, period)
    ensures forall i :: 0 <= i < |e.config.blocks| ==> GoodMap(e.fmt, e.config.blocks[i].channels)
    ensures var f := Framed(e, s, period);
      && f.Success? && |f.value.blocks| == |e.config.blocks| && f.value.sequence == s.sequence
      && f.value == WireFrame.Frame(e.linkId, s.sequence, s.position, f.value.blocks)
      && forall i :: 0 <= i < |e.config.blocks| ==>
           f.value.blocks[i] == PackedBlock(e.fmt, e.config.blocks[i], period)
  {
    FramedPeriod(e, s, period);
    forall i | 0 <= i < |e.config.blocks|
      ensures GoodMap(e.fmt, e.config.blocks[i].channels)
    {
      BlockIsGood(e.fmt, e.config, i);
    }
    hide Ready, PackedBlock, IsPeriod, GoodMap;
    PackedBlocks(e.fmt, e.config.blocks, period);
  }

  /** What of a packed block is the same for every period. */
  lemma OneShape(e: Setup, i: nat, period: seq<Sample>)
    requires Ready(e) && IsPeriod(e.fmt, period) && i < |e.config.blocks|
    ensures GoodMap(e.fmt, e.config.blocks[i].channels)
    ensures var b := PackedBlock(e.fmt, e.config.blocks[i], period);
      && |b.data| == BlockDataBytes(e)
      && b == WireFrame.Block(e.config.blocks[i].index % 256, PcmPayload(e.fmt), CHANNELS_PER_BLOCK, b.data)
  {
    BlockIsGood(e.fmt, e.config, i);
    ReadyFits(e);
    PackedBlockData(e, e.config.blocks[i], period);
  }

  // ---------------------------------------------------------------------------
  // Unpacking looks at what blocks carry for its length only.

  lemma {:induction false} PlacedAlike(fmt: Format, channels: seq<int>, wireChannels: nat, a: seq<byte>, b: seq<byte>,
                                       p: seq<Sample>, q: seq<Sample>, frame: nat, slot: nat)
    requires |p| == |q| == fmt.periodFrames * fmt.channels && |a| == |b|
    requires frame <= fmt.periodFrames && slot <= |channels|
    ensures PlaceFrom(fmt, channels, wireChannels, a, p, frame, slot).Success?
      <==> PlaceFrom(fmt, channels, wireChannels, b, q, frame, slot).Success?
    decreases fmt.periodFrames - frame, |channels| - slot
  {
    hide At;
    if frame == fmt.periodFrames {
    } else if slot == |channels| {
      PlacedAlike(fmt, channels, wireChannels, a, b, p, q, frame + 1, 0);
    } else if 0 <= channels[slot] < fmt.channels {
      var from := (frame * wireChannels + slot) * fmt.sampleBytes;
      if from + fmt.sampleBytes <= |a| {
        var at := At(fmt, frame, channels[slot]);
        PlacedAlike(fmt, channels, wireChannels, a, b, p[at := a[from..from + fmt.sampleBytes]],
                    q[at := b[from..from + fmt.sampleBytes]], frame, slot + 1);
      }
    }
  }

  lemma {:induction false} UnpackedAlike(fmt: Format, blocks: seq<BlockConfig>, a: seq<WireFrame.Block>,
                                         b: seq<WireFrame.Block>, filled: set<int>, p: seq<Sample>, q: seq<Sample>)
    requires |p| == |q| == fmt.periodFrames * fmt.channels && Alike(a, b)
    ensures UnpackBlocks(fmt, blocks, a, filled, p).Success? <==> UnpackBlocks(fmt, blocks, b, filled, q).Success?
  {
    hide PlaceFrom;
    if a != [] && BlockRefusal(fmt, blocks, a[0], filled).None? {
      var channels := blocks[a[0].index].channels;
      PlacedAlike(fmt, channels, a[0].channels, a[0].data, b[0].data, p, q, 0, 0);
      var x := PlaceFrom(fmt, channels, a[0].channels, a[0].data, p, 0, 0);
      if x.Success? {
        UnpackedAlike(fmt, blocks, a[1..], b[1..], filled + {a[0].index}, x.value,
                      PlaceFrom(fmt, channels, a[0].channels, b[0].data, q, 0, 0).value);
      }
    }
  }

  lemma JoinedReads(e: Setup, f: WireFrame.Frame, g: WireFrame.Frame, c: nat)
    requires FramesAlike(f, g) && WireFrame.Encodable(f) && WireFrame.Encodable(g)
    requires Unpack(e.fmt, e.config.blocks, e.linkId, g).Success?
    requires 0 < c && c + WireFrame.CHECKSUM_BYTES <= |WireFrame.Serialize(f)|
    ensures |WireFrame.Serialize(f)| == |WireFrame.Serialize(g)|
    ensures var (s, t) := (WireFrame.Serialize(f), WireFrame.Serialize(g));
      var read := Read(e, s[..c] + t[c..]);
      && (read.Push? <==> Crc32.Feed(START, s[..c]) == Crc32.Feed(START, t[..c]))
      && (read.Push? ==> read.position == g.samplePosition) && (!read.Push? ==> read == Refused)
  {
    SerializedSplit(f);
    hide Unpack, FramesAlike, WireFrame.Parse, WireFrame.Serialize, WireFrame.Encodable, WireFrame.Body, Joint;
    hide Crc32.Feed, Crc32.Crc, BigEndian;
    JoinedIsReadIff(f, g, c);
    JointUnpacks(e, f, g, c);
  }

  lemma CutBeforeCheck(e: Setup, k: nat)
    requires Ready(e) && k < Fragments.FragmentCount(FrameBytes(e))
    ensures k * Fragments.PAYLOAD_CAP + WireFrame.CHECKSUM_BYTES <= FrameBytes(e)
  {
    ChecksUncut(e);
    MultiplyOrdered(k, Fragments.FragmentCount(FrameBytes(e)) - 1, Fragments.PAYLOAD_CAP);
  }

  /** The splice is handed over, at that position, if the two starts leave one register, and refused if not. */
  ghost predicate ReadIffHeadsMeet(e: Setup, f: Fragments.Sent, g: Fragments.Sent, k: nat, position: nat) {
    var c := k * Fragments.PAYLOAD_CAP;
    && c <= |f.frame| == |g.frame|
    && var read := Read(e, Fragments.Splice(f, g, k));
       if Crc32.Feed(START, f.frame[..c]) == Crc32.Feed(START, g.frame[..c])
       then read.Push? && read.position == position
       else read == Refused
  }

  lemma SentIsSerialized(e: Setup, s: Sender, period: seq<Sample>)
    requires Ready(e) && IsPeriod(e.fmt, period)
    ensures var f := Framed(e, s, period);
      f.Success? && SentOne(e, s, period) == OnLink(f.value) && |WireFrame.Serialize(f.value)| == FrameBytes(e)
  {
    FramedPeriod(e, s, period);
  }

  lemma JoinedOnLink(e: Setup, f: WireFrame.Frame, g: WireFrame.Frame, k: nat)
    requires FramesAlike(f, g) && WireFrame.Encodable(f) && WireFrame.Encodable(g) && k > 0
    requires Unpack(e.fmt, e.config.blocks, e.linkId, g).Success?
    requires k * Fragments.PAYLOAD_CAP + WireFrame.CHECKSUM_BYTES <= |WireFrame.Serialize(f)|
    ensures ReadIffHeadsMeet(e, OnLink(f), OnLink(g), k, g.samplePosition)
  {
    hide Unpack, FramesAlike, Read, WireFrame.Serialize, WireFrame.Encodable, Crc32.Feed;
    JoinedReads(e, f, g, k * Fragments.PAYLOAD_CAP);
  }

  lemma SpliceIsReadIff(e: Setup, s: Sender, first: seq<Sample>, second: seq<Sample>, k: nat)
    requires Ready(e) && IsPeriod(e.fmt, first) && IsPeriod(e.fmt, second)
    requires 1 <= k < Fragments.FragmentCount(FrameBytes(e))
    ensures ReadIffHeadsMeet(e, SentOne(e, s, first), SentOne(e, s, second), k, s.position)
  {
    hide *;
    FramedPeriod(e, s, first);
    FramedPeriod(e, s, second);
    SentIsSerialized(e, s, first);
    SentIsSerialized(e, s, second);
    FramedAlike(e, s, first, second);
    CutBeforeCheck(e, k);
    JoinedOnLink(e, Framed(e, s, first).value, Framed(e, s, second).value, k);
  }

  lemma JointUnpacks(e: Setup, f: WireFrame.Frame, g: WireFrame.Frame, c: nat)
    requires FramesAlike(f, g) && Unpack(e.fmt, e.config.blocks, e.linkId, g).Success?
    ensures var h := Joint(f, g, c);
      Unpack(e.fmt, e.config.blocks, e.linkId, h).Success? && h.samplePosition == g.samplePosition
  {
    MixedAlike(f.blocks, g.blocks,
      if c < WireFrame.FRAME_HEADER_BYTES then 0 else c - WireFrame.FRAME_HEADER_BYTES);
    hide UnpackBlocks, Mixed, Alike;
    UnpackedAlike(e.fmt, e.config.blocks, Joint(f, g, c).blocks, g.blocks, {}, Silence(e.fmt), Silence(e.fmt));
  }

  /**
   * A step that fails part way leaves its sequence to the next, whose frame is its twin: if
   * the link then loses as many of the second frame's messages as it took of the first, the
   * reassembler joins the start of one to the rest of the other. The check at the end is the
   * second frame's, so the decoder refuses what was joined, unless the two starts leave its
   * register the same.
   */
  lemma FailedStepSplices(e: Setup, s: Sender, first: seq<Sample>, second: seq<Sample>, k: nat)
    requires Ready(e) && IsPeriod(e.fmt, first) && IsPeriod(e.fmt, second)
    requires 1 <= k < Fragments.FragmentCount(FrameBytes(e))
    ensures var (f, g) := (SentOne(e, s, first), SentOne(e, s, second));
      var (taken, sent) := (Stepped(e, s, first, k).1, Stepped(e, s, second, Fragments.MAX_FRAGMENTS).1);
      && Stepped(e, s, first, k).0 == s && !Stepped(e, s, first, k).2
      && Stepped(e, s, second, Fragments.MAX_FRAGMENTS).2
      && |taken| == k <= |sent|
      && ReadIffHeadsMeet(e, f, g, k, s.position)
      && Fragments.Received(Fragments.FRESH, taken + sent[k..]).1 == [Fragments.Splice(f, g, k)]
  {
    SameSenderTwins(e, s, first, second);
    SteppedPeriod(e, s, first, k);
    SteppedPeriod(e, s, second, Fragments.MAX_FRAGMENTS);
    SpliceIsReadIff(e, s, first, second, k);
    hide Ready, FrameBytes, SentOne, Stepped, Read, Crc32.Feed;
    hide Fragments.Messages, Fragments.Received, Fragments.Splice;
    Fragments.TwinsJoin(SentOne(e, s, first), SentOne(e, s, second), k);
  }

  // ---------------------------------------------------------------------------
  // Any run of steps, whatever arrives of it.

  /** The sender before step `i`, after steps that succeeded and steps that did not. */
  ghost function Before(e: Setup, s: Sender, periods: seq<seq<Sample>>, accepts: seq<nat>, i: nat): Sender
    requires AllPeriods(e, periods) && i <= |periods| == |accepts|
  {
    Transmitted(e, s, periods[..i], accepts[..i]).0
  }

  /** The frame each step set out to send. */
  ghost function Attempts(e: Setup, s: Sender, periods: seq<seq<Sample>>, accepts: seq<nat>)
    : (sent: seq<Fragments.Sent>)
    requires AllPeriods(e, periods) && |periods| == |accepts|
    ensures |sent| == |periods|
  {
    seq(|periods|, i requires 0 <= i < |periods| => SentOne(e, Before(e, s, periods, accepts, i), periods[i]))
  }

  lemma AttemptAt(e: Setup, s: Sender, periods: seq<seq<Sample>>, accepts: seq<nat>, i: nat)
    requires AllPeriods(e, periods) && i < |periods| == |accepts|
    ensures Attempts(e, s, periods, accepts)[i] == SentOne(e, Before(e, s, periods, accepts, i), periods[i])
  {
  }

  lemma AttemptsFront(e: Setup, s: Sender, periods: seq<seq<Sample>>, accepts: seq<nat>)
    requires AllPeriods(e, periods) && |periods| == |accepts| > 0
    ensures var n := |periods| - 1;
      AllPeriods(e, periods[..n]) && Attempts(e, s, periods[..n], accepts[..n]) == Attempts(e, s, periods, accepts)[..n]
  {
    var n := |periods| - 1;
    hide SentOne, Transmitted;
    forall i | 0 <= i < n
      ensures Attempts(e, s, periods[..n], accepts[..n])[i] == Attempts(e, s, periods, accepts)[i]
    {
      assert periods[..n][..i] == periods[..i] && accepts[..n][..i] == accepts[..i];
    }
  }

  lemma MessagesOfOne(sent: seq<Fragments.Sent>, j: nat, k: nat)
    requires j < |sent| && k < Fragments.FragmentCount(|sent[j].frame|)
    ensures IsMessage(sent, Fragments.Messages(sent[j].frame, sent[j].sequence)[k])
  {
    hide Fragments.FragmentCount, Fragments.Fragment;
  }

  lemma MessagesOfMore(some: seq<Fragments.Sent>, sent: seq<Fragments.Sent>, message: seq<byte>)
    requires some <= sent && IsMessage(some, message)
    ensures IsMessage(sent, message)
  {
    hide Fragments.FragmentCount, Fragments.Fragment;
    var j, k :| 0 <= j < |some| && 0 <= k < Fragments.FragmentCount(|some[j].frame|)
      && message == Fragments.Fragment(some[j].frame, some[j].sequence, k);
    assert sent[j] == some[j];
  }

  /** Every message on the link is one of an attempt. */
  lemma {:induction false} TransmittedAreMessages(e: Setup, s: Sender, periods: seq<seq<Sample>>, accepts: seq<nat>)
    requires Ready(e) && AllPeriods(e, periods) && |periods| == |accepts|
    ensures AllOfSize(e.fmt, periods)
    ensures AreMessages(Attempts(e, s, periods, accepts), Transmitted(e, s, periods, accepts).1)
    decreases |periods|
  {
    if periods != [] {
      var n := |periods| - 1;
      AttemptsFront(e, s, periods, accepts);
      TransmittedAreMessages(e, s, periods[..n], accepts[..n]);
      AttemptAt(e, s, periods, accepts, n);
      var t := Before(e, s, periods, accepts, n);
      SteppedPeriod(e, t, periods[n], accepts[n]);
      TransmittedSnoc(e, s, periods, accepts);
      hide Stepped, SentOne, Attempts, Transmitted, Ready, Fragments.Messages, IsMessage;
      var sent, all := Attempts(e, s, periods, accepts), Transmitted(e, s, periods, accepts).1;
      var before := Transmitted(e, s, periods[..n], accepts[..n]).1;
      forall i | 0 <= i < |all|
        ensures IsMessage(sent, all[i])
      {
        if i < |before| {
          MessagesOfMore(sent[..n], sent, before[i]);
        } else {
          MessagesOfOne(sent, n, i - |before|);
        }
      }
    }
  }

  lemma TransmittedSnoc(e: Setup, s: Sender, periods: seq<seq<Sample>>, accepts: seq<nat>)
    requires AllPeriods(e, periods) && |periods| == |accepts| > 0
    ensures var n := |periods| - 1;
      Transmitted(e, s, periods, accepts).1 == Transmitted(e, s, periods[..n], accepts[..n]).1
        + Stepped(e, Before(e, s, periods, accepts, n), periods[n], accepts[n]).1
  {
    hide Stepped;
  }

  lemma AttemptsChecked(e: Setup, s: Sender, periods: seq<seq<Sample>>, accepts: seq<nat>)
    requires Ready(e) && AllPeriods(e, periods) && |periods| == |accepts|
    ensures ChecksWhole(Attempts(e, s, periods, accepts))
  {
    ChecksUncut(e);
    forall i | 0 <= i < |periods|
      ensures var f := Attempts(e, s, periods, accepts)[i].frame;
        |f| == FrameBytes(e) && WireFrame.Parse(f).Success?
    {
      var t := Before(e, s, periods, accepts, i);
      FramedPeriod(e, t, periods[i]);
      hide Framed, Ready, FrameBytes, WireFrame.Parse, WireFrame.Encodable, WireFrame.Serialize, Transmitted;
      WireFrame.WrittenFrameParses(Framed(e, t, periods[i]).value);
    }
    hide Framed, Ready, FrameBytes, WireFrame.Parse, Attempts, LastStart, Fragments.FragmentCount;
  }

  /** The period of some step, at the sender's position before it. */
  ghost predicate Captured(e: Setup, s: Sender, periods: seq<seq<Sample>>, accepts: seq<nat>,
                           position: nat, period: seq<byte>)
    requires AllPeriods(e, periods) && |periods| == |accepts|
  {
    exists i :: 0 <= i < |periods|
      && position == Before(e, s, periods, accepts, i).position && period == Flatten(periods[i])
  }

  /** What is handed to the buffer is a captured period, at its position, or two heads have left one register. */
  ghost predicate CapturedOrMeet(e: Setup, s: Sender, periods: seq<seq<Sample>>, accepts: seq<nat>,
                                 position: nat, period: seq<byte>)
    requires AllPeriods(e, periods) && |periods| == |accepts|
  {
    Captured(e, s, periods, accepts, position, period) || SomeHeadsMeet(Attempts(e, s, periods, accepts))
  }

  lemma AttemptReads(e: Setup, s: Sender, periods: seq<seq<Sample>>, accepts: seq<nat>, j: nat)
    requires Ready(e) && AllPeriods(e, periods) && j < |periods| == |accepts|
    ensures Read(e, Attempts(e, s, periods, accepts)[j].frame)
         == Push(Before(e, s, periods, accepts, j).position, Flatten(periods[j]))
  {
    var t := Before(e, s, periods, accepts, j);
    FramedPeriod(e, t, periods[j]);
    hide Framed, Ready, FrameBytes, Transmitted, Unpack, Flatten;
    hide WireFrame.Parse, WireFrame.Encodable, WireFrame.Serialize;
    WireFrame.WrittenFrameParses(Framed(e, t, periods[j]).value);
  }

  lemma PatchIsCaptured(e: Setup, s: Sender, periods: seq<seq<Sample>>, accepts: seq<nat>, x: seq<byte>)
    requires Ready(e) && AllPeriods(e, periods) && |periods| == |accepts|
    requires Patched(Attempts(e, s, periods, accepts), x) && Read(e, x).Push?
    ensures CapturedOrMeet(e, s, periods, accepts, Read(e, x).position, Read(e, x).period)
  {
    AttemptsChecked(e, s, periods, accepts);
    var sent := Attempts(e, s, periods, accepts);
    ReadIsParsed(e, x);
    hide Attempts, Before, Ready, Read, WireFrame.Parse, ChecksWhole, Patched, SomeHeadsMeet;
    ReadPatchIsSent(sent, x);
    if j :| 0 <= j < |sent| && x == sent[j].frame {
      AttemptReads(e, s, periods, accepts, j);
    }
  }

  lemma ReadIsParsed(e: Setup, x: seq<byte>)
    requires Read(e, x).Push?
    ensures WireFrame.Parse(x).Success?
  {
  }

  ghost predicate AllCaptured(e: Setup, s: Sender, periods: seq<seq<Sample>>, accepts: seq<nat>, ops: seq<Op>)
    requires AllPeriods(e, periods) && |periods| == |accepts|
  {
    forall i :: 0 <= i < |ops| ==>
      ops[i].PushOp? && CapturedOrMeet(e, s, periods, accepts, ops[i].position, ops[i].period)
  }

  lemma {:induction false} PatchesHand(e: Setup, s: Sender, periods: seq<seq<Sample>>, accepts: seq<nat>,
                                       frames: seq<seq<byte>>)
    requires Ready(e) && AllPeriods(e, periods) && |periods| == |accepts|
    requires AllPatched(Attempts(e, s, periods, accepts), frames)
    ensures AllCaptured(e, s, periods, accepts, Handed(e, frames))
    decreases |frames|
  {
    hide Read, Ready, Attempts, CapturedOrMeet, Patched;
    if frames != [] {
      assert Patched(Attempts(e, s, periods, accepts), frames[0]);
      if Read(e, frames[0]).Push? {
        PatchIsCaptured(e, s, periods, accepts, frames[0]);
      }
      PatchesHand(e, s, periods, accepts, frames[1..]);
    }
  }

  /**
   * Whatever steps fail and wherever, and whatever arrives of what the link was given, lost,
   * repeated or out of order: each period handed to the buffer was captured by some step and
   * is at the position it was captured at, unless two heads have left one register.
   */
  lemma HandedWasCaptured(e: Setup, s: Sender, periods: seq<seq<Sample>>, accepts: seq<nat>, arrived: seq<seq<byte>>)
    requires Ready(e) && AllPeriods(e, periods) && |periods| == |accepts|
    requires AllOfSize(e.fmt, periods) ==>
      forall i :: 0 <= i < |arrived| ==> arrived[i] in Transmitted(e, s, periods, accepts).1
    ensures AllCaptured(e, s, periods, accepts, Handed(e, Fragments.Received(Fragments.FRESH, arrived).1))
  {
    TransmittedAreMessages(e, s, periods, accepts);
    var sent := Attempts(e, s, periods, accepts);
    hide Transmitted, Attempts, Ready, IsMessage, Handed, AllCaptured, AllPatched;
    assert AreMessages(sent, arrived);
    DeliveredArePatched(sent, Fragments.FRESH, arrived);
    PatchesHand(e, s, periods, accepts, Fragments.Received(Fragments.FRESH, arrived).1);
  }

  lemma BeginsWorking(e: Setup)
    requires Ready(e)
    ensures e.fmt.periodFrames > 0 && Working(e, Began(Fragments.FRESH))
  {
    ReadyPeriod(e);
  }

  lemma PushedWasCaptured(e: Setup, s: Sender, periods: seq<seq<Sample>>, accepts: seq<nat>,
                          ops: seq<Op>, p: Playout.Played<seq<byte>>)
    requires AllPeriods(e, periods) && |periods| == |accepts|
    requires AllCaptured(e, s, periods, accepts, Pushes(ops))
    requires Playout.Sourced(Ring(e), Playout.Empty(), ops, p)
    ensures CapturedOrMeet(e, s, periods, accepts, p.position, p.period)
  {
    hide Pushes, CapturedOrMeet;
    InPushes(ops, Playout.PushOp(p.position, p.period, PeriodBytes(e.fmt)));
  }

  /**
   * And so with the receiver's turns, takes and discards anywhere in between: all it plays was
   * captured by some step, at that position, positions increasing, unless two heads have left
   * one register.
   */
  lemma PlayedWasCaptured(e: Setup, s: Sender, periods: seq<seq<Sample>>, accepts: seq<nat>, acts: seq<Act>)
    requires Ready(e) && AllPeriods(e, periods) && |periods| == |accepts| && DevicePlays(acts)
    requires AllOfSize(e.fmt, periods) ==>
      forall i :: 0 <= i < |Arrived(acts)| ==> Arrived(acts)[i] in Transmitted(e, s, periods, accepts).1
    ensures Working(e, Began(Fragments.FRESH))
    ensures var played := Lived(e, Began(Fragments.FRESH), acts).played;
      && Playout.Increasing(played)
      && forall k :: 0 <= k < |played| ==>
           CapturedOrMeet(e, s, periods, accepts, played[k].position, played[k].period)
  {
    BeginsWorking(e);
    hide Ready, Working, Lived, EventsOf, Live, Transmitted, Playout.Run, Playout.Inv, Arrived, HeardMessages;
    hide Handed, Pushes, AllCaptured, CapturedOrMeet, Playout.Sourced, Fragments.Received;
    var w := Began(Fragments.FRESH);
    var events := EventsOf(e, w, acts);
    LivedIsLive(e, w, acts);
    var heard := HeardMessages(events);
    assert [] + Arrived(acts) == Arrived(acts);
    assert forall i :: 0 <= i < |heard| ==> heard[i] == Arrived(acts)[i];
    HandedWasCaptured(e, s, periods, accepts, heard);
    LiveHands(e, Fragments.FRESH, events);
    var g, ops := Ring(e), Live(e, Fragments.FRESH, events);
    var empty: Playout.Playout<seq<byte>> := Playout.Empty();
    BeginsEmpty(e);
    Playout.PlaysWhatWasPushed(g, empty, ops);
    var played := Playout.Run(g, empty, ops).1;
    assert [] + played == played;
    forall k | 0 <= k < |played|
      ensures CapturedOrMeet(e, s, periods, accepts, played[k].position, played[k].period)
    {
      PushedWasCaptured(e, s, periods, accepts, ops, played[k]);
    }
  }

  lemma BeginsEmpty(e: Setup)
    ensures Playout.Inv(Ring(e), Playout.Empty<seq<byte>>())
    ensures Began(Fragments.FRESH).receiver.playout == Playout.Empty()
  {
  }
}
