/** What the receiver holds and plays, against what the sender captured. */
module EndToEnd {
  import opened Arithmetic
  import opened Bytes
  import opened BlockMap
  import opened Packing
  import opened Transport
  import Fragments
  import Playout
  import WireFrame

  // ---------------------------------------------------------------------------
  // The sender's frames.

  /** An engine prepared from a validated configuration, PCM only, its map in index order. */
  ghost predicate Ready(e: Setup) {
    Prepared(e.fmt, e.config) && e.fmt == FormatOf(e.config) && InIndexOrder(e.config.blocks)
  }

  /** Validation gives such an engine periods of a millisecond. */
  lemma ReadyPeriod(e: Setup)
    requires Ready(e)
    ensures e.fmt.periodFrames == 48 && 1 <= |e.config.blocks| <= 8 && e.fmt.sampleBytes <= 3
  {
  }

  function BlockDataBytes(e: Setup): nat {
    e.fmt.periodFrames * (CHANNELS_PER_BLOCK * e.fmt.sampleBytes)
  }

  /** The octets of every frame this engine writes. */
  function FrameBytes(e: Setup): nat {
    WireFrame.FRAME_HEADER_BYTES + WireFrame.CHECKSUM_BYTES
    + |e.config.blocks| * (WireFrame.BLOCK_HEADER_BYTES + BlockDataBytes(e))
  }

  /** The frame is within what 255 messages carry. */
  predicate Fits(e: Setup) {
    FrameBytes(e) <= Fragments.MAX_FRAGMENTS * Fragments.PAYLOAD_CAP
  }

  lemma {:induction false} BlocksOfOneSize(blocks: seq<WireFrame.Block>, size: nat)
    requires forall i :: 0 <= i < |blocks| ==> |blocks[i].data| == size
    ensures WireFrame.BlocksSize(blocks) == |blocks| * (WireFrame.BLOCK_HEADER_BYTES + size)
  {
    if blocks != [] {
      BlocksOfOneSize(blocks[1..], size);
      OneMoreOf(|blocks| - 1, WireFrame.BLOCK_HEADER_BYTES + size);
    }
  }

  lemma OneMoreOf(n: nat, each: nat)
    ensures (n + 1) * each == n * each + each
  {
  }

  lemma PackedDataSize(fmt: Format, channels: seq<int>, period: seq<Sample>)
    requires GoodMap(fmt, channels) && IsPeriod(fmt, period)
    ensures |Flatten(BlockSamples(fmt, channels, period))| == fmt.periodFrames * CHANNELS_PER_BLOCK * fmt.sampleBytes
  {
    hide Flatten;
    BlockSamplesWide(fmt, channels, period);
    FlattenSize(BlockSamples(fmt, channels, period), fmt.sampleBytes);
  }

  lemma PackedBlockData(e: Setup, b: BlockConfig, period: seq<Sample>)
    requires Ready(e) && GoodMap(e.fmt, b.channels) && IsPeriod(e.fmt, period)
    requires 0 <= b.index < 8 && BlockDataBytes(e) <= 0xFFFF_FFFF
    ensures var w := PackedBlock(e.fmt, b, period);
      |w.data| == BlockDataBytes(e) && WireFrame.BlockEncodable(w) && w.index == b.index
  {
    hide Flatten, BlockSamples, WireFrame.WholeFrames, Valid, InIndexOrder, AllWide;
    ReadyPeriod(e);
    PackedDataSize(e.fmt, b.channels, period);
    DataBytes(e.fmt.periodFrames, CHANNELS_PER_BLOCK, e.fmt.sampleBytes);
    PcmWholeFrames(e.fmt);
  }

  lemma PcmWholeFrames(fmt: Format)
    requires Known(fmt) && fmt.periodFrames > 0
    ensures WireFrame.WholeFrames(PcmPayload(fmt), CHANNELS_PER_BLOCK,
                                  fmt.periodFrames * (CHANNELS_PER_BLOCK * fmt.sampleBytes))
  {
    DataBytes(fmt.periodFrames, CHANNELS_PER_BLOCK, fmt.sampleBytes);
    assert WireFrame.SampleBytes(PcmPayload(fmt)) == fmt.sampleBytes;
  }

  lemma BlockSamplesWide(fmt: Format, channels: seq<int>, period: seq<Sample>)
    requires GoodMap(fmt, channels) && IsPeriod(fmt, period)
    ensures AllWide(BlockSamples(fmt, channels, period), fmt.sampleBytes)
  {
  }

  lemma DataBytes(frames: nat, channels: nat, width: nat)
    requires frames > 0 && channels > 0 && width > 0
    ensures frames * channels * width == frames * (channels * width) > 0
    ensures frames * (channels * width) % (channels * width) == 0
  {
    var stride := channels * width;
    MultiplyOrdered(1, channels, width);
    MultiplyOrdered(1, frames, stride);
    DivideUnique(frames * stride, stride, frames, 0);
  }

  /** Every period makes a frame the encoder accepts, of one size. */
  lemma FramedPeriod(e: Setup, s: Sender, period: seq<Sample>)
    requires Ready(e) && IsPeriod(e.fmt, period)
    ensures var f := Framed(e, s, period);
      && f.Success? && WireFrame.Encodable(f.value)
      && |WireFrame.Serialize(f.value)| == FrameBytes(e)
      && f.value.sequence == s.sequence && f.value.samplePosition == s.position
      && Unpack(e.fmt, e.config.blocks, e.linkId, f.value) == Success(period)
  {
    hide Valid, Flatten, BlockSamples, Unpack, WireFrame.Serialize, BlockDataBytes, WireFrame.BlockEncodable;
    hide Routed, AllWide;
    ReadyPeriod(e);
    ReadyFits(e);
    var blocks := e.config.blocks;
    PreparedIsRoutable(e.fmt, e.config);
    PackedBlocks(e.fmt, blocks, period);
    var f := Framed(e, s, period).value;
    forall i | 0 <= i < |blocks|
      ensures f.blocks[i].index == i && |f.blocks[i].data| == BlockDataBytes(e)
      ensures WireFrame.BlockEncodable(f.blocks[i])
    {
      PackedBlockData(e, blocks[i], period);
    }
    BlocksOfOneSize(f.blocks, BlockDataBytes(e));
    assert WireFrame.EncodedSize(f) == FrameBytes(e);
    UnpackOfPack(e.fmt, e.config, e.linkId, s.position, s.sequence, period);
    InOrderIsIdentity(e.fmt, e.config, period, Unpack(e.fmt, blocks, e.linkId, f).value);
  }

  /** Every frame of a validated PCM engine is within what 255 messages carry. */
  lemma ReadyFits(e: Setup)
    requires Ready(e)
    ensures Fits(e) && BlockDataBytes(e) <= 0xFFFF_FFFF && 0 < FrameBytes(e)
  {
    ReadyPeriod(e);
    var each := WireFrame.BLOCK_HEADER_BYTES + BlockDataBytes(e);
    assert BlockDataBytes(e) <= 48 * (8 * 3);
    MultiplyOrdered(|e.config.blocks|, 8, each);
    hide Ready;
  }

  /** The sender after `i` steps that succeeded. */
  function After(e: Setup, s: Sender, i: nat): Sender {
    Sender((s.sequence + i) % POSITIONS, (s.position + i * e.fmt.periodFrames) % POSITIONS)
  }

  lemma AfterAdvances(e: Setup, s: Sender, i: nat)
    ensures After(e, s, 0) == s
    ensures After(e, s, i + 1) == Advanced(e, After(e, s, i))
  {
    hide *;
    AfterNone(e, s);
    var far := AfterIs(e, s, i);
    AdvancesBy(e, s, i, far);
  }

  lemma AfterNone(e: Setup, s: Sender)
    ensures After(e, s, 0) == s
  {
  }

  lemma AfterIs(e: Setup, s: Sender, i: nat) returns (far: nat)
    ensures After(e, s, i) == Sender((s.sequence + i) % POSITIONS, (s.position + far) % POSITIONS)
    ensures After(e, s, i + 1)
         == Sender((s.sequence + (i + 1)) % POSITIONS, (s.position + (far + e.fmt.periodFrames)) % POSITIONS)
  {
    far := i * e.fmt.periodFrames;
    OneMoreTime(i, e.fmt.periodFrames);
  }

  lemma AdvancesBy(e: Setup, s: Sender, i: nat, far: nat)
    ensures Advanced(e, Sender((s.sequence + i) % POSITIONS, (s.position + far) % POSITIONS))
         == Sender((s.sequence + (i + 1)) % POSITIONS, (s.position + (far + e.fmt.periodFrames)) % POSITIONS)
  {
    AddAfterModulo(s.sequence + i, 1);
    AddAfterModulo(s.position + far, e.fmt.periodFrames);
  }

  lemma OneMoreTime(i: nat, each: nat)
    ensures (i + 1) * each == i * each + each
  {
  }

  /** Sequence and position wrap at two to the sixty-fourth. */
  lemma AfterWraps(e: Setup, s: Sender, i: nat)
    ensures After(e, s, i).sequence == (s.sequence + i) % 0x1_0000_0000_0000_0000
    ensures After(e, s, i).position == (s.position + i * e.fmt.periodFrames) % 0x1_0000_0000_0000_0000
  {
  }

  lemma AddAfterModulo(a: nat, b: nat)
    ensures (a % POSITIONS + b) % POSITIONS == (a + b) % POSITIONS
  {
  }

  function SentOne(e: Setup, s: Sender, period: seq<Sample>): Fragments.Sent
    requires |period| == e.fmt.periodFrames * e.fmt.channels
  {
    match Framed(e, s, period)
    case Success(f) => OnLink(f)
    case Failure(_) => Fragments.Sent([], 0)
  }

  ghost predicate AllPeriods(e: Setup, periods: seq<seq<Sample>>) {
    forall i :: 0 <= i < |periods| ==> IsPeriod(e.fmt, periods[i])
  }

  /** One frame for each period, in order. */
  ghost function SentFrames(e: Setup, s: Sender, periods: seq<seq<Sample>>): (frames: seq<Fragments.Sent>)
    requires AllPeriods(e, periods)
    ensures |frames| == |periods|
  {
    seq(|periods|, i requires 0 <= i < |periods| => SentOne(e, After(e, s, i), periods[i]))
  }

  /** The low half of a wrapped counter is the counter's low half. */
  lemma LowHalf(x: nat)
    ensures x % POSITIONS % SEQUENCES == x % SEQUENCES
  {
    var high, low := x / POSITIONS, x % POSITIONS;
    DivideUnique(x, SEQUENCES, SEQUENCES * high + low / SEQUENCES, low % SEQUENCES);
  }

  lemma SequencesApart(e: Setup, s: Sender, i: nat, j: nat)
    requires i < j < i + 0x1_0000_0000
    ensures After(e, s, i).sequence % SEQUENCES != After(e, s, j).sequence % SEQUENCES
  {
    var x, y := s.sequence + i, s.sequence + j;
    LowHalf(x);
    LowHalf(y);
    ApartModulo(x, y, SEQUENCES);
  }

  /** A mask of what arrives for each frame, as long as the frame has messages. */
  ghost predicate Masks(e: Setup, periods: seq<seq<Sample>>, arrives: seq<seq<bool>>) {
    && |arrives| == |periods|
    && forall i :: 0 <= i < |arrives| ==> |arrives[i]| == Fragments.FragmentCount(FrameBytes(e))
  }

  /** One sequence after another, all frames of one size. */
  lemma SentFrameFacts(e: Setup, s: Sender, periods: seq<seq<Sample>>)
    requires Ready(e) && AllPeriods(e, periods)
    ensures forall i :: 0 <= i < |periods| ==>
              && |SentFrames(e, s, periods)[i].frame| == FrameBytes(e)
              && SentFrames(e, s, periods)[i].sequence == After(e, s, i).sequence % 0x1_0000_0000
              && After(e, s, i).sequence == (s.sequence + i) % 0x1_0000_0000_0000_0000
  {
    forall i | 0 <= i < |periods|
      ensures |SentFrames(e, s, periods)[i].frame| == FrameBytes(e)
      ensures SentFrames(e, s, periods)[i].sequence == After(e, s, i).sequence % SEQUENCES
      ensures After(e, s, i).sequence == (s.sequence + i) % 0x1_0000_0000_0000_0000
    {
      AfterWraps(e, s, i);
      FramedPeriod(e, After(e, s, i), periods[i]);
    }
  }

  lemma SentFramesMasked(e: Setup, s: Sender, periods: seq<seq<Sample>>, arrives: seq<seq<bool>>)
    requires Ready(e) && AllPeriods(e, periods) && Masks(e, periods, arrives)
    ensures Fragments.Masked(SentFrames(e, s, periods), arrives)
  {
    ReadyFits(e);
    SentFrameFacts(e, s, periods);
    hide SentFrames, FrameBytes, After, Ready;
  }

  /** Within as many frames as there are sequences none is mistaken for another. */
  lemma SentFramesApart(e: Setup, s: Sender, periods: seq<seq<Sample>>)
    requires Ready(e) && AllPeriods(e, periods) && |periods| <= SEQUENCES
    ensures Fragments.DistinctSequences(SentFrames(e, s, periods))
  {
    SentFrameFacts(e, s, periods);
    hide SentFrames, FrameBytes, After, Ready;
    forall i, j | 0 <= i < j < |periods|
      ensures SentFrames(e, s, periods)[i].sequence != SentFrames(e, s, periods)[j].sequence
    {
      SequencesApart(e, s, i, j);
    }
  }

  // ---------------------------------------------------------------------------
  // The receiver's run: messages heard, with takes and discards anywhere among them.

  type Op = Playout.Op<seq<byte>>

  datatype Event = Hear(message: seq<byte>) | Play(op: Op)

  function HeardMessages(events: seq<Event>): seq<seq<byte>> {
    if events == [] then []
    else (if events[0].Hear? then [events[0].message] else []) + HeardMessages(events[1..])
  }

  ghost predicate OnlyPlaying(events: seq<Event>) {
    forall i :: 0 <= i < |events| && events[i].Play? ==> !events[i].op.PushOp?
  }

  function Asked(e: Setup, bytes: seq<byte>): seq<Op> {
    match Read(e, bytes)
    case Push(position, period) => [Playout.PushOp(position, period, |period|)]
    case _ => []
  }

  /** What the playout buffer is asked to do. */
  function Live(e: Setup, s: Fragments.Assembly, events: seq<Event>): seq<Op>
    decreases |events|
  {
    if events == [] then []
    else
      match events[0]
      case Play(op) => [op] + Live(e, s, events[1..])
      case Hear(message) =>
        var (t, frame) := Fragments.Taken(Fragments.Fed(s, message).0);
        (if frame.Some? then Asked(e, frame.value) else []) + Live(e, t, events[1..])
  }

  function Pushes(ops: seq<Op>): seq<Op> {
    if ops == [] then [] else (if ops[0].PushOp? then [ops[0]] else []) + Pushes(ops[1..])
  }

  function Handed(e: Setup, frames: seq<seq<byte>>): seq<Op> {
    if frames == [] then [] else Asked(e, frames[0]) + Handed(e, frames[1..])
  }

  lemma PushesOfAsked(e: Setup, bytes: seq<byte>, rest: seq<Op>)
    ensures Pushes(Asked(e, bytes) + rest) == Asked(e, bytes) + Pushes(rest)
  {
    hide Read;
    var asked := Asked(e, bytes);
    if asked == [] {
      assert asked + rest == rest;
    } else {
      assert (asked + rest)[1..] == rest;
    }
  }

  /** Taking and discarding change nothing about what is handed over. */
  lemma {:induction false} LiveHands(e: Setup, s: Fragments.Assembly, events: seq<Event>)
    requires OnlyPlaying(events)
    ensures Pushes(Live(e, s, events)) == Handed(e, Fragments.Received(s, HeardMessages(events)).1)
    decreases |events|
  {
    hide Fragments.Fed, Asked, Fragments.Taken;
    if events != [] {
      match events[0] {
        case Play(op) =>
          LiveHands(e, s, events[1..]);
          assert ([op] + Live(e, s, events[1..]))[1..] == Live(e, s, events[1..]);
          assert HeardMessages(events) == HeardMessages(events[1..]);
        case Hear(message) =>
          var (t, frame) := Fragments.Taken(Fragments.Fed(s, message).0);
          LiveHands(e, t, events[1..]);
          HearFirst(e, s, events);
          hide Live, HeardMessages, Fragments.Received, Handed, Pushes;
          HandHead(e, frame, Live(e, t, events[1..]), Fragments.Received(t, HeardMessages(events[1..])).1);
      }
    }
  }

  lemma HearFirst(e: Setup, s: Fragments.Assembly, events: seq<Event>)
    requires events != [] && events[0].Hear?
    ensures var (t, frame) := Fragments.Taken(Fragments.Fed(s, events[0].message).0);
      var frames := Fragments.Received(t, HeardMessages(events[1..])).1;
      && Live(e, s, events) == (if frame.Some? then Asked(e, frame.value) else []) + Live(e, t, events[1..])
      && Fragments.Received(s, HeardMessages(events)).1 == if frame.Some? then [frame.value] + frames else frames
  {
    hide Fragments.Fed, Asked, Fragments.Taken;
    var rest := HeardMessages(events[1..]);
    assert HeardMessages(events)[0] == events[0].message && HeardMessages(events)[1..] == rest;
  }

  lemma HandHead(e: Setup, frame: Option<seq<byte>>, ops: seq<Op>, frames: seq<seq<byte>>)
    requires Pushes(ops) == Handed(e, frames)
    ensures Pushes((if frame.Some? then Asked(e, frame.value) else []) + ops)
         == Handed(e, if frame.Some? then [frame.value] + frames else frames)
  {
    hide Asked;
    if frame.Some? {
      PushesOfAsked(e, frame.value, ops);
      assert ([frame.value] + frames)[1..] == frames;
    } else {
      assert [] + ops == ops;
    }
  }

  /** Hearing messages is what Live says it is. */
  lemma {:induction false} HeardIsLive(e: Setup, r: Receiver, messages: seq<seq<byte>>)
    requires e.fmt.periodFrames > 0 && Playout.Inv(Ring(e), r.playout) && !r.assembly.ready
    ensures var ops := Live(e, r.assembly, Hears(messages));
      Heard(e, r, messages).playout == Playout.Run(Ring(e), r.playout, ops).0
    ensures Heard(e, r, messages).assembly == Fragments.Received(r.assembly, messages).0
    decreases |messages|
  {
    hide Fragments.Fed, Read, Playout.Inv, Playout.Push, Ring;
    if messages != [] {
      var t := Settled(e, Fed(r, messages[0]));
      SettledOps(e, Fed(r, messages[0]));
      HeardIsLive(e, t, messages[1..]);
      assert Hears(messages)[0] == Hear(messages[0]) && Hears(messages)[1..] == Hears(messages[1..]);
      var (s, frame) := Fragments.Taken(Fragments.Fed(r.assembly, messages[0]).0);
      var rest := Live(e, s, Hears(messages[1..]));
      if frame.Some? {
        RunAsked(e, r.playout, Asked(e, frame.value), rest);
      } else {
        assert [] + rest == rest;
      }
    }
  }

  function Hears(messages: seq<seq<byte>>): (events: seq<Event>)
    ensures |events| == |messages|
  {
    seq(|messages|, i requires 0 <= i < |messages| => Hear(messages[i]))
  }

  lemma {:induction false} HearsOnlyPush(e: Setup, a: Fragments.Assembly, messages: seq<seq<byte>>)
    ensures forall i :: 0 <= i < |Live(e, a, Hears(messages))| ==> Live(e, a, Hears(messages))[i].PushOp?
    ensures HeardMessages(Hears(messages)) == messages
    decreases |messages|
  {
    hide Fragments.Fed, Fragments.Taken, Read;
    if messages != [] {
      assert Hears(messages)[0] == Hear(messages[0]) && Hears(messages)[1..] == Hears(messages[1..]);
      HearsOnlyPush(e, Fragments.Taken(Fragments.Fed(a, messages[0]).0).0, messages[1..]);
    }
  }

  lemma SettledOps(e: Setup, r: Receiver)
    requires e.fmt.periodFrames > 0 && Playout.Inv(Ring(e), r.playout)
    ensures var (s, frame) := Fragments.Taken(r.assembly);
      && Settled(e, r).assembly == s
      && Settled(e, r).playout ==
         Playout.Run(Ring(e), r.playout, if frame.Some? then Asked(e, frame.value) else []).0
    ensures Playout.Inv(Ring(e), Settled(e, r).playout) && !Settled(e, r).assembly.ready
  {
    hide Read, Playout.Inv, Playout.Push, Ring;
    var (s, frame) := Fragments.Taken(r.assembly);
    if frame.Some? {
      var ops := Asked(e, frame.value);
      if ops != [] {
        assert ops[1..] == [];
      }
    }
  }

  lemma RunAsked(e: Setup, p: Playout.Playout<seq<byte>>, asked: seq<Op>, rest: seq<Op>)
    requires e.fmt.periodFrames > 0 && Playout.Inv(Ring(e), p) && |asked| <= 1
    ensures Playout.Run(Ring(e), p, asked + rest).0 == Playout.Run(Ring(e), Playout.Run(Ring(e), p, asked).0, rest).0
  {
    hide Playout.Inv, Playout.Apply, Ring;
    if asked == [] {
      assert asked + rest == rest;
    } else {
      assert asked[1..] == [] && (asked + rest)[1..] == rest;
    }
  }

  // ---------------------------------------------------------------------------
  // End to end.

  /** What the playout buffer should be asked to hold for period `i`. */
  function PeriodPush(e: Setup, s: Sender, i: nat, period: seq<Sample>): Op {
    Playout.PushOp(s.position + i * e.fmt.periodFrames, Flatten(period), PeriodBytes(e.fmt))
  }

  /** A push for each period from `i` on all of whose messages arrive. */
  ghost function Whole(e: Setup, s: Sender, periods: seq<seq<Sample>>, arrives: seq<seq<bool>>, i: nat): seq<Op>
    requires i <= |periods| == |arrives|
    decreases |periods| - i
  {
    if i == |periods| then []
    else
      (if Fragments.All(arrives[i]) then [PeriodPush(e, s, i, periods[i])] else [])
      + Whole(e, s, periods, arrives, i + 1)
  }

  /** The frame of period `i`, read, asks for exactly that period at its position. */
  lemma ReadsBack(e: Setup, s: Sender, i: nat, period: seq<Sample>)
    requires Ready(e) && IsPeriod(e.fmt, period)
    requires s.position + i * e.fmt.periodFrames < POSITIONS
    ensures Asked(e, SentOne(e, After(e, s, i), period).frame) == [PeriodPush(e, s, i, period)]
  {
    hide Framed, Unpack, WireFrame.Parse, WireFrame.Serialize, Valid, FrameBytes, WireFrame.Encodable, Flatten;
    ReadyFits(e);
    var t := After(e, s, i);
    FramedPeriod(e, t, period);
    var f := Framed(e, t, period).value;
    WireFrame.WrittenFrameParses(f);
    FlattenSize(period, e.fmt.sampleBytes);
  }

  lemma {:induction false} CompleteHands(
    e: Setup, s: Sender, periods: seq<seq<Sample>>, arrives: seq<seq<bool>>, i: nat)
    requires Ready(e) && AllPeriods(e, periods) && i <= |periods| == |arrives|
    requires s.position + |periods| * e.fmt.periodFrames <= POSITIONS
    ensures Handed(e, Fragments.Complete(SentFrames(e, s, periods)[i..], arrives[i..]))
         == Whole(e, s, periods, arrives, i)
    decreases |periods| - i
  {
    if i < |periods| {
      var frames := SentFrames(e, s, periods);
      CompleteHands(e, s, periods, arrives, i + 1);
      assert frames[i..][1..] == frames[i + 1..] && arrives[i..][1..] == arrives[i + 1..];
      var rest := Fragments.Complete(frames[i + 1..], arrives[i + 1..]);
      if Fragments.All(arrives[i]) {
        MultiplyOrdered(i + 1, |periods|, e.fmt.periodFrames);
        OneMoreOf(i, e.fmt.periodFrames);
        ReadsBack(e, s, i, periods[i]);
        hide *;
        HandedFirst(e, frames[i].frame, rest);
        WholeNext(e, s, periods, arrives, i);
        CompleteNext(frames[i..], arrives[i..]);
        SentFramesAt(e, s, periods, i);
      } else {
        assert [] + rest == rest;
        assert [] + Whole(e, s, periods, arrives, i + 1) == Whole(e, s, periods, arrives, i + 1);
      }
    }
  }

  lemma SentFramesAt(e: Setup, s: Sender, periods: seq<seq<Sample>>, i: nat)
    requires AllPeriods(e, periods) && i < |periods|
    ensures |periods[i]| == e.fmt.periodFrames * e.fmt.channels
    ensures SentFrames(e, s, periods)[i] == SentOne(e, After(e, s, i), periods[i])
  {
  }

  lemma HandedFirst(e: Setup, first: seq<byte>, rest: seq<seq<byte>>)
    ensures Handed(e, [first] + rest) == Asked(e, first) + Handed(e, rest)
  {
    assert ([first] + rest)[1..] == rest;
  }

  lemma WholeNext(e: Setup, s: Sender, periods: seq<seq<Sample>>, arrives: seq<seq<bool>>, i: nat)
    requires i < |periods| == |arrives| && Fragments.All(arrives[i])
    ensures Whole(e, s, periods, arrives, i)
         == [PeriodPush(e, s, i, periods[i])] + Whole(e, s, periods, arrives, i + 1)
  {
  }

  lemma CompleteNext(frames: seq<Fragments.Sent>, arrives: seq<seq<bool>>)
    requires |frames| == |arrives| > 0 && Fragments.All(arrives[0])
    ensures Fragments.Complete(frames, arrives)
         == [frames[0].frame] + Fragments.Complete(frames[1..], arrives[1..])
  {
  }

  /** Push `k` of the list is of a period whose messages all arrived. */
  ghost predicate IsWhole(
    e: Setup, s: Sender, periods: seq<seq<Sample>>, arrives: seq<seq<bool>>, i: int, position: nat, period: seq<byte>)
    requires |periods| == |arrives|
  {
    && 0 <= i < |periods| && Fragments.All(arrives[i])
    && position == s.position + i * e.fmt.periodFrames && period == Flatten(periods[i])
  }

  lemma {:induction false} WholePushes(
    e: Setup, s: Sender, periods: seq<seq<Sample>>, arrives: seq<seq<bool>>, i: nat, k: nat)
    returns (j: nat)
    requires i <= |periods| == |arrives| && k < |Whole(e, s, periods, arrives, i)|
    ensures var w := Whole(e, s, periods, arrives, i);
      && i <= j && w[k].PushOp? && IsWhole(e, s, periods, arrives, j, w[k].position, w[k].period)
    decreases |periods| - i
  {
    hide Flatten;
    if i < |periods| {
      if Fragments.All(arrives[i]) && k == 0 {
        j := i;
      } else {
        j := WholePushes(e, s, periods, arrives, i + 1, if Fragments.All(arrives[i]) then k - 1 else k);
      }
    }
  }

  lemma {:induction false} WholeIncreases(
    e: Setup, s: Sender, periods: seq<seq<Sample>>, arrives: seq<seq<bool>>, i: nat, k: nat, l: nat)
    requires i <= |periods| == |arrives| && e.fmt.periodFrames > 0
    requires k < l < |Whole(e, s, periods, arrives, i)|
    ensures var w := Whole(e, s, periods, arrives, i);
      w[k].PushOp? && w[l].PushOp? && w[k].position + e.fmt.periodFrames <= w[l].position
    decreases |periods| - i
  {
    hide Flatten;
    var w := Whole(e, s, periods, arrives, i);
    if Fragments.All(arrives[i]) {
      if k == 0 {
        var j := WholePushes(e, s, periods, arrives, i + 1, l - 1);
        assert w[l] == Whole(e, s, periods, arrives, i + 1)[l - 1];
        MultiplyOrdered(i + 1, j, e.fmt.periodFrames);
        OneMoreOf(i, e.fmt.periodFrames);
      } else {
        WholeIncreases(e, s, periods, arrives, i + 1, k - 1, l - 1);
      }
    } else {
      WholeIncreases(e, s, periods, arrives, i + 1, k, l);
    }
  }

  /** Usable pushes at `from` or after it, each a period or more after the one before. */
  ghost predicate PushesAscend(g: Playout.Geometry, pushes: seq<Op>, from: nat) {
    && (forall k :: 0 <= k < |pushes| ==>
          pushes[k].PushOp? && Playout.Usable(g, pushes[k].position, pushes[k].bytes) && pushes[k].position >= from)
    && (forall k, l :: 0 <= k < l < |pushes| ==> pushes[k].position + g.periodFrames <= pushes[l].position)
  }

  lemma {:induction false} AscendingByPushes(g: Playout.Geometry, ops: seq<Op>, from: nat)
    requires forall k :: 0 <= k < |Pushes(ops)| ==> Pushes(ops)[k].PushOp?
    requires PushesAscend(g, Pushes(ops), from)
    ensures Playout.Ascending(g, ops, from) && Playout.PushCount(ops) == |Pushes(ops)|
    decreases |ops|
  {
    hide Playout.Usable;
    if ops != [] {
      var all, rest := Pushes(ops), Pushes(ops[1..]);
      if ops[0].PushOp? {
        assert all[0] == ops[0] && all[1..] == rest;
        assert forall k :: 0 <= k < |rest| ==> rest[k] == all[k + 1];
        AscendingByPushes(g, ops[1..], ops[0].position + g.periodFrames);
      } else {
        assert all == rest;
        AscendingByPushes(g, ops[1..], from);
      }
    }
  }

  /** The pushes for whole periods are usable and ascend, for a sender that started on a period boundary. */
  lemma WholeAscends(e: Setup, s: Sender, periods: seq<seq<Sample>>, arrives: seq<seq<bool>>)
    requires |periods| == |arrives| && Ready(e) && s.position % e.fmt.periodFrames == 0
    ensures PushesAscend(Ring(e), Whole(e, s, periods, arrives, 0), 0)
  {
    hide Whole, Ready, Playout.Usable;
    ReadyPeriod(e);
    var w := Whole(e, s, periods, arrives, 0);
    forall k | 0 <= k < |w|
      ensures w[k].PushOp? && Playout.Usable(Ring(e), w[k].position, w[k].bytes)
    {
      WholeIsUsable(e, s, periods, arrives, k);
    }
    forall k, l | 0 <= k < l < |w|
      ensures w[k].position + e.fmt.periodFrames <= w[l].position
    {
      WholeIncreases(e, s, periods, arrives, 0, k, l);
    }
  }

  lemma WholeIsUsable(e: Setup, s: Sender, periods: seq<seq<Sample>>, arrives: seq<seq<bool>>, k: nat)
    requires |periods| == |arrives| && Ready(e) && e.fmt.periodFrames == 48 && s.position % 48 == 0
    requires k < |Whole(e, s, periods, arrives, 0)|
    ensures var op := Whole(e, s, periods, arrives, 0)[k];
      op.PushOp? && Playout.Usable(Ring(e), op.position, op.bytes)
  {
    hide Whole, Flatten;
    var j := WholePushes(e, s, periods, arrives, 0, k);
    WholeBytes(e, s, periods, arrives, 0, k);
    ReadyBytes(e);
    hide Ready, PeriodBytes;
    assert (s.position + j * 48) % 48 == 0;
  }

  lemma {:induction false} WholeBytes(
    e: Setup, s: Sender, periods: seq<seq<Sample>>, arrives: seq<seq<bool>>, i: nat, k: nat)
    requires i <= |periods| == |arrives| && k < |Whole(e, s, periods, arrives, i)|
    ensures var op := Whole(e, s, periods, arrives, i)[k]; op.PushOp? && op.bytes == PeriodBytes(e.fmt)
    decreases |periods| - i
  {
    hide Flatten, PeriodBytes;
    if i < |periods| && !(Fragments.All(arrives[i]) && k == 0) {
      WholeBytes(e, s, periods, arrives, i + 1, if Fragments.All(arrives[i]) then k - 1 else k);
    }
  }

  lemma ReadyBytes(e: Setup)
    requires Ready(e)
    ensures PeriodBytes(e.fmt) > 0
  {
    MultiplyOrdered(1, e.fmt.periodFrames, e.fmt.channels);
    MultiplyOrdered(1, e.fmt.periodFrames * e.fmt.channels, e.fmt.sampleBytes);
  }

  lemma {:induction false} InPushes(ops: seq<Op>, op: Op)
    requires op in ops && op.PushOp?
    ensures op in Pushes(ops)
  {
    if ops[0] != op {
      InPushes(ops[1..], op);
    }
  }

  /**
   * A run: periods sent one after another, no sequence or position coming round again; the
   * messages in `arrives` reach a receiver that is inside none of these frames; takes and
   * discards happen anywhere among the messages.
   */
  ghost predicate Transfer(e: Setup, s: Sender, periods: seq<seq<Sample>>, arrives: seq<seq<bool>>,
                           a: Fragments.Assembly, events: seq<Event>) {
    && Ready(e) && AllPeriods(e, periods) && Masks(e, periods, arrives)
    && |periods| <= SEQUENCES && s.position + |periods| * e.fmt.periodFrames <= POSITIONS
    && Fragments.Midway(a) && Fragments.HoldsNone(a, SentFrames(e, s, periods))
    && OnlyPlaying(events)
    && (SentFramesMasked(e, s, periods, arrives);
        HeardMessages(events) == Fragments.Arrivals(SentFrames(e, s, periods), arrives))
  }

  ghost predicate PositionsIncrease(ops: seq<Op>) {
    forall k, l :: 0 <= k < l < |ops| ==> ops[k].PushOp? && ops[l].PushOp? && ops[k].position < ops[l].position
  }

  lemma DeliveredWhole(e: Setup, s: Sender, periods: seq<seq<Sample>>, arrives: seq<seq<bool>>,
                       a: Fragments.Assembly, events: seq<Event>)
    requires Transfer(e, s, periods, arrives, a, events)
    ensures AllPeriods(e, periods) && |arrives| == |periods|
    ensures Fragments.Received(a, HeardMessages(events)).1 == Fragments.Complete(SentFrames(e, s, periods), arrives)
  {
    SentFramesMasked(e, s, periods, arrives);
    SentFramesApart(e, s, periods);
    hide Fragments.Arrivals, Fragments.Received, Fragments.Complete, SentFrames, Prepared, HeardMessages,
         Fragments.HoldsNone,
         Fragments.NoTwins;
    Fragments.DistinctHaveNoTwins(SentFrames(e, s, periods));
    Fragments.DeliveredExactly(a, SentFrames(e, s, periods), arrives);
  }

  /**
   * The buffer is handed exactly the periods all of whose messages arrived: once each, in
   * order, byte for byte, each at the position it was captured at, positions increasing.
   */
  lemma HandedExactly(e: Setup, s: Sender, periods: seq<seq<Sample>>, arrives: seq<seq<bool>>,
                      a: Fragments.Assembly, events: seq<Event>)
    requires Transfer(e, s, periods, arrives, a, events)
    ensures |periods| == |arrives|
    ensures Pushes(Live(e, a, events)) == Whole(e, s, periods, arrives, 0)
    ensures PositionsIncrease(Pushes(Live(e, a, events)))
  {
    hide Transfer, Live, Pushes, Fragments.Complete, Fragments.Received, Whole, SentFrames, Handed, HeardMessages;
    TransferParts(e, s, periods, arrives, a, events);
    DeliveredWhole(e, s, periods, arrives, a, events);
    hide Ready, AllPeriods;
    LiveHands(e, a, events);
    CompleteHands(e, s, periods, arrives, 0);
    var frames := SentFrames(e, s, periods);
    assert frames[0..] == frames && arrives[0..] == arrives;
    WholeAllIncrease(e, s, periods, arrives);
  }

  lemma WholeAllIncrease(e: Setup, s: Sender, periods: seq<seq<Sample>>, arrives: seq<seq<bool>>)
    requires |periods| == |arrives| && e.fmt.periodFrames > 0
    ensures PositionsIncrease(Whole(e, s, periods, arrives, 0))
  {
    hide Whole;
    var w := Whole(e, s, periods, arrives, 0);
    forall k, l | 0 <= k < l < |w|
      ensures w[k].PushOp? && w[l].PushOp? && w[k].position < w[l].position
    {
      WholeIncreases(e, s, periods, arrives, 0, k, l);
    }
  }

  lemma TransferParts(e: Setup, s: Sender, periods: seq<seq<Sample>>, arrives: seq<seq<bool>>,
                      a: Fragments.Assembly, events: seq<Event>)
    requires Transfer(e, s, periods, arrives, a, events)
    ensures Ready(e) && e.fmt.periodFrames > 0 && AllPeriods(e, periods) && |arrives| == |periods|
    ensures s.position + |periods| * e.fmt.periodFrames <= POSITIONS
    ensures OnlyPlaying(events)
  {
  }

  /**
   * And what is played, with takes and discards anywhere among the arrivals, is what was
   * captured at that position: byte for byte, in strictly increasing order of position, and
   * only periods that arrived whole.
   */
  lemma PlayedAsCaptured(e: Setup, s: Sender, periods: seq<seq<Sample>>, arrives: seq<seq<bool>>,
                         a: Fragments.Assembly, events: seq<Event>)
    requires Transfer(e, s, periods, arrives, a, events)
    ensures |periods| == |arrives|
    ensures e.fmt.periodFrames > 0
    ensures var played := Playout.Run(Ring(e), Playout.Empty(), Live(e, a, events)).1;
      && Playout.Increasing(played)
      && forall k :: 0 <= k < |played| ==> AsCaptured(e, s, periods, arrives, played[k])
  {
    hide Transfer, Live, Whole, Pushes, Playout.Run, Playout.Apply, PositionsIncrease;
    TransferParts(e, s, periods, arrives, a, events);
    hide Ready, AllPeriods;
    HandedExactly(e, s, periods, arrives, a, events);
    var g, ops := Ring(e), Live(e, a, events);
    var empty: Playout.Playout<seq<byte>> := Playout.Empty();
    Playout.PlaysWhatWasPushed(g, empty, ops);
    var played := Playout.Run(g, empty, ops).1;
    forall k | 0 <= k < |played|
      ensures AsCaptured(e, s, periods, arrives, played[k])
    {
      assert Playout.Sourced(g, empty, ops, played[k]);
      PushedAsCaptured(e, s, periods, arrives, ops, played[k]);
    }
  }

  /** Played as captured: a period that arrived whole, at its own position, byte for byte. */
  ghost predicate AsCaptured(e: Setup, s: Sender, periods: seq<seq<Sample>>, arrives: seq<seq<bool>>,
                             p: Playout.Played<seq<byte>>)
    requires |periods| == |arrives|
  {
    exists i :: IsWhole(e, s, periods, arrives, i, p.position, p.period)
  }

  lemma PushedAsCaptured(e: Setup, s: Sender, periods: seq<seq<Sample>>, arrives: seq<seq<bool>>,
                         ops: seq<Op>, p: Playout.Played<seq<byte>>)
    requires |periods| == |arrives| && Pushes(ops) == Whole(e, s, periods, arrives, 0)
    requires Playout.WasPushed(ops, PeriodBytes(e.fmt), p)
    ensures AsCaptured(e, s, periods, arrives, p)
  {
    hide Pushes, Whole, IsWhole;
    var op := Playout.PushOp(p.position, p.period, PeriodBytes(e.fmt));
    InPushes(ops, op);
    var x :| 0 <= x < |Pushes(ops)| && Pushes(ops)[x] == op;
    var i := WholePushes(e, s, periods, arrives, 0, x);
  }
}
