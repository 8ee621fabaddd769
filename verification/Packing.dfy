/**
 * Device periods into wire blocks and back: the only two places the block map is applied.
 * A period is its samples, frame after frame, each sample the octets the device uses; a
 * build without the Opus library, so an Opus block is refused.
 */
module Packing {
  import opened Arithmetic
  import opened Bytes
  import opened BlockMap
  import WireFrame

  type Sample = seq<byte>

  datatype Format = Format(channels: nat, periodFrames: nat, sampleBytes: nat)

  datatype EngineError =
    | NotEight | BeyondChannels | ForeignLink | OtherBlockCount | UnknownBlock | BlockTwice
    | OpusUnavailable | OtherWidth | ShortBlock

  predicate Known(fmt: Format) {
    fmt.sampleBytes == 2 || fmt.sampleBytes == 3
  }

  ghost predicate IsPeriod(fmt: Format, p: seq<Sample>) {
    |p| == fmt.periodFrames * fmt.channels && AllWide(p, fmt.sampleBytes)
  }

  /** Where a channel's sample of a frame lies in a period. */
  function At(fmt: Format, frame: nat, channel: int): (i: nat)
    requires frame < fmt.periodFrames && 0 <= channel < fmt.channels
    ensures i < fmt.periodFrames * fmt.channels
  {
    MultiplyOrdered(frame + 1, fmt.periodFrames, fmt.channels);
    frame * fmt.channels + channel
  }

  lemma AtIsInjective(fmt: Format, f: nat, c: int, f': nat, c': int)
    requires f < fmt.periodFrames && 0 <= c < fmt.channels
    requires f' < fmt.periodFrames && 0 <= c' < fmt.channels
    ensures At(fmt, f, c) == At(fmt, f', c') <==> f == f' && c == c'
  {
    DivideUnique(At(fmt, f, c), fmt.channels, f, c);
    DivideUnique(At(fmt, f', c'), fmt.channels, f', c');
  }

  lemma AtCovers(fmt: Format, i: nat)
    requires i < fmt.periodFrames * fmt.channels
    ensures fmt.channels > 0 && i / fmt.channels < fmt.periodFrames
    ensures i == At(fmt, i / fmt.channels, i % fmt.channels)
  {
    var f, c := i / fmt.channels, i % fmt.channels;
    assert i == f * fmt.channels + c;
    if f >= fmt.periodFrames {
      MultiplyOrdered(fmt.periodFrames, f, fmt.channels);
    }
  }

  function Flatten(samples: seq<Sample>): seq<byte> {
    if samples == [] then [] else Flatten(samples[..|samples| - 1]) + samples[|samples| - 1]
  }

  ghost predicate AllWide(samples: seq<Sample>, width: nat) {
    forall i :: 0 <= i < |samples| ==> |samples[i]| == width
  }

  lemma {:induction false} FlattenSize(samples: seq<Sample>, width: nat)
    requires AllWide(samples, width)
    ensures |Flatten(samples)| == |samples| * width
  {
    if samples != [] {
      FlattenSize(samples[..|samples| - 1], width);
      assert |samples| * width == (|samples| - 1) * width + width;
    }
  }

  lemma {:induction false} FlattenSlice(samples: seq<Sample>, width: nat, k: nat)
    requires AllWide(samples, width) && k < |samples|
    ensures k * width + width <= |Flatten(samples)|
    ensures Flatten(samples)[k * width..k * width + width] == samples[k]
  {
    var n := |samples| - 1;
    var front := samples[..n];
    var (flat, last, from) := (Flatten(front), samples[n], k * width);
    assert Flatten(samples) == flat + last;
    FlattenSize(front, width);
    hide *;
    if k < n {
      FlattenSlice(front, width, k);
      SliceOfJoined(flat, last, from, width);
    } else {
      SliceOfJoined(flat, last, |flat|, width);
    }
  }

  lemma SliceOfJoined(front: seq<byte>, last: seq<byte>, from: nat, width: nat)
    requires from + width <= |front| || (from == |front| && width == |last|)
    ensures from + width <= |front + last|
    ensures (front + last)[from..from + width] == if from == |front| then last[..width] else front[from..from + width]
  {
  }

  // ---------------------------------------------------------------------------
  // Packing.

  function PcmPayload(fmt: Format): WireFrame.PayloadType {
    if fmt.sampleBytes == 2 then WireFrame.PcmL16 else WireFrame.PcmL24
  }

  predicate ChannelsInRange(fmt: Format, channels: seq<int>) {
    forall s :: 0 <= s < |channels| ==> 0 <= channels[s] < fmt.channels
  }

  /** A block's samples, interleaved as its eight channels. */
  function BlockSamples(fmt: Format, channels: seq<int>, period: seq<Sample>): (r: seq<Sample>)
    requires |channels| == CHANNELS_PER_BLOCK && ChannelsInRange(fmt, channels)
    requires |period| == fmt.periodFrames * fmt.channels
    ensures |r| == fmt.periodFrames * CHANNELS_PER_BLOCK
  {
    seq(fmt.periodFrames * CHANNELS_PER_BLOCK,
      k requires 0 <= k < fmt.periodFrames * CHANNELS_PER_BLOCK =>
        period[At(fmt, k / CHANNELS_PER_BLOCK, channels[k % CHANNELS_PER_BLOCK])])
  }

  function PackBlock(fmt: Format, b: BlockConfig, period: seq<Sample>): Result<WireFrame.Block, EngineError>
    requires |period| == fmt.periodFrames * fmt.channels
  {
    if |b.channels| != CHANNELS_PER_BLOCK then Failure(NotEight)
    else if fmt.periodFrames == 0 then
      Success(WireFrame.Block(b.index % 256, PcmPayload(fmt), CHANNELS_PER_BLOCK, []))
    else if !ChannelsInRange(fmt, b.channels) then Failure(BeyondChannels)
    else
      Success(WireFrame.Block(b.index % 256, PcmPayload(fmt), CHANNELS_PER_BLOCK,
        Flatten(BlockSamples(fmt, b.channels, period))))
  }

  function PackBlocks(fmt: Format, blocks: seq<BlockConfig>, period: seq<Sample>)
    : Result<seq<WireFrame.Block>, EngineError>
    requires |period| == fmt.periodFrames * fmt.channels
  {
    if blocks == [] then Success([])
    else
      match PackBlock(fmt, blocks[0], period)
      case Failure(why) => Failure(why)
      case Success(block) =>
        match PackBlocks(fmt, blocks[1..], period)
        case Failure(why) => Failure(why)
        case Success(rest) => Success([block] + rest)
  }

  /** Blocks are packed before any is encoded, so a map's faults are found first. */
  function Pack(fmt: Format, blocks: seq<BlockConfig>, linkId: u16, position: u64, period: seq<Sample>)
    : Result<WireFrame.Frame, EngineError>
    requires |period| == fmt.periodFrames * fmt.channels
  {
    match PackBlocks(fmt, blocks, period)
    case Failure(why) => Failure(why)
    case Success(packed) =>
      if CarriesOpus(blocks) then Failure(OpusUnavailable)
      else Success(WireFrame.Frame(linkId, 0, position, packed))
  }

  // ---------------------------------------------------------------------------
  // Unpacking.

  function Silence(fmt: Format): (p: seq<Sample>)
    ensures |p| == fmt.periodFrames * fmt.channels
  {
    seq(fmt.periodFrames * fmt.channels, i => seq(fmt.sampleBytes, j => 0))
  }

  /** A wire block's samples into the period, from (frame, slot) on, in the loop's order. */
  function PlaceFrom(fmt: Format, channels: seq<int>, wireChannels: nat, data: seq<byte>,
                     p: seq<Sample>, frame: nat, slot: nat): (r: Result<seq<Sample>, EngineError>)
    requires |p| == fmt.periodFrames * fmt.channels
    requires frame <= fmt.periodFrames && slot <= |channels|
    ensures r.Success? ==> |r.value| == |p|
    decreases fmt.periodFrames - frame, |channels| - slot
  {
    if frame == fmt.periodFrames then Success(p)
    else if slot == |channels| then PlaceFrom(fmt, channels, wireChannels, data, p, frame + 1, 0)
    else if !(0 <= channels[slot] < fmt.channels) then Failure(BeyondChannels)
    else
      var from := (frame * wireChannels + slot) * fmt.sampleBytes;
      if from + fmt.sampleBytes > |data| then Failure(ShortBlock)
      else
        PlaceFrom(fmt, channels, wireChannels, data,
          p[At(fmt, frame, channels[slot]) := data[from..from + fmt.sampleBytes]], frame, slot + 1)
  }

  /** What is wrong with a wire block before any of it is placed. */
  function BlockRefusal(fmt: Format, blocks: seq<BlockConfig>, b: WireFrame.Block, filled: set<int>)
    : Option<EngineError>
  {
    if b.index >= |blocks| then Some(UnknownBlock)
    else if b.index in filled then Some(BlockTwice)
    else if b.payload == WireFrame.OpusPacket then Some(OpusUnavailable)
    else if WireFrame.SampleBytes(b.payload) != fmt.sampleBytes then Some(OtherWidth)
    else None
  }

  function UnpackBlocks(fmt: Format, blocks: seq<BlockConfig>, wire: seq<WireFrame.Block>, filled: set<int>,
                        p: seq<Sample>): (r: Result<seq<Sample>, EngineError>)
    requires |p| == fmt.periodFrames * fmt.channels
    ensures r.Success? ==> |r.value| == |p|
  {
    if wire == [] then Success(p)
    else
      var refusal := BlockRefusal(fmt, blocks, wire[0], filled);
      if refusal.Some? then Failure(refusal.value)
      else
        match PlaceFrom(fmt, blocks[wire[0].index].channels, wire[0].channels, wire[0].data, p, 0, 0)
        case Failure(why) => Failure(why)
        case Success(q) => UnpackBlocks(fmt, blocks, wire[1..], filled + {wire[0].index}, q)
  }

  function Unpack(fmt: Format, blocks: seq<BlockConfig>, linkId: u16, frame: WireFrame.Frame)
    : (r: Result<seq<Sample>, EngineError>)
    ensures r.Success? ==> |r.value| == fmt.periodFrames * fmt.channels
  {
    if frame.linkId != linkId then Failure(ForeignLink)
    else if |frame.blocks| != |blocks| then Failure(OtherBlockCount)
    else UnpackBlocks(fmt, blocks, frame.blocks, {}, Silence(fmt))
  }

  // ---------------------------------------------------------------------------
  // What placing one block does.

  /** (f, s) is at or after (frame, slot) in the loop's order. */
  predicate NotBefore(f: int, s: int, frame: int, slot: int) {
    f > frame || (f == frame && s >= slot)
  }

  ghost predicate GoodMap(fmt: Format, channels: seq<int>) {
    |channels| == CHANNELS_PER_BLOCK && ChannelsInRange(fmt, channels) && Distinct(channels)
  }

  /** A block's sample for a frame and a slot lies within its octets. */
  predicate HasSample(fmt: Format, wireChannels: nat, data: seq<byte>, f: nat, s: nat) {
    (f * wireChannels + s) * fmt.sampleBytes + fmt.sampleBytes <= |data|
  }

  /** That sample. */
  function SampleOf(fmt: Format, wireChannels: nat, data: seq<byte>, f: nat, s: nat): Sample
    requires HasSample(fmt, wireChannels, data, f, s)
  {
    var from := (f * wireChannels + s) * fmt.sampleBytes;
    data[from..from + fmt.sampleBytes]
  }

  /** There is a sample for every frame and slot from (frame, slot) on, and a channel of the device for each. */
  ghost predicate Placeable(fmt: Format, channels: seq<int>, wireChannels: nat, data: seq<byte>, frame: int, slot: int)
  {
    forall f: nat, s: nat :: f < fmt.periodFrames && s < |channels| && NotBefore(f, s, frame, slot) ==>
      0 <= channels[s] < fmt.channels && HasSample(fmt, wireChannels, data, f, s)
  }

  /** A block can be placed if and only if that is so; what stops it is a channel or a sample that is not there. */
  lemma {:induction false} PlacesIff(fmt: Format, channels: seq<int>, wireChannels: nat, data: seq<byte>,
                                     p: seq<Sample>, frame: nat, slot: nat)
    requires |p| == fmt.periodFrames * fmt.channels && frame <= fmt.periodFrames && slot <= |channels|
    ensures var r := PlaceFrom(fmt, channels, wireChannels, data, p, frame, slot);
      && (r.Success? <==> Placeable(fmt, channels, wireChannels, data, frame, slot))
      && (r == Failure(BeyondChannels) ==> exists s :: 0 <= s < |channels| && !(0 <= channels[s] < fmt.channels))
      && (r == Failure(ShortBlock) ==>
            exists f: nat, s: nat ::
              f < fmt.periodFrames && s < |channels| && !HasSample(fmt, wireChannels, data, f, s))
      && (r.Failure? ==> r.error in {BeyondChannels, ShortBlock})
    decreases fmt.periodFrames - frame, |channels| - slot
  {
    hide At;
    if frame < fmt.periodFrames {
      if slot == |channels| {
        PlacesIff(fmt, channels, wireChannels, data, p, frame + 1, 0);
        NextRow(fmt, channels, wireChannels, data, frame);
      } else {
        hide HasSample;
        NextSlot(fmt, channels, wireChannels, data, frame, slot);
        hide Placeable;
        if 0 <= channels[slot] < fmt.channels && HasSample(fmt, wireChannels, data, frame, slot) {
          HasSampleHere(fmt, wireChannels, data, frame, slot);
          var from := (frame * wireChannels + slot) * fmt.sampleBytes;
          PlacesIff(fmt, channels, wireChannels, data,
                    p[At(fmt, frame, channels[slot]) := data[from..from + fmt.sampleBytes]], frame, slot + 1);
        } else {
          HasSampleHere(fmt, wireChannels, data, frame, slot);
        }
      }
    }
  }

  lemma HasSampleHere(fmt: Format, wireChannels: nat, data: seq<byte>, f: nat, s: nat)
    ensures (f * wireChannels + s) * fmt.sampleBytes >= 0
    ensures HasSample(fmt, wireChannels, data, f, s) <==>
      (f * wireChannels + s) * fmt.sampleBytes + fmt.sampleBytes <= |data|
  {
  }

  /** A frame and a slot, from (frame, slot) on, with no channel or no sample. */
  ghost predicate Unplaced(fmt: Format, channels: seq<int>, wireChannels: nat, data: seq<byte>, f: nat, s: nat) {
    f < fmt.periodFrames && s < |channels|
    && !(0 <= channels[s] < fmt.channels && HasSample(fmt, wireChannels, data, f, s))
  }

  lemma PlaceableIff(fmt: Format, channels: seq<int>, wireChannels: nat, data: seq<byte>, frame: int, slot: int)
    ensures Placeable(fmt, channels, wireChannels, data, frame, slot)
       <==> forall f: nat, s: nat :: Unplaced(fmt, channels, wireChannels, data, f, s) ==> !NotBefore(f, s, frame, slot)
  {
    hide HasSample;
  }

  lemma NextRow(fmt: Format, channels: seq<int>, wireChannels: nat, data: seq<byte>, frame: nat)
    ensures Placeable(fmt, channels, wireChannels, data, frame, |channels|)
       <==> Placeable(fmt, channels, wireChannels, data, frame + 1, 0)
  {
    PlaceableIff(fmt, channels, wireChannels, data, frame, |channels|);
    PlaceableIff(fmt, channels, wireChannels, data, frame + 1, 0);
    hide HasSample, Placeable;
  }

  lemma NextSlot(fmt: Format, channels: seq<int>, wireChannels: nat, data: seq<byte>, frame: nat, slot: nat)
    requires frame < fmt.periodFrames && slot < |channels|
    ensures Placeable(fmt, channels, wireChannels, data, frame, slot) <==>
      && 0 <= channels[slot] < fmt.channels && HasSample(fmt, wireChannels, data, frame, slot)
      && Placeable(fmt, channels, wireChannels, data, frame, slot + 1)
  {
    PlaceableIff(fmt, channels, wireChannels, data, frame, slot);
    PlaceableIff(fmt, channels, wireChannels, data, frame, slot + 1);
    hide HasSample, Placeable;
    assert Unplaced(fmt, channels, wireChannels, data, frame, slot) <==>
      !(0 <= channels[slot] < fmt.channels && HasSample(fmt, wireChannels, data, frame, slot));
  }

  ghost predicate PlacedSince(fmt: Format, channels: seq<int>, wireChannels: nat, data: seq<byte>,
                              p: seq<Sample>, q: seq<Sample>, frame: int, slot: int)
    requires GoodMap(fmt, channels) && Placeable(fmt, channels, wireChannels, data, frame, slot)
    requires |p| == |q| == fmt.periodFrames * fmt.channels
  {
    && (forall f: nat, s: nat :: f < fmt.periodFrames && s < CHANNELS_PER_BLOCK && NotBefore(f, s, frame, slot)
         ==> q[At(fmt, f, channels[s])] == SampleOf(fmt, wireChannels, data, f, s))
    && (forall f: nat, s: nat :: f < fmt.periodFrames && s < CHANNELS_PER_BLOCK && !NotBefore(f, s, frame, slot)
         ==> q[At(fmt, f, channels[s])] == p[At(fmt, f, channels[s])])
    && (forall f: nat, c: nat :: f < fmt.periodFrames && c < fmt.channels && c !in channels
         ==> q[At(fmt, f, c)] == p[At(fmt, f, c)])
  }

  /** What placing writes: each slot's channel, with the sample of the frame and the slot, and no other. */
  lemma {:induction false} Placing(fmt: Format, channels: seq<int>, wireChannels: nat, data: seq<byte>,
                                   p: seq<Sample>, frame: nat, slot: nat)
    requires GoodMap(fmt, channels) && Placeable(fmt, channels, wireChannels, data, frame, slot)
    requires |p| == fmt.periodFrames * fmt.channels
    requires frame <= fmt.periodFrames && slot <= CHANNELS_PER_BLOCK
    ensures var r := PlaceFrom(fmt, channels, wireChannels, data, p, frame, slot);
      r.Success? && PlacedSince(fmt, channels, wireChannels, data, p, r.value, frame, slot)
    decreases fmt.periodFrames - frame, CHANNELS_PER_BLOCK - slot
  {
    if frame < fmt.periodFrames {
      if slot == CHANNELS_PER_BLOCK {
        NextRow(fmt, channels, wireChannels, data, frame);
        Placing(fmt, channels, wireChannels, data, p, frame + 1, 0);
        hide HasSample, SampleOf, At;
        assert forall f: nat, s: nat :: s < CHANNELS_PER_BLOCK ==>
          (NotBefore(f, s, frame, slot) <==> NotBefore(f, s, frame + 1, 0));
      } else {
        hide HasSample, SampleOf;
        NextSlot(fmt, channels, wireChannels, data, frame, slot);
        hide PlacedSince, Placeable;
        var p' := p[At(fmt, frame, channels[slot]) := SampleOf(fmt, wireChannels, data, frame, slot)];
        Placing(fmt, channels, wireChannels, data, p', frame, slot + 1);
        var q := PlaceFrom(fmt, channels, wireChannels, data, p', frame, slot + 1).value;
        PlacesNext(fmt, channels, wireChannels, data, p, frame, slot);
        PlacingStep(fmt, channels, wireChannels, data, p, q, frame, slot);
      }
    }
  }

  lemma PlacesNext(fmt: Format, channels: seq<int>, wireChannels: nat, data: seq<byte>, p: seq<Sample>,
                   frame: nat, slot: nat)
    requires |p| == fmt.periodFrames * fmt.channels && frame < fmt.periodFrames && slot < |channels|
    requires 0 <= channels[slot] < fmt.channels && HasSample(fmt, wireChannels, data, frame, slot)
    ensures PlaceFrom(fmt, channels, wireChannels, data, p, frame, slot)
         == PlaceFrom(fmt, channels, wireChannels, data,
                      p[At(fmt, frame, channels[slot]) := SampleOf(fmt, wireChannels, data, frame, slot)],
                      frame, slot + 1)
  {
    hide At;
  }

  lemma PlacingStep(fmt: Format, channels: seq<int>, wireChannels: nat, data: seq<byte>,
                    p: seq<Sample>, q: seq<Sample>, frame: nat, slot: nat)
    requires GoodMap(fmt, channels) && |p| == |q| == fmt.periodFrames * fmt.channels
    requires frame < fmt.periodFrames && slot < CHANNELS_PER_BLOCK
    requires Placeable(fmt, channels, wireChannels, data, frame, slot)
    requires HasSample(fmt, wireChannels, data, frame, slot)
    requires Placeable(fmt, channels, wireChannels, data, frame, slot + 1)
    requires PlacedSince(fmt, channels, wireChannels, data,
      p[At(fmt, frame, channels[slot]) := SampleOf(fmt, wireChannels, data, frame, slot)], q, frame, slot + 1)
    ensures PlacedSince(fmt, channels, wireChannels, data, p, q, frame, slot)
  {
    hide HasSample, SampleOf;
    forall f: nat, s: nat | f < fmt.periodFrames && s < CHANNELS_PER_BLOCK
      ensures NotBefore(f, s, frame, slot) ==>
        && HasSample(fmt, wireChannels, data, f, s)
        && q[At(fmt, f, channels[s])] == SampleOf(fmt, wireChannels, data, f, s)
      ensures !NotBefore(f, s, frame, slot) ==> q[At(fmt, f, channels[s])] == p[At(fmt, f, channels[s])]
    {
      AtIsInjective(fmt, f, channels[s], frame, channels[slot]);
      assert !NotBefore(f, s, frame, slot) ==> !NotBefore(f, s, frame, slot + 1);
      assert NotBefore(f, s, frame, slot) ==> NotBefore(f, s, frame, slot + 1) || (f == frame && s == slot);
    }
    forall f: nat, c: nat | f < fmt.periodFrames && c < fmt.channels && c !in channels
      ensures q[At(fmt, f, c)] == p[At(fmt, f, c)]
    {
      AtIsInjective(fmt, f, c, frame, channels[slot]);
      assert channels[slot] in channels;
    }
  }

  // ---------------------------------------------------------------------------
  // Which frames unpack.

  /** A PCM block of the device's width that fills the channels of the listed block its index names. */
  ghost predicate BlockFits(fmt: Format, blocks: seq<BlockConfig>, b: WireFrame.Block) {
    && b.index < |blocks|
    && (if fmt.sampleBytes == 2 then b.payload.PcmL16? else b.payload.PcmL24?)
    && Placeable(fmt, blocks[b.index].channels, b.channels, b.data, 0, 0)
  }

  /** A frame of our link, a block for each listed one, none twice, and each fits. */
  ghost predicate Unpackable(fmt: Format, blocks: seq<BlockConfig>, linkId: u16, frame: WireFrame.Frame) {
    && frame.linkId == linkId && |frame.blocks| == |blocks|
    && (forall i :: 0 <= i < |frame.blocks| ==> BlockFits(fmt, blocks, frame.blocks[i]))
    && (forall i, j :: 0 <= i < j < |frame.blocks| ==> frame.blocks[i].index != frame.blocks[j].index)
  }

  /** The defect an error names is there. */
  ghost predicate Explained(fmt: Format, blocks: seq<BlockConfig>, linkId: u16, frame: WireFrame.Frame, e: EngineError)
  {
    match e
    case ForeignLink => frame.linkId != linkId
    case OtherBlockCount => |frame.blocks| != |blocks|
    case UnknownBlock => exists b :: b in frame.blocks && b.index >= |blocks|
    case BlockTwice =>
      exists i, j :: 0 <= i < j < |frame.blocks| && frame.blocks[i].index == frame.blocks[j].index
    case OpusUnavailable => exists b :: b in frame.blocks && b.payload.OpusPacket?
    case OtherWidth =>
      exists b :: b in frame.blocks && !(if fmt.sampleBytes == 2 then b.payload.PcmL16? else b.payload.PcmL24?)
    case BeyondChannels =>
      exists b, s :: b in blocks && 0 <= s < |b.channels| && !(0 <= b.channels[s] < fmt.channels)
    case ShortBlock =>
      exists b, f: nat, s: nat :: b in frame.blocks && f < fmt.periodFrames && !HasSample(fmt, b.channels, b.data, f, s)
    case NotEight => false
  }

  /** One turn of the loop: past a block that fits and is new, or stopped at one that is not. */
  lemma UnpackTurn(fmt: Format, blocks: seq<BlockConfig>, b: WireFrame.Block, filled: set<int>, p: seq<Sample>)
    requires Known(fmt) && |p| == fmt.periodFrames * fmt.channels
    ensures BlockRefusal(fmt, blocks, b, filled).None? ==> b.index < |blocks|
    ensures (BlockRefusal(fmt, blocks, b, filled).None?
             && PlaceFrom(fmt, blocks[b.index].channels, b.channels, b.data, p, 0, 0).Success?)
      <==> BlockFits(fmt, blocks, b) && b.index !in filled
  {
    hide PlaceFrom, Placeable;
    if b.index < |blocks| {
      PlacesIff(fmt, blocks[b.index].channels, b.channels, b.data, p, 0, 0);
    }
  }

  lemma {:induction false} BlocksUnpackIff(fmt: Format, blocks: seq<BlockConfig>, wire: seq<WireFrame.Block>,
                                           filled: set<int>, p: seq<Sample>)
    requires Known(fmt) && |p| == fmt.periodFrames * fmt.channels
    ensures UnpackBlocks(fmt, blocks, wire, filled, p).Success? <==>
      && (forall i :: 0 <= i < |wire| ==> BlockFits(fmt, blocks, wire[i]) && wire[i].index !in filled)
      && (forall i, j :: 0 <= i < j < |wire| ==> wire[i].index != wire[j].index)
  {
    hide PlaceFrom, BlockFits, BlockRefusal;
    if wire != [] {
      var b, rest := wire[0], wire[1..];
      assert wire == [b] + rest;
      UnpackTurn(fmt, blocks, b, filled, p);
      if BlockRefusal(fmt, blocks, b, filled).None? {
        var q := PlaceFrom(fmt, blocks[b.index].channels, b.channels, b.data, p, 0, 0);
        if q.Success? {
          BlocksUnpackIff(fmt, blocks, rest, filled + {b.index}, q.value);
          assert forall i :: 0 < i < |wire| ==> wire[i] == rest[i - 1];
        }
      }
    }
  }

  /** A frame unpacks if and only if it is of our link, has every listed block once, and each fits. */
  lemma UnpacksExactly(fmt: Format, blocks: seq<BlockConfig>, linkId: u16, frame: WireFrame.Frame)
    requires Known(fmt)
    ensures Unpack(fmt, blocks, linkId, frame).Success? <==> Unpackable(fmt, blocks, linkId, frame)
  {
    hide UnpackBlocks, BlockFits;
    BlocksUnpackIff(fmt, blocks, frame.blocks, {}, Silence(fmt));
  }

  lemma {:induction false} BlocksRefusedFor(fmt: Format, blocks: seq<BlockConfig>, linkId: u16, frame: WireFrame.Frame,
                                            n: nat, filled: set<int>, p: seq<Sample>)
    requires Known(fmt) && |p| == fmt.periodFrames * fmt.channels && n <= |frame.blocks|
    requires forall x :: x in filled ==> exists i :: 0 <= i < n && frame.blocks[i].index == x
    ensures var r := UnpackBlocks(fmt, blocks, frame.blocks[n..], filled, p);
      r.Failure? ==> Explained(fmt, blocks, linkId, frame, r.error)
    decreases |frame.blocks| - n
  {
    hide PlaceFrom, HasSample;
    if n < |frame.blocks| {
      var b := frame.blocks[n];
      assert b in frame.blocks && frame.blocks[n..][0] == b && frame.blocks[n..][1..] == frame.blocks[n + 1..];
      if b.index < |blocks| {
        var channels := blocks[b.index].channels;
        assert blocks[b.index] in blocks;
        PlacesIff(fmt, channels, b.channels, b.data, p, 0, 0);
        var q := PlaceFrom(fmt, channels, b.channels, b.data, p, 0, 0);
        if q.Success? {
          BlocksRefusedFor(fmt, blocks, linkId, frame, n + 1, filled + {b.index}, q.value);
        }
      }
    }
  }

  /** And a refusal names a defect the frame has. */
  lemma RefusedFor(fmt: Format, blocks: seq<BlockConfig>, linkId: u16, frame: WireFrame.Frame)
    requires Known(fmt)
    ensures var r := Unpack(fmt, blocks, linkId, frame);
      r.Failure? ==> Explained(fmt, blocks, linkId, frame, r.error)
  {
    hide UnpackBlocks;
    BlocksRefusedFor(fmt, blocks, linkId, frame, 0, {}, Silence(fmt));
    assert frame.blocks[0..] == frame.blocks;
  }

  // ---------------------------------------------------------------------------
  // A valid map, packed and unpacked.

  /** The device format a configuration asks for. */
  function FormatOf(c: Config): Format {
    Format(if c.audioChannels > 0 then c.audioChannels else 0, if c.periodFrames > 0 then c.periodFrames else 0,
           if c.format == "s16_le" then 2 else 3)
  }

  /** The engine's device and map: the map is valid, covers the device, and is PCM only. */
  ghost predicate Prepared(fmt: Format, c: Config) {
    && Known(fmt) && Valid(c) && fmt.channels == c.audioChannels
    && forall i :: 0 <= i < |c.blocks| ==> ToLower(c.blocks[i].codec) != "opus"
  }

  lemma BlockIsGood(fmt: Format, c: Config, i: nat)
    requires Prepared(fmt, c) && i < |c.blocks|
    ensures 0 <= c.blocks[i].index < |c.blocks| <= 8
    ensures GoodMap(fmt, c.blocks[i].channels)
  {
    assert Indexes(c.blocks)[i] == c.blocks[i].index;
    forall s | 0 <= s < CHANNELS_PER_BLOCK
      ensures 0 <= c.blocks[i].channels[s] < fmt.channels
    {
      CarriedAt(c.blocks, i, s);
    }
    forall s, t | 0 <= s < t < CHANNELS_PER_BLOCK
      ensures c.blocks[i].channels[s] != c.blocks[i].channels[t]
    {
      if c.blocks[i].channels[s] == c.blocks[i].channels[t] {
        CarriedOnce(c, i, s, i, t, c.blocks[i].channels[s]);
      }
    }
  }

  ghost function PackedBlock(fmt: Format, b: BlockConfig, period: seq<Sample>): WireFrame.Block
    requires GoodMap(fmt, b.channels)
    requires |period| == fmt.periodFrames * fmt.channels
  {
    WireFrame.Block(b.index % 256, PcmPayload(fmt), CHANNELS_PER_BLOCK,
      Flatten(BlockSamples(fmt, b.channels, period)))
  }

  lemma {:induction false} PackedBlocks(fmt: Format, blocks: seq<BlockConfig>, period: seq<Sample>)
    requires forall i :: 0 <= i < |blocks| ==> GoodMap(fmt, blocks[i].channels)
    requires |period| == fmt.periodFrames * fmt.channels
    ensures var r := PackBlocks(fmt, blocks, period);
      r.Success? && |r.value| == |blocks|
      && forall i :: 0 <= i < |blocks| ==> r.value[i] == PackedBlock(fmt, blocks[i], period)
  {
    if blocks != [] {
      PackedBlocks(fmt, blocks[1..], period);
      if fmt.periodFrames == 0 {
        assert BlockSamples(fmt, blocks[0].channels, period) == [];
      }
      assert PackBlock(fmt, blocks[0], period) == Success(PackedBlock(fmt, blocks[0], period));
    }
  }

  /** Eight channels of the device, for a block carried as it is. */
  ghost predicate Packable(fmt: Format, b: BlockConfig) {
    && |b.channels| == 8 && (fmt.periodFrames > 0 ==> forall s :: 0 <= s < 8 ==> 0 <= b.channels[s] < fmt.channels)
    && ToLower(b.codec) != "opus"
  }

  /** What the wire carries for a listed block: its index, its width, and its samples frame after frame. */
  ghost predicate CarriesBlock(fmt: Format, b: BlockConfig, period: seq<Sample>, w: WireFrame.Block)
    requires |period| == fmt.periodFrames * fmt.channels && Packable(fmt, b)
  {
    && w.index == b.index % 256 && w.channels == 8
    && (if fmt.sampleBytes == 2 then w.payload.PcmL16? else w.payload.PcmL24?)
    && (IsPeriod(fmt, period) ==>
          && |w.data| == fmt.periodFrames * 8 * fmt.sampleBytes
          && forall f: nat, s: nat :: f < fmt.periodFrames && s < 8 ==>
               HasSample(fmt, 8, w.data, f, s) && SampleOf(fmt, 8, w.data, f, s) == period[At(fmt, f, b.channels[s])])
  }

  lemma PackedSize(fmt: Format, b: BlockConfig, period: seq<Sample>)
    requires |b.channels| == CHANNELS_PER_BLOCK && ChannelsInRange(fmt, b.channels) && IsPeriod(fmt, period)
    ensures |Flatten(BlockSamples(fmt, b.channels, period))| == fmt.periodFrames * 8 * fmt.sampleBytes
  {
    var samples := BlockSamples(fmt, b.channels, period);
    assert AllWide(samples, fmt.sampleBytes);
    hide BlockSamples;
    FlattenSize(samples, fmt.sampleBytes);
  }

  lemma OnePacked(fmt: Format, b: BlockConfig, period: seq<Sample>)
    requires |period| == fmt.periodFrames * fmt.channels
    ensures var r := PackBlock(fmt, b, period);
      && (ToLower(b.codec) != "opus" ==> (r.Success? <==> Packable(fmt, b)))
      && (r.Success? && Packable(fmt, b) ==> CarriesBlock(fmt, b, period, r.value))
      && (r == Failure(NotEight) ==> |b.channels| != 8)
      && (r == Failure(BeyondChannels) ==> exists s :: 0 <= s < |b.channels| && !(0 <= b.channels[s] < fmt.channels))
      && (r.Failure? ==> r.error in {NotEight, BeyondChannels})
  {
    hide Flatten, HasSample, SampleOf, BlockSamples, AllWide, ToLower;
    if Packable(fmt, b) && fmt.periodFrames > 0 && IsPeriod(fmt, period) {
      PackedSize(fmt, b, period);
      forall f: nat, s: nat | f < fmt.periodFrames && s < 8
        ensures var data := Flatten(BlockSamples(fmt, b.channels, period));
          HasSample(fmt, 8, data, f, s) && SampleOf(fmt, 8, data, f, s) == period[At(fmt, f, b.channels[s])]
      {
        PackedHasSample(fmt, b, period, f, s);
      }
    }
  }

  /** The defect of the map a refusal to pack names is there. */
  ghost predicate MapExplains(fmt: Format, blocks: seq<BlockConfig>, e: EngineError) {
    match e
    case NotEight => exists b :: b in blocks && |b.channels| != 8
    case BeyondChannels => exists b, s :: b in blocks && 0 <= s < |b.channels| && !(0 <= b.channels[s] < fmt.channels)
    case OpusUnavailable => exists b :: b in blocks && ToLower(b.codec) == "opus"
    case _ => false
  }

  lemma {:induction false} AllPacked(fmt: Format, blocks: seq<BlockConfig>, period: seq<Sample>, n: nat)
    requires |period| == fmt.periodFrames * fmt.channels && n <= |blocks|
    ensures var r := PackBlocks(fmt, blocks[n..], period);
      && (r.Failure? ==>
            MapExplains(fmt, blocks, r.error) && !forall i :: n <= i < |blocks| ==> Packable(fmt, blocks[i]))
      && (r.Success? ==>
            && |r.value| == |blocks| - n
            && forall i :: n <= i < |blocks| && ToLower(blocks[i].codec) != "opus" ==>
                 Packable(fmt, blocks[i]) && CarriesBlock(fmt, blocks[i], period, r.value[i - n]))
    decreases |blocks| - n
  {
    if n < |blocks| {
      var b := blocks[n];
      assert b in blocks && blocks[n..][0] == b && blocks[n..][1..] == blocks[n + 1..];
      OnePacked(fmt, b, period);
      hide PackBlock, CarriesBlock, ToLower;
      AllPacked(fmt, blocks, period, n + 1);
    }
  }

  /**
   * A period packs if and only if every listed block has eight channels of the device and none is
   * Opus; then each listed block is carried in its place, under our link and position. A refusal
   * names a defect of the map.
   */
  lemma PacksExactly(fmt: Format, blocks: seq<BlockConfig>, linkId: u16, position: u64, period: seq<Sample>)
    requires |period| == fmt.periodFrames * fmt.channels
    ensures var r := Pack(fmt, blocks, linkId, position, period);
      && (r.Success? <==> forall i :: 0 <= i < |blocks| ==> Packable(fmt, blocks[i]))
      && (r.Success? ==>
            && r.value == WireFrame.Frame(linkId, 0, position, r.value.blocks) && |r.value.blocks| == |blocks|
            && forall i :: 0 <= i < |blocks| ==> CarriesBlock(fmt, blocks[i], period, r.value.blocks[i]))
      && (r.Failure? ==> MapExplains(fmt, blocks, r.error))
  {
    AllPacked(fmt, blocks, period, 0);
    assert blocks[0..] == blocks;
    hide PackBlocks, CarriesBlock, ToLower;
    if exists i :: 0 <= i < |blocks| && ToLower(blocks[i].codec) == "opus" {
      var i :| 0 <= i < |blocks| && ToLower(blocks[i].codec) == "opus";
      assert blocks[i] in blocks && !Packable(fmt, blocks[i]);
    }
  }

  ghost predicate Routable(fmt: Format, blocks: seq<BlockConfig>) {
    forall i :: 0 <= i < |blocks| ==> 0 <= blocks[i].index < |blocks| <= 8 && GoodMap(fmt, blocks[i].channels)
  }

  /** Where the samples of the block listed at `i` come out: the channels of the block its index names. */
  function Destination(blocks: seq<BlockConfig>, i: nat): seq<int>
    requires i < |blocks| && 0 <= blocks[i].index < |blocks|
  {
    blocks[blocks[i].index].channels
  }

  /** The block listed at `i` has been routed: its samples are at its destination. */
  ghost predicate Routed(fmt: Format, blocks: seq<BlockConfig>, period: seq<Sample>, out: seq<Sample>, i: nat)
    requires Routable(fmt, blocks) && i < |blocks|
    requires |period| == |out| == fmt.periodFrames * fmt.channels
  {
    forall f: nat, s: nat :: f < fmt.periodFrames && s < CHANNELS_PER_BLOCK ==>
      out[At(fmt, f, Destination(blocks, i)[s])] == period[At(fmt, f, blocks[i].channels[s])]
  }

  lemma PreparedIsRoutable(fmt: Format, c: Config)
    requires Prepared(fmt, c)
    ensures Routable(fmt, c.blocks)
  {
    forall i | 0 <= i < |c.blocks|
      ensures 0 <= c.blocks[i].index < |c.blocks| <= 8 && GoodMap(fmt, c.blocks[i].channels)
    {
      BlockIsGood(fmt, c, i);
    }
  }

  /** The block's samples are where its index says. */
  ghost predicate Landed(fmt: Format, blocks: seq<BlockConfig>, b: WireFrame.Block, out: seq<Sample>)
    requires |out| == fmt.periodFrames * fmt.channels
  {
    && BlockFits(fmt, blocks, b) && GoodMap(fmt, blocks[b.index].channels)
    && forall f: nat, s: nat :: f < fmt.periodFrames && s < CHANNELS_PER_BLOCK ==>
         out[At(fmt, f, blocks[b.index].channels[s])] == SampleOf(fmt, b.channels, b.data, f, s)
  }

  /** Two blocks of a validated list have no channel in common. */
  lemma ChannelsApart(fmt: Format, c: Config, x: nat, y: nat, s: nat)
    requires Prepared(fmt, c) && Routable(fmt, c.blocks) && x < |c.blocks| && y < |c.blocks| && x != y
    requires s < CHANNELS_PER_BLOCK
    ensures c.blocks[x].channels[s] !in c.blocks[y].channels
  {
    if c.blocks[x].channels[s] in c.blocks[y].channels {
      var t :| 0 <= t < CHANNELS_PER_BLOCK && c.blocks[y].channels[t] == c.blocks[x].channels[s];
      CarriedOnce(c, x, s, y, t, c.blocks[x].channels[s]);
    }
  }

  lemma LandedStays(fmt: Format, c: Config, a: WireFrame.Block, b: WireFrame.Block, p: seq<Sample>, q: seq<Sample>)
    requires Prepared(fmt, c) && Routable(fmt, c.blocks) && BlockFits(fmt, c.blocks, a) && BlockFits(fmt, c.blocks, b)
    requires |p| == |q| == fmt.periodFrames * fmt.channels && a.index != b.index
    requires Landed(fmt, c.blocks, a, p)
    requires PlacedSince(fmt, c.blocks[b.index].channels, b.channels, b.data, p, q, 0, 0)
    ensures Landed(fmt, c.blocks, a, q)
  {
    forall f: nat, s: nat | f < fmt.periodFrames && s < CHANNELS_PER_BLOCK
      ensures q[At(fmt, f, c.blocks[a.index].channels[s])] == SampleOf(fmt, a.channels, a.data, f, s)
    {
      ChannelsApart(fmt, c, a.index, b.index, s);
      hide Placeable, HasSample, SampleOf;
    }
  }

  /** Placing a block lands it. */
  lemma PlacingLands(fmt: Format, c: Config, b: WireFrame.Block, p: seq<Sample>)
    requires Routable(fmt, c.blocks) && BlockFits(fmt, c.blocks, b) && |p| == fmt.periodFrames * fmt.channels
    ensures var r := PlaceFrom(fmt, c.blocks[b.index].channels, b.channels, b.data, p, 0, 0);
      && r.Success? && PlacedSince(fmt, c.blocks[b.index].channels, b.channels, b.data, p, r.value, 0, 0)
      && Landed(fmt, c.blocks, b, r.value)
  {
    Placing(fmt, c.blocks[b.index].channels, b.channels, b.data, p, 0, 0);
    hide PlaceFrom, Placeable, HasSample, SampleOf, GoodMap;
    assert forall f: nat, s: nat :: NotBefore(f, s, 0, 0);
  }

  lemma {:induction false} BlocksLand(fmt: Format, c: Config, wire: seq<WireFrame.Block>, n: nat, filled: set<int>,
                                      p: seq<Sample>)
    requires Prepared(fmt, c) && Routable(fmt, c.blocks) && |p| == fmt.periodFrames * fmt.channels && n <= |wire|
    requires forall i :: 0 <= i < |wire| ==> BlockFits(fmt, c.blocks, wire[i])
    requires forall i, j :: 0 <= i < j < |wire| ==> wire[i].index != wire[j].index
    requires forall i :: 0 <= i < n ==> Landed(fmt, c.blocks, wire[i], p)
    requires forall x :: x in filled <==> exists i :: 0 <= i < n && wire[i].index == x
    ensures var r := UnpackBlocks(fmt, c.blocks, wire[n..], filled, p);
      r.Success? && forall i :: 0 <= i < |wire| ==> Landed(fmt, c.blocks, wire[i], r.value)
    decreases |wire| - n
  {
    if n < |wire| {
      var b := wire[n];
      assert wire[n..][0] == b && wire[n..][1..] == wire[n + 1..];
      hide PlaceFrom, Placeable, Landed, PlacedSince, GoodMap, Routable, Prepared;
      assert BlockFits(fmt, c.blocks, b) && b.index !in filled;
      PlacingLands(fmt, c, b, p);
      var q := PlaceFrom(fmt, c.blocks[b.index].channels, b.channels, b.data, p, 0, 0).value;
      forall i | 0 <= i < n
        ensures Landed(fmt, c.blocks, wire[i], q)
      {
        LandedStays(fmt, c, wire[i], b, p, q);
      }
      BlocksLand(fmt, c, wire, n + 1, filled + {b.index}, q);
    }
  }

  /** Whatever an unpacked frame carries, each of its blocks is on the channels its index names. */
  lemma UnpackedLands(fmt: Format, c: Config, linkId: u16, frame: WireFrame.Frame)
    requires Prepared(fmt, c) && Routable(fmt, c.blocks) && Unpackable(fmt, c.blocks, linkId, frame)
    ensures var r := Unpack(fmt, c.blocks, linkId, frame);
      r.Success? && forall i :: 0 <= i < |frame.blocks| ==> Landed(fmt, c.blocks, frame.blocks[i], r.value)
  {
    hide Prepared, Routable, BlockFits, Landed, UnpackBlocks;
    assert frame.blocks[0..] == frame.blocks;
    BlocksLand(fmt, c, frame.blocks, 0, {}, Silence(fmt));
  }

  lemma PackedHasSample(fmt: Format, b: BlockConfig, period: seq<Sample>, f: nat, s: nat)
    requires |b.channels| == CHANNELS_PER_BLOCK && ChannelsInRange(fmt, b.channels) && IsPeriod(fmt, period)
    requires f < fmt.periodFrames && s < CHANNELS_PER_BLOCK
    ensures var data := Flatten(BlockSamples(fmt, b.channels, period));
      HasSample(fmt, 8, data, f, s) && SampleOf(fmt, 8, data, f, s) == period[At(fmt, f, b.channels[s])]
  {
    var samples, k := BlockSamples(fmt, b.channels, period), f * CHANNELS_PER_BLOCK + s;
    assert AllWide(samples, fmt.sampleBytes);
    assert k / CHANNELS_PER_BLOCK == f && k % CHANNELS_PER_BLOCK == s;
    FlattenSlice(samples, fmt.sampleBytes, k);
    hide Flatten, At;
  }

  lemma PackedFits(fmt: Format, blocks: seq<BlockConfig>, i: nat, period: seq<Sample>)
    requires Known(fmt) && Routable(fmt, blocks) && IsPeriod(fmt, period) && i < |blocks|
    ensures BlockFits(fmt, blocks, PackedBlock(fmt, blocks[i], period))
  {
    forall f: nat, s: nat | f < fmt.periodFrames && s < CHANNELS_PER_BLOCK
      ensures HasSample(fmt, 8, PackedBlock(fmt, blocks[i], period).data, f, s)
    {
      PackedHasSample(fmt, blocks[i], period, f, s);
    }
    hide HasSample, Flatten, BlockSamples, IsPeriod;
  }

  lemma IndexesApart(fmt: Format, c: Config)
    requires Prepared(fmt, c)
    ensures Known(fmt)
    ensures forall i, j :: 0 <= i < j < |c.blocks| ==> c.blocks[i].index != c.blocks[j].index
  {
    assert forall i, j :: 0 <= i < j < |c.blocks| ==> Indexes(c.blocks)[i] != Indexes(c.blocks)[j];
  }

  /** The frame made of a period, whatever sequence it is sent under. */
  ghost predicate FrameOf(fmt: Format, blocks: seq<BlockConfig>, linkId: u16, period: seq<Sample>,
                          frame: WireFrame.Frame)
    requires Routable(fmt, blocks) && |period| == fmt.periodFrames * fmt.channels
  {
    && frame.linkId == linkId && |frame.blocks| == |blocks|
    && forall i :: 0 <= i < |blocks| ==> frame.blocks[i] == PackedBlock(fmt, blocks[i], period)
  }

  lemma PacksFrameOf(fmt: Format, blocks: seq<BlockConfig>, linkId: u16, position: u64, sequence: u64,
                     period: seq<Sample>)
    requires Routable(fmt, blocks) && |period| == fmt.periodFrames * fmt.channels && !CarriesOpus(blocks)
    ensures var packed := Pack(fmt, blocks, linkId, position, period);
      packed.Success? && FrameOf(fmt, blocks, linkId, period, packed.value.(sequence := sequence))
  {
    PackedBlocks(fmt, blocks, period);
    hide PackBlocks, CarriesOpus, Flatten, BlockSamples;
  }

  lemma BlockOfFrame(fmt: Format, blocks: seq<BlockConfig>, linkId: u16, frame: WireFrame.Frame,
                     period: seq<Sample>, i: nat)
    requires Known(fmt) && Routable(fmt, blocks) && IsPeriod(fmt, period) && i < |blocks|
    requires FrameOf(fmt, blocks, linkId, period, frame)
    ensures frame.linkId == linkId && |frame.blocks| == |blocks|
    ensures frame.blocks[i].index == blocks[i].index && BlockFits(fmt, blocks, frame.blocks[i])
  {
    assert frame.blocks[i] == PackedBlock(fmt, blocks[i], period) && 0 <= blocks[i].index < 256;
    PackedFits(fmt, blocks, i, period);
    hide BlockFits, Flatten, BlockSamples, IsPeriod, GoodMap;
  }

  lemma FrameOfUnpacks(fmt: Format, c: Config, linkId: u16, frame: WireFrame.Frame, period: seq<Sample>)
    requires Prepared(fmt, c) && Routable(fmt, c.blocks) && IsPeriod(fmt, period)
    requires FrameOf(fmt, c.blocks, linkId, period, frame)
    ensures Unpackable(fmt, c.blocks, linkId, frame)
  {
    assert frame.linkId == linkId && |frame.blocks| == |c.blocks|;
    IndexesApart(fmt, c);
    hide BlockFits, Prepared, Routable, FrameOf, IsPeriod;
    forall i | 0 <= i < |c.blocks|
      ensures frame.blocks[i].index == c.blocks[i].index && BlockFits(fmt, c.blocks, frame.blocks[i])
    {
      BlockOfFrame(fmt, c.blocks, linkId, frame, period, i);
    }
  }

  /** A packed period unpacks, every listed block at its destination. */
  lemma UnpackOfPack(fmt: Format, c: Config, linkId: u16, position: u64, sequence: u64, period: seq<Sample>)
    requires Prepared(fmt, c) && Routable(fmt, c.blocks) && IsPeriod(fmt, period)
    ensures var packed := Pack(fmt, c.blocks, linkId, position, period);
      packed.Success? && var out := Unpack(fmt, c.blocks, linkId, packed.value.(sequence := sequence));
      out.Success? && forall i :: 0 <= i < |c.blocks| ==> Routed(fmt, c.blocks, period, out.value, i)
  {
    assert |period| == fmt.periodFrames * fmt.channels && !CarriesOpus(c.blocks);
    hide *;
    PacksFrameOf(fmt, c.blocks, linkId, position, sequence, period);
    var frame := Pack(fmt, c.blocks, linkId, position, period).value.(sequence := sequence);
    FrameOfUnpacks(fmt, c, linkId, frame, period);
    UnpackedLands(fmt, c, linkId, frame);
    var out := Unpack(fmt, c.blocks, linkId, frame).value;
    forall i | 0 <= i < |c.blocks|
      ensures Routed(fmt, c.blocks, period, out, i)
    {
      LandedIsRouted(fmt, c.blocks, linkId, frame, period, out, i);
    }
  }

  lemma LandedAt(fmt: Format, blocks: seq<BlockConfig>, b: WireFrame.Block, out: seq<Sample>, f: nat, s: nat)
    requires |out| == fmt.periodFrames * fmt.channels && Landed(fmt, blocks, b, out)
    requires f < fmt.periodFrames && s < CHANNELS_PER_BLOCK
    ensures b.index < |blocks| && GoodMap(fmt, blocks[b.index].channels) && HasSample(fmt, b.channels, b.data, f, s)
    ensures out[At(fmt, f, blocks[b.index].channels[s])] == SampleOf(fmt, b.channels, b.data, f, s)
  {
  }

  lemma LandedIsRouted(fmt: Format, blocks: seq<BlockConfig>, linkId: u16, frame: WireFrame.Frame,
                       period: seq<Sample>, out: seq<Sample>, i: nat)
    requires Routable(fmt, blocks) && IsPeriod(fmt, period) && i < |blocks|
    requires FrameOf(fmt, blocks, linkId, period, frame) && |frame.blocks| == |blocks|
    requires |out| == fmt.periodFrames * fmt.channels && Landed(fmt, blocks, frame.blocks[i], out)
    ensures Routed(fmt, blocks, period, out, i)
  {
    assert frame.blocks[i] == PackedBlock(fmt, blocks[i], period);
    hide FrameOf, HasSample, SampleOf, Flatten, BlockSamples, Landed, Distinct, AllWide, At;
    forall f: nat, s: nat | f < fmt.periodFrames && s < CHANNELS_PER_BLOCK
      ensures out[At(fmt, f, Destination(blocks, i)[s])] == period[At(fmt, f, blocks[i].channels[s])]
    {
      LandedAt(fmt, blocks, frame.blocks[i], out, f, s);
      PackedHasSample(fmt, blocks[i], period, f, s);
    }
  }

  /** unpack(pack(p)), for a prepared engine. */
  function RoundTrip(fmt: Format, blocks: seq<BlockConfig>, period: seq<Sample>): Result<seq<Sample>, EngineError>
    requires |period| == fmt.periodFrames * fmt.channels
  {
    match Pack(fmt, blocks, 0, 0, period)
    case Failure(why) => Failure(why)
    case Success(frame) => Unpack(fmt, blocks, 0, frame)
  }

  lemma InOrderSample(fmt: Format, c: Config, period: seq<Sample>, out: seq<Sample>, f: nat, channel: nat)
    requires Prepared(fmt, c) && Routable(fmt, c.blocks) && InIndexOrder(c.blocks)
    requires |out| == |period| == fmt.periodFrames * fmt.channels
    requires forall i :: 0 <= i < |c.blocks| ==> Routed(fmt, c.blocks, period, out, i)
    requires f < fmt.periodFrames && channel < fmt.channels
    ensures out[At(fmt, f, channel)] == period[At(fmt, f, channel)]
  {
    EveryChannelIsCarried(c, channel);
    var at, slot :| Carries(c.blocks, at, slot, channel);
    assert Routed(fmt, c.blocks, period, out, at);
    assert Destination(c.blocks, at)[slot] == channel;
  }

  /** With the list in index order every sample comes back where it was. */
  lemma InOrderIsIdentity(fmt: Format, c: Config, period: seq<Sample>, out: seq<Sample>)
    requires Prepared(fmt, c) && Routable(fmt, c.blocks) && InIndexOrder(c.blocks)
    requires |out| == |period| == fmt.periodFrames * fmt.channels
    requires forall i :: 0 <= i < |c.blocks| ==> Routed(fmt, c.blocks, period, out, i)
    ensures out == period
  {
    hide Routed;
    forall x | 0 <= x < |period|
      ensures out[x] == period[x]
    {
      AtCovers(fmt, x);
      InOrderSample(fmt, c, period, out, x / fmt.channels, x % fmt.channels);
    }
  }

  /** A period that is silent but for one channel's first sample. */
  function OneSample(fmt: Format, channel: int): (p: seq<Sample>)
    requires 0 <= channel < fmt.channels && fmt.periodFrames > 0
    ensures |p| == fmt.periodFrames * fmt.channels
  {
    Silence(fmt)[At(fmt, 0, channel) := seq(fmt.sampleBytes, j => 1)]
  }

  /**
   * unpack(pack(p)) is p for every period exactly when the list is in index order; a
   * validated list in any other order comes back with blocks of channels exchanged.
   */
  lemma RoundTripIffInIndexOrder(fmt: Format, c: Config)
    requires Prepared(fmt, c) && fmt.periodFrames > 0
    ensures (forall period :: IsPeriod(fmt, period) ==> RoundTrip(fmt, c.blocks, period) == Success(period))
      <==> InIndexOrder(c.blocks)
  {
    PreparedIsRoutable(fmt, c);
    if InIndexOrder(c.blocks) {
      forall period | IsPeriod(fmt, period)
        ensures RoundTrip(fmt, c.blocks, period) == Success(period)
      {
        UnpackOfPack(fmt, c, 0, 0, 0, period);
        InOrderIsIdentity(fmt, c, period, RoundTrip(fmt, c.blocks, period).value);
      }
    } else {
      var i :| 0 <= i < |c.blocks| && c.blocks[i].index != i;
      MisplacedSample(fmt, c, i);
    }
  }

  lemma MisplacedSample(fmt: Format, c: Config, i: nat)
    requires Prepared(fmt, c) && Routable(fmt, c.blocks) && fmt.periodFrames > 0
    requires i < |c.blocks| && c.blocks[i].index != i
    ensures exists period :: IsPeriod(fmt, period) && RoundTrip(fmt, c.blocks, period) != Success(period)
  {
    var from, to := c.blocks[i].channels[0], Destination(c.blocks, i)[0];
    if from == to {
      CarriedOnce(c, i, 0, c.blocks[i].index, 0, from);
    }
    var period := OneSample(fmt, from);
    assert IsPeriod(fmt, period);
    UnpackOfPack(fmt, c, 0, 0, 0, period);
    var out := RoundTrip(fmt, c.blocks, period).value;
    assert Routed(fmt, c.blocks, period, out, i);
    assert out[At(fmt, 0, to)] == period[At(fmt, 0, from)];
    AtIsInjective(fmt, 0, to, 0, from);
    assert period[At(fmt, 0, to)][0] == 0 && period[At(fmt, 0, from)][0] == 1;
  }

  /** A map of sixteen channels that validates with its two blocks listed the other way round. */
  function SwappedMap(): Config {
    Config(48000, 16, "s24_3le", 48, 2,
      [BlockConfig(1, [0, 1, 2, 3, 4, 5, 6, 7], 0.0, "pcm_l24", 128000),
       BlockConfig(0, [8, 9, 10, 11, 12, 13, 14, 15], 0.0, "pcm_l24", 128000)])
  }

  lemma SwappedMapValidates()
    ensures Valid(SwappedMap()) && !CarriesOpus(SwappedMap().blocks)
  {
    assert ToLower("pcm_l24") == "pcm_l24";
    hide ToLower;
    var c := SwappedMap();
    var first, second := c.blocks[0].channels, c.blocks[1].channels;
    assert c.blocks[..1] == [c.blocks[0]] && c.blocks[..1][..0] == [];
    assert Carried(c.blocks[..1]) == first;
    assert Carried(c.blocks) == first + second;
    assert forall k :: 0 <= k < 16 ==> (first + second)[k] == k;
    assert Indexes(c.blocks) == [1, 0];
  }

  /** So the failing side is real: this engine exchanges eight channels with eight others. */
  lemma SwappedMapMisplaces()
    ensures var fmt, blocks := FormatOf(SwappedMap()), SwappedMap().blocks;
      exists period :: IsPeriod(fmt, period) && RoundTrip(fmt, blocks, period) != Success(period)
  {
    var c := SwappedMap();
    SwappedMapValidates();
    PreparedIsRoutable(FormatOf(c), c);
    hide Valid;
    MisplacedSample(FormatOf(c), c, 0);
  }
}
