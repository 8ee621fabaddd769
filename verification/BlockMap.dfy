/**
 * The map from blocks to device channels, as the configuration validator admits it:
 * every check it makes, and the partition those checks amount to.
 */
module BlockMap {
  import opened Bytes

  const CHANNELS_PER_BLOCK := 8

  datatype BlockConfig = BlockConfig(index: int, channels: seq<int>, gainDb: real, codec: string, bitrate: int)

  datatype Config = Config(sampleRate: int, audioChannels: int, format: string, periodFrames: int,
                           linkBlocks: int, blocks: seq<BlockConfig>)

  datatype ConfigError =
    | RateNot48000 | UnknownFormat | PeriodNotOpus | PeriodNotMillisecond | ChannelsOutOfRange | ChannelsNotEights
    | BlocksOutOfRange | BlocksDoNotCover | WrongBlockCount
    | IndexOutOfRange | DuplicateIndex | NotEightChannels | ChannelOutside | ChannelCarriedTwice
    | GainOutside | UnknownCodec | BitrateOutside

  function ToLower(s: string): (r: string)
    ensures |r| == |s|
  {
    seq(|s|, i requires 0 <= i < |s| =>
      if 'A' <= s[i] <= 'Z' then s[i] - 'A' + 'a' else s[i])
  }

  predicate KnownCodec(b: BlockConfig) {
    ToLower(b.codec) in {"pcm_l24", "pcm_l16", "opus"}
  }

  predicate BitrateOk(b: BlockConfig) {
    ToLower(b.codec) == "opus" ==> 6000 <= b.bitrate <= 256000
  }

  predicate GainOk(b: BlockConfig) {
    -60.0 <= b.gainDb <= 24.0
  }

  predicate CarriesOpus(blocks: seq<BlockConfig>) {
    exists i :: 0 <= i < |blocks| && ToLower(blocks[i].codec) == "opus"
  }

  predicate OpusFrame(frames: int) {
    frames in {120, 240, 480, 960, 1920, 2880}
  }

  // ---------------------------------------------------------------------------
  // What a valid map is.

  ghost predicate Distinct<T>(s: seq<T>) {
    forall i, j :: 0 <= i < j < |s| ==> s[i] != s[j]
  }

  function Indexes(blocks: seq<BlockConfig>): (s: seq<int>)
    ensures |s| == |blocks|
    ensures forall i :: 0 <= i < |blocks| ==> s[i] == blocks[i].index
  {
    seq(|blocks|, i requires 0 <= i < |blocks| => blocks[i].index)
  }

  /** Every device channel carried, block after block. */
  function Carried(blocks: seq<BlockConfig>): seq<int> {
    if blocks == [] then [] else Carried(blocks[..|blocks| - 1]) + blocks[|blocks| - 1].channels
  }

  ghost predicate InRange(s: seq<int>, n: int) {
    forall i :: 0 <= i < |s| ==> 0 <= s[i] < n
  }

  /** With Opus the period is an Opus frame, without it is a millisecond. */
  predicate PeriodValid(c: Config) {
    if CarriesOpus(c.blocks) then OpusFrame(c.periodFrames) else c.periodFrames == 48
  }

  ghost predicate ShapeValid(c: Config) {
    && c.sampleRate == 48000 && c.format in {"s24_3le", "s16_le"} && PeriodValid(c)
    && 8 <= c.audioChannels <= 64 && c.audioChannels % 8 == 0
    && 1 <= c.linkBlocks <= 8 && c.linkBlocks == c.audioChannels / 8
    && |c.blocks| == c.linkBlocks
  }

  /** The blocks so far are each well formed, and no two claim an index or a channel. */
  ghost predicate BlocksSound(c: Config, blocks: seq<BlockConfig>) {
    && InRange(Indexes(blocks), c.linkBlocks) && Distinct(Indexes(blocks))
    && (forall i :: 0 <= i < |blocks| ==> |blocks[i].channels| == CHANNELS_PER_BLOCK)
    && InRange(Carried(blocks), c.audioChannels) && Distinct(Carried(blocks))
    && (forall i :: 0 <= i < |blocks| ==> GainOk(blocks[i]) && KnownCodec(blocks[i]) && BitrateOk(blocks[i]))
  }

  ghost predicate Valid(c: Config) {
    ShapeValid(c) && BlocksSound(c, c.blocks)
  }

  /** The defect an error names is there. */
  ghost predicate Explains(c: Config, e: ConfigError) {
    match e
    case RateNot48000 => c.sampleRate != 48000
    case UnknownFormat => c.format !in {"s24_3le", "s16_le"}
    case PeriodNotOpus => CarriesOpus(c.blocks) && !OpusFrame(c.periodFrames)
    case PeriodNotMillisecond => !CarriesOpus(c.blocks) && c.periodFrames != 48
    case ChannelsOutOfRange => !(8 <= c.audioChannels <= 64)
    case ChannelsNotEights => c.audioChannels % 8 != 0
    case BlocksOutOfRange => !(1 <= c.linkBlocks <= 8)
    case BlocksDoNotCover => c.linkBlocks != c.audioChannels / 8
    case WrongBlockCount => |c.blocks| != c.linkBlocks
    case IndexOutOfRange => !InRange(Indexes(c.blocks), c.linkBlocks)
    case DuplicateIndex => !Distinct(Indexes(c.blocks))
    case NotEightChannels => exists b :: b in c.blocks && |b.channels| != CHANNELS_PER_BLOCK
    case ChannelOutside => !InRange(Carried(c.blocks), c.audioChannels)
    case ChannelCarriedTwice => !Distinct(Carried(c.blocks))
    case GainOutside => exists b :: b in c.blocks && !GainOk(b)
    case UnknownCodec => exists b :: b in c.blocks && !KnownCodec(b)
    case BitrateOutside => exists b :: b in c.blocks && !BitrateOk(b)
  }

  lemma AnyDefectInvalidates(c: Config, e: ConfigError)
    requires Explains(c, e)
    ensures !Valid(c)
  {
  }

  // ---------------------------------------------------------------------------
  // The validator.

  ghost predicate Tallies(tally: seq<int>, seen: seq<int>) {
    forall k :: 0 <= k < |tally| ==> tally[k] >= 0 && (tally[k] != 0 <==> k in seen)
  }

  lemma {:induction false} CarriedAppend(a: seq<BlockConfig>, b: seq<BlockConfig>)
    ensures Carried(a + b) == Carried(a) + Carried(b)
  {
    if b == [] {
      assert a + b == a;
    } else {
      assert (a + b)[..|a + b| - 1] == a + b[..|b| - 1];
      CarriedAppend(a, b[..|b| - 1]);
    }
  }

  lemma CarriedPrefix(blocks: seq<BlockConfig>, n: nat, slot: nat)
    requires n < |blocks| && slot <= |blocks[n].channels|
    ensures Carried(blocks[..n]) + blocks[n].channels[..slot] <= Carried(blocks)
    ensures Carried(blocks[..n + 1]) == Carried(blocks[..n]) + blocks[n].channels
  {
    assert blocks == blocks[..n + 1] + blocks[n + 1..];
    assert blocks[..n + 1][..n] == blocks[..n];
    CarriedAppend(blocks[..n + 1], blocks[n + 1..]);
    assert blocks[n].channels == blocks[n].channels[..slot] + blocks[n].channels[slot..];
  }

  /** What goes wrong at a channel goes wrong for the whole list. */
  lemma ChannelDefect(c: Config, n: nat, slot: nat)
    requires n < |c.blocks| && slot < |c.blocks[n].channels|
    ensures !(0 <= c.blocks[n].channels[slot] < c.audioChannels) ==> Explains(c, ChannelOutside)
    ensures c.blocks[n].channels[slot] in Carried(c.blocks[..n]) + c.blocks[n].channels[..slot]
      ==> Explains(c, ChannelCarriedTwice)
  {
    var before := Carried(c.blocks[..n]) + c.blocks[n].channels[..slot];
    CarriedPrefix(c.blocks, n, slot + 1);
    var upTo := Carried(c.blocks[..n]) + c.blocks[n].channels[..slot + 1];
    assert upTo == before + [c.blocks[n].channels[slot]];
    assert Carried(c.blocks)[|before|] == c.blocks[n].channels[slot];
    if c.blocks[n].channels[slot] in before {
      var k :| 0 <= k < |before| && before[k] == c.blocks[n].channels[slot];
      assert Carried(c.blocks)[k] == upTo[k] == before[k];
    }
  }

  method ValidateChannels(c: Config, n: nat, tally: array<int>) returns (r: Option<ConfigError>)
    requires n < |c.blocks| && |c.blocks[n].channels| == CHANNELS_PER_BLOCK
    requires tally.Length == c.audioChannels && Tallies(tally[..], Carried(c.blocks[..n]))
    requires InRange(Carried(c.blocks[..n]), c.audioChannels) && Distinct(Carried(c.blocks[..n]))
    modifies tally
    ensures r.Some? ==> Explains(c, r.value)
    ensures r.None? ==> Tallies(tally[..], Carried(c.blocks[..n + 1]))
    ensures r.None? ==>
      InRange(Carried(c.blocks[..n + 1]), c.audioChannels) && Distinct(Carried(c.blocks[..n + 1]))
  {
    var channels := c.blocks[n].channels;
    ghost var base := Carried(c.blocks[..n]);
    assert base + channels[..0] == base;
    for slot := 0 to CHANNELS_PER_BLOCK
      invariant Tallies(tally[..], base + channels[..slot])
      invariant InRange(base + channels[..slot], c.audioChannels) && Distinct(base + channels[..slot])
    {
      ChannelDefect(c, n, slot);
      var channel := channels[slot];
      if channel < 0 || channel >= c.audioChannels {
        return Some(ChannelOutside);
      }
      var before := tally[channel];
      tally[channel] := before + 1;
      if before != 0 {
        return Some(ChannelCarriedTwice);
      }
      assert base + channels[..slot + 1] == (base + channels[..slot]) + [channel];
    }
    CarriedPrefix(c.blocks, n, CHANNELS_PER_BLOCK);
    assert channels[..CHANNELS_PER_BLOCK] == channels;
    return None;
  }

  lemma IndexDefect(c: Config, n: nat)
    requires n < |c.blocks|
    ensures !(0 <= c.blocks[n].index < c.linkBlocks) ==> Explains(c, IndexOutOfRange)
    ensures c.blocks[n].index in Indexes(c.blocks[..n]) ==> Explains(c, DuplicateIndex)
    ensures Indexes(c.blocks[..n + 1]) == Indexes(c.blocks[..n]) + [c.blocks[n].index]
  {
    assert Indexes(c.blocks)[n] == c.blocks[n].index;
    if c.blocks[n].index in Indexes(c.blocks[..n]) {
      var k :| 0 <= k < n && Indexes(c.blocks[..n])[k] == c.blocks[n].index;
      assert Indexes(c.blocks)[k] == Indexes(c.blocks)[n];
    }
  }

  method ValidateBlock(c: Config, n: nat, indexSeen: array<int>, channelSeen: array<int>)
    returns (r: Option<ConfigError>)
    requires n < |c.blocks| && indexSeen != channelSeen
    requires indexSeen.Length == c.linkBlocks && Tallies(indexSeen[..], Indexes(c.blocks[..n]))
    requires channelSeen.Length == c.audioChannels && Tallies(channelSeen[..], Carried(c.blocks[..n]))
    requires BlocksSound(c, c.blocks[..n])
    modifies indexSeen, channelSeen
    ensures r.Some? ==> Explains(c, r.value)
    ensures r.None? ==> BlocksSound(c, c.blocks[..n + 1])
    ensures r.None? ==> Tallies(indexSeen[..], Indexes(c.blocks[..n + 1]))
    ensures r.None? ==> Tallies(channelSeen[..], Carried(c.blocks[..n + 1]))
  {
    hide Carried;
    var block := c.blocks[n];
    assert block in c.blocks;
    IndexDefect(c, n);
    if block.index < 0 || block.index >= c.linkBlocks {
      return Some(IndexOutOfRange);
    }
    var before := indexSeen[block.index];
    indexSeen[block.index] := before + 1;
    if before != 0 {
      return Some(DuplicateIndex);
    }
    if |block.channels| != CHANNELS_PER_BLOCK {
      return Some(NotEightChannels);
    }
    var defect := ValidateChannels(c, n, channelSeen);
    if defect.Some? {
      return defect;
    }
    if block.gainDb < -60.0 || block.gainDb > 24.0 {
      return Some(GainOutside);
    }
    var codec := ToLower(block.codec);
    if codec != "pcm_l24" && codec != "pcm_l16" && codec != "opus" {
      return Some(UnknownCodec);
    }
    if codec == "opus" && (block.bitrate < 6000 || block.bitrate > 256000) {
      return Some(BitrateOutside);
    }
    return None;
  }

  /** The part of the period check that looks at the codecs. */
  method ValidatePeriod(c: Config) returns (r: Option<ConfigError>)
    requires c.sampleRate == 48000
    ensures r.None? <==> PeriodValid(c)
    ensures r.Some? ==> Explains(c, r.value)
  {
    var oneMs := c.sampleRate / 1000;
    var anyOpus := false;
    for n := 0 to |c.blocks|
      invariant anyOpus <==> exists i :: 0 <= i < n && ToLower(c.blocks[i].codec) == "opus"
    {
      if ToLower(c.blocks[n].codec) == "opus" {
        anyOpus := true;
      }
    }
    if anyOpus {
      var frame := c.periodFrames;
      if !(frame == 120 || frame == 240 || frame == 480 || frame == 960 || frame == 1920 || frame == 2880) {
        return Some(PeriodNotOpus);
      }
    } else if c.periodFrames != oneMs {
      return Some(PeriodNotMillisecond);
    }
    return None;
  }

  /** The audio, link and block checks: nothing when the map is sound, or a defect it has. */
  method Validate(c: Config) returns (r: Option<ConfigError>)
    ensures r.None? <==> Valid(c)
    ensures r.Some? ==> Explains(c, r.value)
  {
    if c.sampleRate != 48000 {
      return Some(RateNot48000);
    }
    if c.audioChannels < 8 || c.audioChannels > 64 {
      return Some(ChannelsOutOfRange);
    }
    if c.audioChannels % 8 != 0 {
      return Some(ChannelsNotEights);
    }
    if c.format != "s24_3le" && c.format != "s16_le" {
      return Some(UnknownFormat);
    }
    var period := ValidatePeriod(c);
    if period.Some? {
      return period;
    }
    var expectedBlocks := c.audioChannels / 8;
    if c.linkBlocks < 1 || c.linkBlocks > 8 {
      return Some(BlocksOutOfRange);
    }
    if c.linkBlocks != expectedBlocks {
      return Some(BlocksDoNotCover);
    }
    if |c.blocks| != c.linkBlocks {
      return Some(WrongBlockCount);
    }
    var indexSeen := new int[c.linkBlocks](i => 0);
    var channelSeen := new int[c.audioChannels](i => 0);
    for n := 0 to |c.blocks|
      invariant BlocksSound(c, c.blocks[..n])
      invariant Tallies(indexSeen[..], Indexes(c.blocks[..n]))
      invariant Tallies(channelSeen[..], Carried(c.blocks[..n]))
    {
      var defect := ValidateBlock(c, n, indexSeen, channelSeen);
      if defect.Some? {
        AnyDefectInvalidates(c, defect.value);
        return defect;
      }
    }
    assert c.blocks[..|c.blocks|] == c.blocks;
    return None;
  }

  // ---------------------------------------------------------------------------
  // The partition: distinct and in range is all of them, by counting.

  function Elements(s: seq<int>): set<int> {
    set x | x in s
  }

  lemma {:induction false} DistinctCount(s: seq<int>)
    requires Distinct(s)
    ensures |Elements(s)| == |s|
  {
    if s != [] {
      var front, last := s[..|s| - 1], s[|s| - 1];
      DistinctCount(front);
      assert s == front + [last];
      assert Elements(s) == Elements(front) + {last};
      assert last !in front;
    }
  }

  function Below(n: nat): (r: set<int>)
    ensures |r| == n
    ensures forall x :: x in r <==> 0 <= x < n
  {
    if n == 0 then {} else Below(n - 1) + {n - 1}
  }

  lemma SubsetOfSameSize(a: set<int>, b: set<int>)
    requires a <= b && |a| == |b|
    ensures a == b
  {
    var rest := b - a;
    assert b == a + rest && a !! rest;
    assert |rest| == 0;
  }

  lemma Pigeonhole(s: seq<int>)
    requires Distinct(s) && InRange(s, |s|)
    ensures forall x :: 0 <= x < |s| ==> x in s
  {
    DistinctCount(s);
    SubsetOfSameSize(Elements(s), Below(|s|));
    forall x | 0 <= x < |s|
      ensures x in s
    {
      assert x in Below(|s|);
      assert x in Elements(s);
    }
  }

  lemma {:induction false} CarriedAt(blocks: seq<BlockConfig>, at: nat, slot: nat)
    requires forall i :: 0 <= i < |blocks| ==> |blocks[i].channels| == CHANNELS_PER_BLOCK
    requires at < |blocks| && slot < CHANNELS_PER_BLOCK
    ensures |Carried(blocks)| == CHANNELS_PER_BLOCK * |blocks|
    ensures Carried(blocks)[CHANNELS_PER_BLOCK * at + slot] == blocks[at].channels[slot]
  {
    var front := blocks[..|blocks| - 1];
    if |blocks| == 1 {
      assert Carried(front) == [];
    } else if at == |blocks| - 1 {
      CarriedAt(front, 0, 0);
    } else {
      CarriedAt(front, at, slot);
    }
  }

  /** Channel c of the device is slot `slot` of the block listed at `at`. */
  ghost predicate Carries(blocks: seq<BlockConfig>, at: int, slot: int, c: int) {
    0 <= at < |blocks| && 0 <= slot < |blocks[at].channels| && blocks[at].channels[slot] == c
  }

  /** No channel is carried twice: one place in one block. */
  lemma CarriedOnce(c: Config, at: int, slot: int, at': int, slot': int, channel: int)
    requires Valid(c)
    requires Carries(c.blocks, at, slot, channel) && Carries(c.blocks, at', slot', channel)
    ensures at == at' && slot == slot'
  {
    CarriedAt(c.blocks, at, slot);
    CarriedAt(c.blocks, at', slot');
    var i, j := CHANNELS_PER_BLOCK * at + slot, CHANNELS_PER_BLOCK * at' + slot';
    assert Carried(c.blocks)[i] == Carried(c.blocks)[j];
  }

  /** Every device channel is carried: the lists of a valid map partition the device. */
  lemma EveryChannelIsCarried(c: Config, channel: int)
    requires Valid(c) && 0 <= channel < c.audioChannels
    ensures exists at, slot :: Carries(c.blocks, at, slot, channel)
  {
    CarriedAt(c.blocks, 0, 0);
    Pigeonhole(Carried(c.blocks));
    assert channel in Carried(c.blocks);
    var k :| 0 <= k < |Carried(c.blocks)| && Carried(c.blocks)[k] == channel;
    CarriedAt(c.blocks, k / CHANNELS_PER_BLOCK, k % CHANNELS_PER_BLOCK);
    assert Carries(c.blocks, k / CHANNELS_PER_BLOCK, k % CHANNELS_PER_BLOCK, channel);
  }

  /** Every wire index is some listed block's. */
  lemma EveryIndexIsListed(c: Config, index: int)
    requires Valid(c) && 0 <= index < |c.blocks|
    ensures exists at :: 0 <= at < |c.blocks| && c.blocks[at].index == index
  {
    Pigeonhole(Indexes(c.blocks));
    assert index in Indexes(c.blocks);
    var at :| 0 <= at < |c.blocks| && Indexes(c.blocks)[at] == index;
    assert c.blocks[at].index == index;
  }

  // ---------------------------------------------------------------------------
  // The conventional map.

  ghost predicate InIndexOrder(blocks: seq<BlockConfig>) {
    forall i :: 0 <= i < |blocks| ==> blocks[i].index == i
  }

  method DefaultChannels(index: nat) returns (channels: seq<int>)
    ensures |channels| == CHANNELS_PER_BLOCK
    ensures forall k :: 0 <= k < CHANNELS_PER_BLOCK ==> channels[k] == index * 8 + k
  {
    channels := [];
    for channel := 0 to 8
      invariant |channels| == channel
      invariant forall k :: 0 <= k < channel ==> channels[k] == index * 8 + k
    {
      channels := channels + [index * 8 + channel];
    }
  }

  /** Eight device channels to a block, in order. */
  method FillDefaultBlocks(linkBlocks: nat) returns (blocks: seq<BlockConfig>)
    ensures |blocks| == linkBlocks && InIndexOrder(blocks)
    ensures forall k :: 0 <= k < |Carried(blocks)| ==> Carried(blocks)[k] == k
    ensures forall i :: 0 <= i < |blocks| ==>
      && |blocks[i].channels| == 8 && blocks[i].gainDb == 0.0
      && blocks[i].codec == "pcm_l24" && blocks[i].bitrate == 128000
    ensures 1 <= linkBlocks <= 8 ==> Valid(Config(48000, 8 * linkBlocks, "s24_3le", 48, linkBlocks, blocks))
  {
    blocks := [];
    for index := 0 to linkBlocks
      invariant |blocks| == index && InIndexOrder(blocks)
      invariant forall i :: 0 <= i < index ==> |blocks[i].channels| == CHANNELS_PER_BLOCK
      invariant forall i :: 0 <= i < index ==> blocks[i].gainDb == 0.0 && blocks[i].codec == "pcm_l24"
      invariant forall i :: 0 <= i < index ==> blocks[i].bitrate == 128000
      invariant |Carried(blocks)| == 8 * index
      invariant forall k :: 0 <= k < 8 * index ==> Carried(blocks)[k] == k
    {
      var channels := DefaultChannels(index);
      var next := blocks + [BlockConfig(index, channels, 0.0, "pcm_l24", 128000)];
      assert next[..|next| - 1] == blocks;
      blocks := next;
    }
    if 1 <= linkBlocks <= 8 {
      DefaultIsValid(blocks);
    }
    hide *;
  }

  lemma DefaultIsValid(blocks: seq<BlockConfig>)
    requires 1 <= |blocks| <= 8 && InIndexOrder(blocks)
    requires |Carried(blocks)| == 8 * |blocks| && forall k :: 0 <= k < 8 * |blocks| ==> Carried(blocks)[k] == k
    requires forall i :: 0 <= i < |blocks| ==>
      && |blocks[i].channels| == CHANNELS_PER_BLOCK && blocks[i].gainDb == 0.0
      && blocks[i].codec == "pcm_l24" && blocks[i].bitrate == 128000
    ensures Valid(Config(48000, 8 * |blocks|, "s24_3le", 48, |blocks|, blocks))
  {
    var c := Config(48000, 8 * |blocks|, "s24_3le", 48, |blocks|, blocks);
    PlainIsLower();
    hide ToLower, Carried;
    assert ShapeValid(c) by { hide GainOk, InIndexOrder; }
    hide ShapeValid;
    assert InRange(Indexes(blocks), |blocks|) && Distinct(Indexes(blocks));
    hide Indexes;
    assert forall i :: 0 <= i < |blocks| ==> GainOk(blocks[i]) && KnownCodec(blocks[i]) && BitrateOk(blocks[i]);
  }

  lemma PlainIsLower()
    ensures ToLower("pcm_l24") == "pcm_l24"
  {
  }
}
