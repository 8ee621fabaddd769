/**
 * The frame on the wire octet by octet, and what each refusal of the encoder, of the decoder and
 * of the length walk says of the frame or the octets it was given.
 */
module Layout {
  import opened Bytes
  import opened FrameLength
  import opened WireFrame
  import Crc32

  // ---------------------------------------------------------------------------
  // Where everything is.

  /** Where block `i` starts: behind the header of twenty-eight octets and the blocks before it. */
  function Start(blocks: seq<Block>, i: nat): nat
    requires i <= |blocks|
  {
    if i == 0 then 28 else Start(blocks, i - 1) + 8 + |blocks[i - 1].data|
  }

  /** A block at `at`: its index, the code of its payload, its channels, a zero, its length and its octets. */
  ghost predicate BlockAt(s: seq<byte>, at: nat, b: Block) {
    var n := |b.data|;
    && at + 8 + n <= |s|
    && s[at] == b.index && s[at + 2] == b.channels && s[at + 3] == 0
    && s[at + 1] == (match b.payload case PcmL24 => 0 case PcmL16 => 1 case OpusPacket => 2 case AacLc => 3)
    && s[at + 4..at + 8] == [n / 0x100_0000 % 256, n / 0x1_0000 % 256, n / 0x100 % 256, n % 256]
    && s[at + 8..at + 8 + n] == b.data
  }

  lemma {:induction false} BlocksStart(blocks: seq<Block>, i: nat)
    requires i <= |blocks|
    ensures Start(blocks, i) == 28 + |BlocksBytes(blocks[..i])|
    ensures i < |blocks| ==> BlocksBytes(blocks[..i + 1]) == BlocksBytes(blocks[..i]) + BlockBytes(blocks[i])
  {
    if i > 0 {
      BlocksStart(blocks, i - 1);
    }
    if i < |blocks| {
      BlocksBytesSnoc(blocks, i);
    }
    assert blocks[..0] == [];
  }

  lemma BlockLies(s: seq<byte>, at: nat, b: Block)
    requires at + |BlockBytes(b)| <= |s| && s[at..at + |BlockBytes(b)|] == BlockBytes(b)
    ensures BlockAt(s, at, b)
  {
    NetworkOrder(|b.data|);
    hide BigEndian, PayloadCode;
    var four := [b.index, PayloadCode(b.payload), b.channels, 0];
    SplitSlice(s, at, at + 8 + |b.data|, BlockHeader(b), b.data);
    SplitSlice(s, at, at + 8, four, BigEndian(|b.data|, 4));
    FourOctets(s, at, four);
    CodeIs(b.payload);
  }

  lemma FourOctets(s: seq<byte>, at: nat, four: seq<byte>)
    requires |four| == 4 && at + 4 <= |s| && s[at..at + 4] == four
    ensures s[at] == four[0] && s[at + 1] == four[1] && s[at + 2] == four[2] && s[at + 3] == four[3]
  {
  }

  lemma CodeIs(p: PayloadType)
    ensures PayloadCode(p) == match p case PcmL24 => 0 case PcmL16 => 1 case OpusPacket => 2 case AacLc => 3
  {
  }

  lemma Middle(a: seq<byte>, b: seq<byte>, c: seq<byte>, d: seq<byte>, e: seq<byte>)
    ensures (a + (b + c + d) + e)[|a| + |b|..|a| + |b| + |c|] == c
  {
  }

  lemma BlocksLie(f: Frame, i: nat)
    requires i < |f.blocks|
    ensures BlockAt(Serialize(f), Start(f.blocks, i), f.blocks[i])
  {
    hide Crc32.Crc, Header, BlockAt;
    var blocks, at := f.blocks, Start(f.blocks, i);
    BlocksStart(blocks, i);
    BlocksBytesAppend(blocks[..i + 1], blocks[i + 1..]);
    assert blocks == blocks[..i + 1] + blocks[i + 1..];
    hide BlocksBytes, BlockBytes;
    var s, before, this', after :=
      Serialize(f), BlocksBytes(blocks[..i]), BlockBytes(blocks[i]), BlocksBytes(blocks[i + 1..]);
    assert Body(f) == Header(f) + (before + this' + after);
    Middle(Header(f), before, this', after, BigEndian(Crc32.Crc(Body(f)), 4));
    BlockLies(s, at, blocks[i]);
  }

  /** The octets of the header, in order. */
  ghost predicate HeaderAt(s: seq<byte>, f: Frame) {
    && |s| >= 28
    && s[0..4] == ['A' as int, '6' as int, '7' as int, 'S' as int] && s[4..6] == [0, 1] && s[6..8] == [0, 0]
    && s[8..10] == [f.linkId / 256, f.linkId % 256] && s[10..12] == [|f.blocks| % 256, 0]
    && (forall k :: 0 <= k < 8 ==> s[19 - k] == f.sequence / Pow256(k) % 256)
    && (forall k :: 0 <= k < 8 ==> s[27 - k] == f.samplePosition / Pow256(k) % 256)
  }

  lemma FixedOctets()
    ensures BigEndian(MAGIC, 4) == ['A' as int, '6' as int, '7' as int, 'S' as int]
    ensures BigEndian(VERSION, 2) == [0, 1] && BigEndian(0, 2) == [0, 0]
  {
    NetworkOrder(MAGIC);
    hide BigEndian;
    assert MAGIC / 0x100_0000 % 256 == 0x41;
    assert MAGIC / 0x1_0000 % 256 == 0x36;
    assert MAGIC / 0x100 % 256 == 0x37;
    assert MAGIC % 256 == 0x53;
    TwoOctets(VERSION);
    TwoOctets(0);
  }

  lemma TwoOctets(v: u16)
    ensures BigEndian(v, 2) == [v / 256, v % 256]
  {
    BigEndianAt(v, 2, 0);
    BigEndianAt(v, 2, 1);
    WidthsAsPowers();
    ThreeOctets();
    hide BigEndian, Pow256;
    assert v / 256 < 256;
  }

  lemma Counter(s: seq<byte>, at: nat, v: u64, k: nat)
    requires at + 8 <= |s| && s[at..at + 8] == BigEndian(v, 8) && k < 8
    ensures s[at + 7 - k] == v / Pow256(k) % 256
  {
    BigEndianAt(v, 8, k);
    hide BigEndian, Pow256;
    assert s[at + 7 - k] == s[at..at + 8][7 - k];
  }

  lemma Counters(s: seq<byte>, f: Frame)
    requires |s| >= 28 && s[12..20] == BigEndian(f.sequence, 8) && s[20..28] == BigEndian(f.samplePosition, 8)
    ensures forall k :: 0 <= k < 8 ==> s[19 - k] == f.sequence / Pow256(k) % 256
    ensures forall k :: 0 <= k < 8 ==> s[27 - k] == f.samplePosition / Pow256(k) % 256
  {
    hide BigEndian, Pow256;
    forall k | 0 <= k < 8
      ensures s[19 - k] == f.sequence / Pow256(k) % 256 && s[27 - k] == f.samplePosition / Pow256(k) % 256
    {
      Counter(s, 12, f.sequence, k);
      Counter(s, 20, f.samplePosition, k);
    }
  }

  lemma HeaderLies(f: Frame)
    ensures HeaderAt(Header(f), f)
  {
    hide Header, BigEndian, Pow256;
    var s := Header(f);
    HeaderSlices(f, s);
    FixedOctets();
    TwoOctets(f.linkId);
    Counters(s, f);
    assert s[10..12] == [s[10], s[11]];
  }

  lemma StartsAlike(h: seq<byte>, s: seq<byte>, f: Frame)
    requires HeaderAt(h, f) && |h| == 28 && h <= s
    ensures HeaderAt(s, f)
  {
    hide Pow256;
    assert s[0..4] == h[0..4] && s[4..6] == h[4..6] && s[6..8] == h[6..8] && s[8..10] == h[8..10];
    assert s[10..12] == h[10..12];
  }

  /**
   * A written frame: the header, each block where the ones before it end, and the check of all
   * that in the last four octets.
   */
  lemma WrittenFrameLies(f: Frame)
    ensures var s, n := Serialize(f), Start(f.blocks, |f.blocks|);
      && HeaderAt(s, f) && |s| == n + 4
      && (forall i :: 0 <= i < |f.blocks| ==> BlockAt(s, Start(f.blocks, i), f.blocks[i]))
      && s[n..] == BigEndian(Crc32.Crc(s[..n]), 4)
  {
    hide Crc32.Crc, BlockAt, BlocksBytes;
    HeaderLies(f);
    BlocksStart(f.blocks, |f.blocks|);
    assert f.blocks[..|f.blocks|] == f.blocks;
    forall i | 0 <= i < |f.blocks|
      ensures BlockAt(Serialize(f), Start(f.blocks, i), f.blocks[i])
    {
      BlocksLie(f, i);
    }
    var s, n := Serialize(f), Start(f.blocks, |f.blocks|);
    assert s[..n] == Body(f) && s[n..] == BigEndian(Crc32.Crc(Body(f)), 4);
    hide Header;
    StartsAlike(Header(f), s, f);
  }

  // ---------------------------------------------------------------------------
  // What a refusal says.

  /** Bytes of a block that are not whole PCM frames of its channels, or none of them. */
  ghost predicate Ragged(code: int, channels: int, bytes: int) {
    var width := if code == 0 then 3 else if code == 1 then 2 else 0;
    channels * width > 0 && (bytes == 0 || bytes % (channels * width) != 0)
  }

  /** The defect an encoder's refusal names is there. */
  ghost predicate Wrong(f: Frame, e: WireError) {
    match e
    case NoBlocks => f.blocks == []
    case TooManyBlocks => |f.blocks| > 8
    case BadIndex => exists b :: b in f.blocks && b.index >= 8
    case DuplicateIndex => exists i, j :: 0 <= i < j < |f.blocks| && f.blocks[i].index == f.blocks[j].index
    case UnsupportedPayload => exists b :: b in f.blocks && b.payload.AacLc?
    case BadChannels => exists b :: b in f.blocks && b.channels != 8
    case PartialFrames => exists b :: b in f.blocks && Ragged(PayloadCode(b.payload), b.channels, |b.data|)
    case EmptyBlock => exists b :: b in f.blocks && b.data == []
    case TooLarge => exists b :: b in f.blocks && |b.data| > 0xFFFF_FFFF
    case _ => false
  }

  lemma {:induction false} BlocksRefusedFor(f: Frame, n: nat, seen: set<byte>)
    requires n <= |f.blocks|
    requires forall x :: x in seen ==> exists i :: 0 <= i < n && f.blocks[i].index == x
    ensures var r := BlocksRefusal(f.blocks[n..], seen); r.Some? ==> Wrong(f, r.value)
    decreases |f.blocks| - n
  {
    if n < |f.blocks| {
      var b := f.blocks[n];
      assert b in f.blocks && f.blocks[n..][0] == b && f.blocks[n..][1..] == f.blocks[n + 1..];
      if b.index in seen {
        var i :| 0 <= i < n && f.blocks[i].index == b.index;
      }
      BlocksRefusedFor(f, n + 1, seen + {b.index});
    }
  }

  /** A frame that is not written has the defect named. */
  lemma NotWrittenFor(f: Frame)
    ensures Refusal(f).Some? ==> Wrong(f, Refusal(f).value)
  {
    BlocksRefusedFor(f, 0, {});
    assert f.blocks[0..] == f.blocks;
  }

  /** Four octets in network order. */
  function Long(s: seq<byte>, at: nat): nat
    requires at + 4 <= |s|
  {
    var a: int, b: int, c: int, d: int := s[at], s[at + 1], s[at + 2], s[at + 3];
    a * 0x100_0000 + b * 0x1_0000 + c * 0x100 + d
  }

  lemma LongReads(s: seq<byte>, at: nat)
    requires at + 4 <= |s|
    ensures ReadAt(s, at, 4) == Long(s, at)
  {
    var four := s[at..at + 4];
    assert four[..3] == s[at..at + 3] && four[..3][..2] == s[at..at + 2] && four[..3][..2][..1] == s[at..at + 1];
    assert FromBigEndian(four) == FromBigEndian(four[..3]) * 256 + four[3];
    assert FromBigEndian(four[..3]) == FromBigEndian(four[..3][..2]) * 256 + four[..3][2];
    assert FromBigEndian(four[..3][..2]) == FromBigEndian(four[..3][..2][..1]) * 256 + four[..3][..2][1];
    assert four[..3][..2][..1][..0] == [];
  }

  /** Where block `k` starts, by the lengths the octets state, as far as they reach. */
  function Walked(s: seq<byte>, k: nat): (at: nat)
    ensures at >= 28 + 8 * k
  {
    if k == 0 then 28
    else
      var at := Walked(s, k - 1);
      at + 8 + if at + 8 <= |s| then Long(s, at + 4) else 0
  }

  /** Some block before block `k` has that index. */
  ghost predicate Earlier(s: seq<byte>, end: nat, k: nat, index: byte)
    requires end <= |s|
  {
    exists j: nat :: j < k && Walked(s, j) < end && s[Walked(s, j)] == index
  }

  /** A defect of one block. */
  predicate OfABlock(e: WireError) {
    e in {EndsInsideHeader, UnknownPayload, UnsupportedPayload, ReservedByte, BadIndex, DuplicateIndex, BadChannels,
          PartialFrames, EmptyBlock, PastEnd}
  }

  /** What is wrong with block `k` of some octets whose check starts at `end`, or behind the last. */
  ghost predicate BlockWrong(s: seq<byte>, end: nat, k: nat, e: WireError)
    requires end <= |s|
  {
    var at := Walked(s, k);
    if at + 8 > end then e.EndsInsideHeader?
    else
      match e
      case UnknownPayload => s[at + 1] > 3
      case UnsupportedPayload => s[at + 1] == 3
      case ReservedByte => s[at + 3] != 0
      case BadIndex => s[at] >= 8
      case DuplicateIndex => Earlier(s, end, k, s[at])
      case BadChannels => s[at + 2] != 8
      case PartialFrames => Ragged(s[at + 1], s[at + 2], Long(s, at + 4))
      case EmptyBlock => Long(s, at + 4) == 0
      case PastEnd => at + 8 + Long(s, at + 4) > end
      case _ => false
  }

  lemma BlockRefusedFor(s: seq<byte>, end: nat, k: nat, seen: set<byte>)
    requires end <= |s| && forall x :: x in seen ==> Earlier(s, end, k, x)
    ensures var r := ParseBlock(s, Walked(s, k), end, seen);
      r.Failure? ==> BlockWrong(s, end, k, r.error) && OfABlock(r.error)
  {
    var at := Walked(s, k);
    if at + 8 <= end {
      LongReads(s, at + 4);
      hide Long, Earlier, ReadAt;
    }
  }

  lemma EarlierGrows(s: seq<byte>, end: nat, k: nat, x: byte)
    requires end <= |s|
    ensures Earlier(s, end, k, x) ==> Earlier(s, end, k + 1, x)
    ensures Walked(s, k) < end && s[Walked(s, k)] == x ==> Earlier(s, end, k + 1, x)
  {
    hide Walked;
    if Earlier(s, end, k, x) {
      var j: nat :| j < k && Walked(s, j) < end && s[Walked(s, j)] == x;
    }
  }

  lemma BlockRead(s: seq<byte>, end: nat, k: nat, seen: set<byte>)
    requires end <= |s| && ParseBlock(s, Walked(s, k), end, seen).Success?
    ensures var b := ParseBlock(s, Walked(s, k), end, seen).value;
      && Walked(s, k) + 8 + |b.data| == Walked(s, k + 1)
      && Walked(s, k) < end && s[Walked(s, k)] == b.index
  {
    LongReads(s, Walked(s, k) + 4);
    assert Walked(s, k + 1) == Walked(s, k) + 8 + Long(s, Walked(s, k) + 4);
    hide Long, ReadAt, Walked;
  }

  lemma BlockPassed(s: seq<byte>, end: nat, k: nat, seen: set<byte>)
    requires end <= |s| && forall x :: x in seen ==> Earlier(s, end, k, x)
    requires ParseBlock(s, Walked(s, k), end, seen).Success?
    ensures var b := ParseBlock(s, Walked(s, k), end, seen).value;
      && Walked(s, k) + 8 + |b.data| == Walked(s, k + 1)
      && forall x :: x in seen + {b.index} ==> Earlier(s, end, k + 1, x)
  {
    hide *;
    BlockRead(s, end, k, seen);
    forall x | x in seen + {ParseBlock(s, Walked(s, k), end, seen).value.index}
      ensures Earlier(s, end, k + 1, x)
    {
      EarlierGrows(s, end, k, x);
    }
  }

  lemma {:induction false} BlocksParsedFor(s: seq<byte>, end: nat, count: nat, k: nat, seen: set<byte>)
    requires end <= |s| && k <= count && forall x :: x in seen ==> Earlier(s, end, k, x)
    ensures var r := ParseBlocks(s, Walked(s, k), end, count - k, seen);
      r.Failure? ==>
        if r.error.TrailingBytes? then Walked(s, count) != end
        else OfABlock(r.error) && exists n: nat :: n < count && BlockWrong(s, end, n, r.error)
    decreases count - k
  {
    hide ParseBlock, Walked, BlockWrong, Earlier, OfABlock;
    if k < count {
      BlockRefusedFor(s, end, k, seen);
      var r := ParseBlock(s, Walked(s, k), end, seen);
      assert r.Failure? ==> !r.error.TrailingBytes? by { TrailingIsNotOfABlock(); }
      if r.Success? {
        BlockPassed(s, end, k, seen);
        BlocksParsedFor(s, end, count, k + 1, seen + {r.value.index});
      }
    }
  }

  lemma TrailingIsNotOfABlock()
    ensures !OfABlock(TrailingBytes)
  {
  }

  /** The defect a decoder's refusal names is there. */
  ghost predicate Defective(s: seq<byte>, e: WireError) {
    if |s| < 32 then e.TooShort?
    else
      var end := |s| - 4;
      match e
      case BadMagic => s[..4] != ['A' as int, '6' as int, '7' as int, 'S' as int]
      case BadVersion => s[4..6] != [0, 1]
      case ReservedFlags => s[6..8] != [0, 0]
      case Corrupted => s[end..] != BigEndian(Crc32.Crc(s[..end]), 4)
      case BadBlockCount => s[10] == 0 || s[10] > 8
      case ReservedByte => s[11] != 0 || exists n: nat :: n < s[10] && BlockWrong(s, end, n, e)
      case TrailingBytes => Walked(s, s[10]) != end
      case _ => exists n: nat :: n < s[10] && BlockWrong(s, end, n, e)
  }

  lemma ReadsAs(s: seq<byte>, at: nat, n: nat, v: nat)
    requires at + n <= |s| && v < Pow256(n)
    ensures ReadAt(s, at, n) == v <==> s[at..at + n] == BigEndian(v, n)
  {
    ReadBackBigEndian(v, n);
    WriteBackBigEndian(s[at..at + n]);
  }

  /** What the start of some octets must be to be a frame's. */
  lemma StartReads(s: seq<byte>)
    ensures |s| >= 4 ==> (ReadAt(s, 0, 4) == MAGIC <==> s[..4] == ['A' as int, '6' as int, '7' as int, 'S' as int])
    ensures |s| >= 6 ==> (ReadAt(s, 4, 2) == VERSION <==> s[4..6] == [0, 1])
    ensures |s| >= 8 ==> (ReadAt(s, 6, 2) == 0 <==> s[6..8] == [0, 0])
  {
    WidthsAsPowers();
    FixedOctets();
    hide BigEndian, FromBigEndian, Pow256, ReadAt;
    if |s| >= 4 {
      ReadsAs(s, 0, 4, MAGIC);
      assert s[..4] == s[0..4];
    }
    if |s| >= 6 {
      ReadsAs(s, 4, 2, VERSION);
    }
    if |s| >= 8 {
      ReadsAs(s, 6, 2, 0);
    }
  }

  lemma CheckIs(s: seq<byte>)
    requires |s| >= 4
    ensures var end := |s| - 4;
      ReadAt(s, end, 4) == Crc32.Crc(s[..end]) <==> s[end..] == BigEndian(Crc32.Crc(s[..end]), 4)
  {
    hide Crc32.Crc, BigEndian, FromBigEndian;
    var end := |s| - 4;
    WidthsAsPowers();
    ReadsAs(s, end, 4, Crc32.Crc(s[..end]));
    assert s[end..] == s[end..end + 4];
  }

  /** Octets that are not read have the defect named. */
  lemma NotReadFor(s: seq<byte>)
    ensures Parse(s).Failure? ==> Defective(s, Parse(s).error)
  {
    hide Crc32.Crc, BigEndian, ReadAt, BlockWrong, ParseBlocks, Walked;
    StartReads(s);
    if |s| >= 32 {
      CheckIs(s);
      assert Walked(s, 0) == 28 by { WalkStarts(s); }
      BlocksParsedFor(s, |s| - 4, s[10], 0, {});
    }
  }

  lemma WalkStarts(s: seq<byte>)
    ensures Walked(s, 0) == 28
  {
  }

  // ---------------------------------------------------------------------------
  // What the length of a prefix is known to be.

  lemma {:induction false} WalkedGrows(s: seq<byte>, j: nat, k: nat)
    requires j <= k
    ensures Walked(s, j) + 8 * (k - j) <= Walked(s, k)
    decreases k
  {
    if j < k {
      WalkedGrows(s, j, k - 1);
      hide Long;
    }
  }

  /** The header of block `k`, one of `n`, is in, and the frame reaches past the ceiling by then. */
  ghost predicate PastCeiling(s: seq<byte>, n: nat, k: nat) {
    && k < n && Walked(s, k) + 8 <= |s|
    && (Walked(s, k + 1) > 262144 || (k + 1 == n && Walked(s, n) + 4 > 262144))
  }

  /** Some block from `k` on does. */
  ghost predicate Passes(s: seq<byte>, n: nat, k: nat) {
    exists j: nat :: k <= j && PastCeiling(s, n, j)
  }

  lemma PassesHereOrLater(s: seq<byte>, n: nat, k: nat)
    ensures Passes(s, n, k) <==> PastCeiling(s, n, k) || Passes(s, n, k + 1)
    ensures k >= n ==> !Passes(s, n, k)
    ensures Walked(s, k) + 8 > |s| ==> !Passes(s, n, k)
  {
    if Passes(s, n, k) {
      var j: nat :| k <= j && PastCeiling(s, n, j);
      WalkedGrows(s, k, j);
      hide Walked;
      assert j == k || k + 1 <= j;
    }
  }

  /** A turn of the walk, by the lengths the octets state. */
  lemma WalkTurns(s: seq<byte>, n: nat, k: nat)
    requires k < n
    ensures Walk(s, Walked(s, k), n - k) ==
      if |s| < Walked(s, k) + 8 then Incomplete
      else if Walked(s, k + 1) > 262144 then Invalid(TooLong)
      else Walk(s, Walked(s, k + 1), n - (k + 1))
  {
    if Walked(s, k) + 8 <= |s| {
      LongReads(s, Walked(s, k) + 4);
      assert Walked(s, k + 1) == Walked(s, k) + 8 + ReadAt(s, Walked(s, k) + 4, 4);
      hide Long, ReadAt, Walked;
    }
  }

  lemma WalkEnds(s: seq<byte>, n: nat)
    ensures Walk(s, Walked(s, n), 0) ==
      if Walked(s, n) + 4 > 262144 then Invalid(TooLong) else Known(Walked(s, n) + 4)
  {
    hide Walked;
  }

  lemma {:induction false} WalkIs(s: seq<byte>, n: nat, k: nat)
    requires k < n
    ensures var r := Walk(s, Walked(s, k), n - k);
      && (r.Known? <==> Walked(s, n - 1) + 8 <= |s| && Walked(s, n) + 4 <= 262144)
      && (r.Known? ==> r.total == Walked(s, n) + 4)
      && (r.Invalid? ==> r.error.TooLong?)
      && (r.Invalid? <==> Passes(s, n, k))
    decreases n - k
  {
    hide Walk, Walked, Passes;
    WalkTurns(s, n, k);
    PassesHereOrLater(s, n, k);
    WalkedGrows(s, k, n - 1);
    WalkedGrows(s, k + 1, n);
    if k + 1 == n {
      WalkEnds(s, n);
      PassesHereOrLater(s, n, n);
    } else if Walked(s, k) + 8 <= |s| && Walked(s, k + 1) <= 262144 {
      WalkIs(s, n, k + 1);
    }
  }

  /** Enough of some octets to count blocks, and they start as a frame of this version does. */
  ghost predicate Starts(s: seq<byte>) {
    |s| >= 28 && s[..4] == ['A' as int, '6' as int, '7' as int, 'S' as int] && s[4..6] == [0, 1]
  }

  /**
   * What a prefix of any length tells: not ours once four octets are wrong; another version, or
   * no possible number of blocks, once the header is in; the total once the last block header is
   * in and within the ceiling of 256 kilobytes; too long once a block header reaches past it.
   */
  lemma MeasuredExactly(s: seq<byte>)
    ensures Measure(s) == Invalid(NotOurs)
       <==> |s| >= 4 && s[..4] != ['A' as int, '6' as int, '7' as int, 'S' as int]
    ensures Measure(s) == Invalid(OtherVersion) <==>
      |s| >= 28 && s[..4] == ['A' as int, '6' as int, '7' as int, 'S' as int] && s[4..6] != [0, 1]
    ensures Measure(s) == Invalid(BlockCountOutOfRange) <==> Starts(s) && !(1 <= s[10] <= 8)
    ensures Measure(s).Known? <==>
      && Starts(s) && 1 <= s[10] <= 8
      && Walked(s, s[10] - 1) + 8 <= |s| && Walked(s, s[10]) + 4 <= 262144
    ensures Measure(s).Known? ==> Measure(s).total == Walked(s, s[10]) + 4
    ensures Measure(s) == Invalid(TooLong) <==>
      Starts(s) && 1 <= s[10] <= 8 && Passes(s, s[10], 0)
  {
    hide ReadAt, Walk, Walked, Passes;
    StartReads(s);
    if |s| >= 28 && 1 <= s[10] <= 8 {
      WalkStarts(s);
      WalkIs(s, s[10], 0);
    }
  }
}
