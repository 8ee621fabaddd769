/**
 * The on-wire frame: its layout, the encoder that refuses what the layout cannot
 * carry, and the decoder that refuses everything the encoder would not have written.
 */
module WireFrame {
  import opened Bytes
  import Crc32

  const MAGIC: u32 := 0x41363753
  const VERSION: u16 := 1
  const MAX_BLOCKS := 8
  const BLOCK_CHANNELS := 8
  const FRAME_HEADER_BYTES := 28
  const BLOCK_HEADER_BYTES := 8
  const CHECKSUM_BYTES := 4

  datatype PayloadType = PcmL24 | PcmL16 | OpusPacket | AacLc

  datatype Block = Block(index: byte, payload: PayloadType, channels: byte, data: seq<byte>)

  datatype Frame = Frame(linkId: u16, sequence: u64, samplePosition: u64, blocks: seq<Block>)

  /** Why a frame was not written or not read. */
  datatype WireError =
    | NoBlocks | TooManyBlocks | BadIndex | DuplicateIndex | UnsupportedPayload
    | BadChannels | PartialFrames | EmptyBlock | TooLarge
    | TooShort | BadMagic | BadVersion | ReservedFlags | Corrupted | BadBlockCount
    | ReservedByte | EndsInsideHeader | UnknownPayload | PastEnd | TrailingBytes

  function PayloadCode(p: PayloadType): byte {
    match p
    case PcmL24 => 0
    case PcmL16 => 1
    case OpusPacket => 2
    case AacLc => 3
  }

  function ParsePayloadType(raw: byte): (p: Option<PayloadType>)
    ensures p.Some? <==> raw <= 3
    ensures p.Some? ==> PayloadCode(p.value) == raw
  {
    if raw == 0 then Some(PcmL24)
    else if raw == 1 then Some(PcmL16)
    else if raw == 2 then Some(OpusPacket)
    else if raw == 3 then Some(AacLc)
    else None
  }

  predicate SupportedHere(p: PayloadType) {
    p == PcmL24 || p == PcmL16 || p == OpusPacket
  }

  /** Octets per sample of a PCM payload, zero for anything else. */
  function SampleBytes(p: PayloadType): nat {
    match p
    case PcmL24 => 3
    case PcmL16 => 2
    case _ => 0
  }

  predicate WholeFrames(p: PayloadType, channels: nat, bytes: nat) {
    var stride := channels * SampleBytes(p);
    stride == 0 || (bytes > 0 && bytes % stride == 0)
  }

  // ---------------------------------------------------------------------------
  // The layout.

  function Header(f: Frame): (s: seq<byte>)
    ensures |s| == FRAME_HEADER_BYTES
  {
    BigEndian(MAGIC, 4) + BigEndian(VERSION, 2) + BigEndian(0, 2) + BigEndian(f.linkId, 2)
    + [|f.blocks| % 256, 0] + BigEndian(f.sequence, 8) + BigEndian(f.samplePosition, 8)
  }

  function BlockHeader(b: Block): (s: seq<byte>)
    ensures |s| == BLOCK_HEADER_BYTES
  {
    [b.index, PayloadCode(b.payload), b.channels, 0] + BigEndian(|b.data|, 4)
  }

  function BlockBytes(b: Block): seq<byte> {
    BlockHeader(b) + b.data
  }

  function BlocksBytes(blocks: seq<Block>): seq<byte> {
    if blocks == [] then [] else BlockBytes(blocks[0]) + BlocksBytes(blocks[1..])
  }

  function Body(f: Frame): seq<byte> {
    Header(f) + BlocksBytes(f.blocks)
  }

  /** The frame on the wire: its body, and the check of its body. */
  function Serialize(f: Frame): seq<byte> {
    Body(f) + BigEndian(Crc32.Crc(Body(f)), 4)
  }

  function BlocksSize(blocks: seq<Block>): (n: nat)
    ensures n == |BlocksBytes(blocks)|
  {
    if blocks == [] then 0
    else BLOCK_HEADER_BYTES + |blocks[0].data| + BlocksSize(blocks[1..])
  }

  function EncodedSize(f: Frame): (n: nat)
    ensures n == |Serialize(f)|
  {
    FRAME_HEADER_BYTES + CHECKSUM_BYTES + BlocksSize(f.blocks)
  }

  /** What the layout can carry, stated without an order of checking. */
  ghost predicate BlockEncodable(b: Block) {
    && b.index < MAX_BLOCKS
    && SupportedHere(b.payload)
    && b.channels == BLOCK_CHANNELS
    && 0 < |b.data| <= 0xFFFF_FFFF
    && WholeFrames(b.payload, b.channels, |b.data|)
  }

  ghost predicate BlocksEncodable(blocks: seq<Block>) {
    && (forall i :: 0 <= i < |blocks| ==> BlockEncodable(blocks[i]))
    && (forall i, j :: 0 <= i < j < |blocks| ==> blocks[i].index != blocks[j].index)
  }

  ghost predicate Encodable(f: Frame) {
    1 <= |f.blocks| <= MAX_BLOCKS && BlocksEncodable(f.blocks)
  }

  // ---------------------------------------------------------------------------
  // Writing.

  /** The first reason not to write a block, in the order the encoder looks. */
  function BlockRefusal(b: Block, seen: set<byte>): Option<WireError> {
    if b.index >= MAX_BLOCKS then Some(BadIndex)
    else if b.index in seen then Some(DuplicateIndex)
    else if !SupportedHere(b.payload) then Some(UnsupportedPayload)
    else if b.channels != BLOCK_CHANNELS then Some(BadChannels)
    else if !WholeFrames(b.payload, b.channels, |b.data|) then Some(PartialFrames)
    else if b.data == [] then Some(EmptyBlock)
    else if |b.data| > 0xFFFF_FFFF then Some(TooLarge)
    else None
  }

  function BlocksRefusal(blocks: seq<Block>, seen: set<byte>): Option<WireError> {
    if blocks == [] then None
    else
      var refusal := BlockRefusal(blocks[0], seen);
      if refusal.Some? then refusal else BlocksRefusal(blocks[1..], seen + {blocks[0].index})
  }

  function Refusal(f: Frame): Option<WireError> {
    if f.blocks == [] then Some(NoBlocks)
    else if |f.blocks| > MAX_BLOCKS then Some(TooManyBlocks)
    else BlocksRefusal(f.blocks, {})
  }

  lemma {:induction false} RefusedBlocks(blocks: seq<Block>, seen: set<byte>)
    ensures BlocksRefusal(blocks, seen).None? <==>
      BlocksEncodable(blocks) && forall i :: 0 <= i < |blocks| ==> blocks[i].index !in seen
  {
    if blocks != [] {
      var rest := blocks[1..];
      RefusedBlocks(rest, seen + {blocks[0].index});
      assert blocks == [blocks[0]] + rest;
      if BlocksRefusal(blocks, seen).None? {
        forall i, j | 0 <= i < j < |blocks|
          ensures blocks[i].index != blocks[j].index
        {
          assert blocks[j] == rest[j - 1];
        }
      }
      if BlocksEncodable(blocks) {
        assert BlockEncodable(blocks[0]) && BlocksEncodable(rest);
      }
    }
  }

  /** The encoder refuses exactly what the layout cannot carry. */
  lemma RefusedExactly(f: Frame)
    ensures Refusal(f).None? <==> Encodable(f)
  {
    RefusedBlocks(f.blocks, {});
  }

  method WriteBigEndian(out: array<byte>, at: nat, value: nat, n: nat)
    requires at + n <= out.Length
    modifies out
    ensures out[..] == old(out[..at]) + BigEndian(value, n) + old(out[at + n..])
  {
    var rest := value;
    for k := 0 to n
      invariant BigEndian(value, n) == BigEndian(rest, n - k) + out[at + n - k..at + n]
      invariant out[..at] == old(out[..at]) && out[at + n..] == old(out[at + n..])
    {
      ghost var before := out[at + n - k..at + n];
      out[at + n - k - 1] := rest % 256;
      assert out[at + n - k - 1..at + n] == [rest % 256] + before;
      rest := rest / 256;
    }
    assert out[..] == out[..at] + out[at..at + n] + out[at + n..];
  }

  method CheckBlocks(f: Frame) returns (refusal: Option<WireError>)
    requires |f.blocks| <= MAX_BLOCKS
    ensures refusal == BlocksRefusal(f.blocks, {})
  {
    var indexSeen := new int[MAX_BLOCKS](i => 0);
    ghost var seen: set<byte> := {};
    for at := 0 to |f.blocks|
      invariant BlocksRefusal(f.blocks, {}) == BlocksRefusal(f.blocks[at..], seen)
      invariant forall i :: 0 <= i < MAX_BLOCKS ==> (indexSeen[i] != 0 <==> i in seen)
      invariant forall i :: 0 <= i < MAX_BLOCKS ==> indexSeen[i] >= 0
    {
      var block := f.blocks[at];
      assert f.blocks[at..][1..] == f.blocks[at + 1..];
      if block.index >= MAX_BLOCKS {
        return Some(BadIndex);
      }
      var before := indexSeen[block.index];
      indexSeen[block.index] := before + 1;
      if before != 0 {
        return Some(DuplicateIndex);
      }
      if !SupportedHere(block.payload) {
        return Some(UnsupportedPayload);
      }
      if block.channels != BLOCK_CHANNELS {
        return Some(BadChannels);
      }
      if !WholeFrames(block.payload, block.channels, |block.data|) {
        return Some(PartialFrames);
      }
      if block.data == [] {
        return Some(EmptyBlock);
      }
      if |block.data| > 0xFFFF_FFFF {
        return Some(TooLarge);
      }
      seen := seen + {block.index};
    }
    refusal := None;
  }

  lemma {:induction false} BlocksBytesAppend(s: seq<Block>, t: seq<Block>)
    ensures BlocksBytes(s + t) == BlocksBytes(s) + BlocksBytes(t)
  {
    if s == [] {
      assert s + t == t;
    } else {
      assert (s + t)[1..] == s[1..] + t;
      BlocksBytesAppend(s[1..], t);
    }
  }

  lemma BlocksBytesSnoc(blocks: seq<Block>, n: nat)
    requires n < |blocks|
    ensures BlocksBytes(blocks[..n + 1]) == BlocksBytes(blocks[..n]) + BlockBytes(blocks[n])
  {
    assert blocks[..n + 1] == blocks[..n] + [blocks[n]];
    BlocksBytesAppend(blocks[..n], [blocks[n]]);
    assert BlocksBytes([blocks[n]]) == BlockBytes(blocks[n]) + BlocksBytes([]);
  }

  lemma BlocksBytesOfNone(blocks: seq<Block>)
    ensures blocks[0..] == blocks && BlocksBytes(blocks[..0]) == []
  {
  }

  lemma BlocksSizeStep(blocks: seq<Block>, n: nat)
    requires n <= |blocks|
    ensures BlocksSize(blocks[n..]) ==
      if n == |blocks| then 0 else BLOCK_HEADER_BYTES + |blocks[n].data| + BlocksSize(blocks[n + 1..])
  {
    if n < |blocks| {
      assert blocks[n..][1..] == blocks[n + 1..];
    }
  }

  method WriteHeader(f: Frame, buffer: array<byte>)
    requires buffer.Length >= FRAME_HEADER_BYTES
    modifies buffer
    ensures buffer[..FRAME_HEADER_BYTES] == Header(f)
  {
    WriteBigEndian(buffer, 0, MAGIC, 4);
    WriteBigEndian(buffer, 4, VERSION, 2);
    WriteBigEndian(buffer, 6, 0, 2);
    WriteBigEndian(buffer, 8, f.linkId, 2);
    assert buffer[..10] ==
      BigEndian(MAGIC, 4) + BigEndian(VERSION, 2) + BigEndian(0, 2) + BigEndian(f.linkId, 2);
    buffer[10] := |f.blocks| % 256;
    buffer[11] := 0;
    ghost var front := buffer[..12];
    assert front == BigEndian(MAGIC, 4) + BigEndian(VERSION, 2) + BigEndian(0, 2)
      + BigEndian(f.linkId, 2) + [|f.blocks| % 256, 0];
    WriteBigEndian(buffer, 12, f.sequence, 8);
    WriteBigEndian(buffer, 20, f.samplePosition, 8);
    assert buffer[..28] == front + BigEndian(f.sequence, 8) + BigEndian(f.samplePosition, 8);
  }

  method WriteBlockHeader(b: Block, buffer: array<byte>, at: nat)
    requires at + BLOCK_HEADER_BYTES <= buffer.Length
    modifies buffer
    ensures buffer[..at + BLOCK_HEADER_BYTES] == old(buffer[..at]) + BlockHeader(b)
  {
    buffer[at] := b.index;
    buffer[at + 1] := PayloadCode(b.payload);
    buffer[at + 2] := b.channels;
    buffer[at + 3] := 0;
    assert buffer[at..at + 4] == [b.index, PayloadCode(b.payload), b.channels, 0];
    ghost var front := buffer[..at + 4];
    WriteBigEndian(buffer, at + 4, |b.data|, 4);
    assert buffer[..at + 8] == front + BigEndian(|b.data|, 4);
  }

  method WriteBlock(b: Block, buffer: array<byte>, at: nat)
    requires at + BLOCK_HEADER_BYTES + |b.data| <= buffer.Length
    modifies buffer
    ensures buffer[..at + BLOCK_HEADER_BYTES + |b.data|] == old(buffer[..at]) + BlockBytes(b)
  {
    hide BlockHeader;
    WriteBlockHeader(b, buffer, at);
    ghost var front := buffer[..at + BLOCK_HEADER_BYTES];
    forall i | 0 <= i < |b.data| {
      buffer[at + BLOCK_HEADER_BYTES + i] := b.data[i];
    }
    assert buffer[..at + BLOCK_HEADER_BYTES] == front;
    assert buffer[..at + BLOCK_HEADER_BYTES + |b.data|] == front + b.data;
  }

  method WriteBlocks(blocks: seq<Block>, buffer: array<byte>, start: nat) returns (cursor: nat)
    requires start + BlocksSize(blocks) <= buffer.Length
    modifies buffer
    ensures cursor == start + BlocksSize(blocks)
    ensures buffer[..cursor] == old(buffer[..start]) + BlocksBytes(blocks)
  {
    hide BlockBytes, BlocksBytes, BlocksSize;
    cursor := start;
    ghost var head := buffer[..start];
    BlocksBytesOfNone(blocks);
    for at := 0 to |blocks|
      invariant start <= cursor && cursor + BlocksSize(blocks[at..]) == start + BlocksSize(blocks) <= buffer.Length
      invariant buffer[..cursor] == head + BlocksBytes(blocks[..at])
    {
      ghost var written := BlocksBytes(blocks[..at]);
      BlocksSizeStep(blocks, at);
      BlocksBytesSnoc(blocks, at);
      WriteBlock(blocks[at], buffer, cursor);
      cursor := cursor + BLOCK_HEADER_BYTES + |blocks[at].data|;
      assert buffer[..cursor] == head + (written + BlockBytes(blocks[at]));
    }
    assert blocks[..|blocks|] == blocks;
    BlocksSizeStep(blocks, |blocks|);
  }

  /** Write a whole frame, or nothing and the reason. */
  method Encode(f: Frame) returns (r: Result<seq<byte>, WireError>)
    ensures r == match Refusal(f) { case Some(why) => Failure(why) case None => Success(Serialize(f)) }
  {
    if f.blocks == [] {
      return Failure(NoBlocks);
    }
    if |f.blocks| > MAX_BLOCKS {
      return Failure(TooManyBlocks);
    }
    var refusal := CheckBlocks(f);
    if refusal.Some? {
      return Failure(refusal.value);
    }
    hide Crc32.Crc;
    var buffer := new byte[EncodedSize(f)](i => 0);
    WriteHeader(f, buffer);
    var cursor := WriteBlocks(f.blocks, buffer, FRAME_HEADER_BYTES);
    var check := Crc32.Checksum(buffer[..cursor]);
    WriteBigEndian(buffer, cursor, check, 4);
    assert buffer[..] == Body(f) + BigEndian(check, 4);
    return Success(buffer[..]);
  }

  // ---------------------------------------------------------------------------
  // Reading.

  function ReadAt(data: seq<byte>, at: nat, n: nat): nat
    requires at + n <= |data|
  {
    FromBigEndian(data[at..at + n])
  }

  /** The block at `offset`, in the order the decoder looks; `end` is where the check starts. */
  function ParseBlock(data: seq<byte>, offset: nat, end: nat, seen: set<byte>): (r: Result<Block, WireError>)
    requires end <= |data|
    ensures r.Success? ==> offset + BLOCK_HEADER_BYTES + |r.value.data| <= end
  {
    if offset + BLOCK_HEADER_BYTES > end then Failure(EndsInsideHeader) else
    var payload := ParsePayloadType(data[offset + 1]);
    if payload.None? then Failure(UnknownPayload) else
    if !SupportedHere(payload.value) then Failure(UnsupportedPayload) else
    if data[offset + 3] != 0 then Failure(ReservedByte) else
    var bytes := ReadAt(data, offset + 4, 4);
    var start := offset + BLOCK_HEADER_BYTES;
    if data[offset] >= MAX_BLOCKS then Failure(BadIndex) else
    if data[offset] in seen then Failure(DuplicateIndex) else
    if data[offset + 2] != BLOCK_CHANNELS then Failure(BadChannels) else
    if !WholeFrames(payload.value, data[offset + 2], bytes) then Failure(PartialFrames) else
    if bytes == 0 then Failure(EmptyBlock) else
    if start + bytes > end then Failure(PastEnd) else
    Success(Block(data[offset], payload.value, data[offset + 2], data[start..start + bytes]))
  }

  function Prepend(blocks: seq<Block>, r: Result<seq<Block>, WireError>): Result<seq<Block>, WireError> {
    match r
    case Failure(why) => Failure(why)
    case Success(rest) => Success(blocks + rest)
  }

  function ParseBlocks(data: seq<byte>, offset: nat, end: nat, count: nat, seen: set<byte>)
    : Result<seq<Block>, WireError>
    requires end <= |data|
    decreases count
  {
    if count == 0 then
      if offset == end then Success([]) else Failure(TrailingBytes)
    else
      match ParseBlock(data, offset, end, seen)
      case Failure(why) => Failure(why)
      case Success(block) =>
        var next := offset + BLOCK_HEADER_BYTES + |block.data|;
        Prepend([block], ParseBlocks(data, next, end, count - 1, seen + {block.index}))
  }

  /** What every checked byte string means: a frame, or the first thing wrong with it. */
  function Parse(data: seq<byte>): Result<Frame, WireError> {
    if |data| < FRAME_HEADER_BYTES + CHECKSUM_BYTES then Failure(TooShort) else
    if ReadAt(data, 0, 4) != MAGIC then Failure(BadMagic) else
    if ReadAt(data, 4, 2) != VERSION then Failure(BadVersion) else
    if ReadAt(data, 6, 2) != 0 then Failure(ReservedFlags) else
    var end := |data| - CHECKSUM_BYTES;
    if ReadAt(data, end, 4) != Crc32.Crc(data[..end]) then Failure(Corrupted) else
    if data[10] == 0 || data[10] > MAX_BLOCKS then Failure(BadBlockCount) else
    if data[11] != 0 then Failure(ReservedByte) else
    match ParseBlocks(data, FRAME_HEADER_BYTES, end, data[10], {})
    case Failure(why) => Failure(why)
    case Success(blocks) =>
      WidthsAsPowers();
      Success(Frame(ReadAt(data, 8, 2), ReadAt(data, 12, 8), ReadAt(data, 20, 8), blocks))
  }

  /** Read one frame; the loop walks the block headers as they lie. */
  method Decode(data: seq<byte>) returns (r: Result<Frame, WireError>)
    ensures r == Parse(data)
  {
    hide Crc32.Crc;
    if |data| < FRAME_HEADER_BYTES + CHECKSUM_BYTES {
      return Failure(TooShort);
    }
    if ReadAt(data, 0, 4) != MAGIC {
      return Failure(BadMagic);
    }
    if ReadAt(data, 4, 2) != VERSION {
      return Failure(BadVersion);
    }
    if ReadAt(data, 6, 2) != 0 {
      return Failure(ReservedFlags);
    }
    var payloadEnd := |data| - CHECKSUM_BYTES;
    var computed := Crc32.Checksum(data[..payloadEnd]);
    if ReadAt(data, payloadEnd, 4) != computed {
      return Failure(Corrupted);
    }
    if data[10] == 0 || data[10] > MAX_BLOCKS {
      return Failure(BadBlockCount);
    }
    if data[11] != 0 {
      return Failure(ReservedByte);
    }
    var blocks := ReadBlocks(data, payloadEnd, data[10]);
    if blocks.Failure? {
      return Failure(blocks.error);
    }
    WidthsAsPowers();
    return Success(Frame(ReadAt(data, 8, 2), ReadAt(data, 12, 8), ReadAt(data, 20, 8), blocks.value));
  }

  ghost predicate Marks(indexSeen: seq<int>, seen: set<byte>) {
    && |indexSeen| == MAX_BLOCKS
    && forall i :: 0 <= i < MAX_BLOCKS ==> indexSeen[i] >= 0 && (indexSeen[i] != 0 <==> i in seen)
  }

  method ReadBlock(data: seq<byte>, offset: nat, payloadEnd: nat, indexSeen: array<int>, ghost seen: set<byte>)
    returns (r: Result<Block, WireError>)
    requires payloadEnd <= |data| && Marks(indexSeen[..], seen)
    modifies indexSeen
    ensures r == ParseBlock(data, offset, payloadEnd, seen)
    ensures r.Success? ==> Marks(indexSeen[..], seen + {r.value.index})
  {
    if offset + BLOCK_HEADER_BYTES > payloadEnd {
      return Failure(EndsInsideHeader);
    }
    var index := data[offset];
    var payload := ParsePayloadType(data[offset + 1]);
    if payload.None? {
      return Failure(UnknownPayload);
    }
    if !SupportedHere(payload.value) {
      return Failure(UnsupportedPayload);
    }
    var channels := data[offset + 2];
    if data[offset + 3] != 0 {
      return Failure(ReservedByte);
    }
    var bytes := ReadAt(data, offset + 4, 4);
    var start := offset + BLOCK_HEADER_BYTES;
    if index >= MAX_BLOCKS {
      return Failure(BadIndex);
    }
    var before := indexSeen[index];
    indexSeen[index] := before + 1;
    if before != 0 {
      return Failure(DuplicateIndex);
    }
    if channels != BLOCK_CHANNELS {
      return Failure(BadChannels);
    }
    if !WholeFrames(payload.value, channels, bytes) {
      return Failure(PartialFrames);
    }
    if bytes == 0 {
      return Failure(EmptyBlock);
    }
    if start + bytes > payloadEnd {
      return Failure(PastEnd);
    }
    return Success(Block(index, payload.value, channels, data[start..start + bytes]));
  }

  method ReadBlocks(data: seq<byte>, payloadEnd: nat, count: nat) returns (r: Result<seq<Block>, WireError>)
    requires payloadEnd <= |data|
    ensures r == ParseBlocks(data, FRAME_HEADER_BYTES, payloadEnd, count, {})
  {
    hide ParseBlock;
    var offset: nat := FRAME_HEADER_BYTES;
    var indexSeen := new int[MAX_BLOCKS](i => 0);
    var parsed: seq<Block> := [];
    ghost var seen: set<byte> := {};
    ghost var whole := ParseBlocks(data, FRAME_HEADER_BYTES, payloadEnd, count, {});
    assert whole.Success? ==> [] + whole.value == whole.value;
    for position := 0 to count
      invariant whole == Prepend(parsed, ParseBlocks(data, offset, payloadEnd, count - position, seen))
      invariant Marks(indexSeen[..], seen)
    {
      var here := ReadBlock(data, offset, payloadEnd, indexSeen, seen);
      if here.Failure? {
        return Failure(here.error);
      }
      var block := here.value;
      var next := offset + BLOCK_HEADER_BYTES + |block.data|;
      ghost var rest := ParseBlocks(data, next, payloadEnd, count - position - 1, seen + {block.index});
      assert rest.Success? ==> parsed + ([block] + rest.value) == (parsed + [block]) + rest.value;
      offset := next;
      parsed := parsed + [block];
      seen := seen + {block.index};
    }
    if offset != payloadEnd {
      return Failure(TrailingBytes);
    }
    assert parsed + [] == parsed;
    return Success(parsed);
  }

  // ---------------------------------------------------------------------------
  // Writing and reading are inverse.

  lemma BlockHeaderFields(b: Block, s: seq<byte>, at: nat)
    requires |b.data| < 0x1_0000_0000
    requires at + BLOCK_HEADER_BYTES <= |s| && s[at..at + BLOCK_HEADER_BYTES] == BlockHeader(b)
    ensures s[at] == b.index && s[at + 1] == PayloadCode(b.payload)
    ensures s[at + 2] == b.channels && s[at + 3] == 0
    ensures ReadAt(s, at + 4, 4) == |b.data|
  {
    var h := BlockHeader(b);
    assert forall i :: 0 <= i < BLOCK_HEADER_BYTES ==> s[at + i] == h[i];
    assert s[at + 0] == h[0];
    assert s[at + 4..at + 8] == h[4..8] == BigEndian(|b.data|, 4);
    WidthsAsPowers();
    ReadBackBigEndian(|b.data|, 4);
  }

  lemma SplitSlice(data: seq<byte>, from: nat, to: nat, x: seq<byte>, y: seq<byte>)
    requires from <= to <= |data| && data[from..to] == x + y
    ensures from + |x| <= to
    ensures data[from..from + |x|] == x && data[from + |x|..to] == y
  {
    assert data[from..from + |x|] == data[from..to][..|x|];
    assert data[from + |x|..to] == data[from..to][|x|..];
  }

  lemma WrittenBlockParses(data: seq<byte>, offset: nat, end: nat, b: Block, seen: set<byte>)
    requires end <= |data| && offset + BLOCK_HEADER_BYTES + |b.data| <= end
    requires data[offset..offset + BLOCK_HEADER_BYTES + |b.data|] == BlockBytes(b)
    requires BlockRefusal(b, seen).None?
    ensures ParseBlock(data, offset, end, seen) == Success(b)
  {
    var start := offset + BLOCK_HEADER_BYTES;
    var all := data[offset..start + |b.data|];
    assert data[offset..start] == all[..BLOCK_HEADER_BYTES] == BlockHeader(b);
    assert data[start..start + |b.data|] == all[BLOCK_HEADER_BYTES..] == b.data;
    BlockHeaderFields(b, data, offset);
  }

  lemma {:induction false} WrittenBlocksParse(
    data: seq<byte>, offset: nat, end: nat, blocks: seq<Block>, seen: set<byte>)
    requires end <= |data| && offset + |BlocksBytes(blocks)| == end
    requires data[offset..end] == BlocksBytes(blocks)
    requires BlocksRefusal(blocks, seen).None?
    ensures ParseBlocks(data, offset, end, |blocks|, seen) == Success(blocks)
    decreases |blocks|
  {
    if blocks != [] {
      var b, rest := blocks[0], blocks[1..];
      var size := BLOCK_HEADER_BYTES + |b.data|;
      hide ParseBlock, BlockRefusal;
      SplitSlice(data, offset, end, BlockBytes(b), BlocksBytes(rest));
      hide BlocksBytes, BlockBytes;
      WrittenBlockParses(data, offset, end, b, seen);
      WrittenBlocksParse(data, offset + size, end, rest, seen + {b.index});
      hide BlocksRefusal;
      assert blocks == [b] + rest;
      assert ParseBlocks(data, offset, end, |blocks|, seen) == Prepend([b], Success(rest));
    }
  }

  lemma FieldReads(s: seq<byte>, at: nat, n: nat, v: nat)
    requires at + n <= |s| && v < Pow256(n) && s[at..at + n] == BigEndian(v, n)
    ensures ReadAt(s, at, n) == v
  {
    ReadBackBigEndian(v, n);
  }

  lemma HeaderSlices(f: Frame, h: seq<byte>)
    requires h == Header(f)
    ensures h[0..4] == BigEndian(MAGIC, 4)
    ensures h[4..6] == BigEndian(VERSION, 2)
    ensures h[6..8] == BigEndian(0, 2)
    ensures h[8..10] == BigEndian(f.linkId, 2)
    ensures h[10] == |f.blocks| % 256 && h[11] == 0
    ensures h[12..20] == BigEndian(f.sequence, 8)
    ensures h[20..28] == BigEndian(f.samplePosition, 8)
  {
  }

  lemma HeaderFields(f: Frame, s: seq<byte>)
    requires |f.blocks| < 256
    requires |s| >= FRAME_HEADER_BYTES && s[..FRAME_HEADER_BYTES] == Header(f)
    ensures ReadAt(s, 0, 4) == MAGIC && ReadAt(s, 4, 2) == VERSION && ReadAt(s, 6, 2) == 0
    ensures ReadAt(s, 8, 2) == f.linkId && s[10] == |f.blocks| && s[11] == 0
    ensures ReadAt(s, 12, 8) == f.sequence && ReadAt(s, 20, 8) == f.samplePosition
  {
    var h := s[..FRAME_HEADER_BYTES];
    HeaderSlices(f, h);
    WidthsAsPowers();
    assert s[0..4] == h[0..4] && s[4..6] == h[4..6] && s[6..8] == h[6..8] && s[8..10] == h[8..10];
    assert s[12..20] == h[12..20] && s[20..28] == h[20..28];
    FieldReads(s, 0, 4, MAGIC);
    FieldReads(s, 4, 2, VERSION);
    FieldReads(s, 6, 2, 0);
    FieldReads(s, 8, 2, f.linkId);
    FieldReads(s, 12, 8, f.sequence);
    FieldReads(s, 20, 8, f.samplePosition);
  }

  /** decode(encode(f)) == f, for every frame the encoder accepts. */
  lemma WrittenFrameParses(f: Frame)
    requires Encodable(f)
    ensures Parse(Serialize(f)) == Success(f)
  {
    hide Crc32.Crc;
    RefusedExactly(f);
    hide BlocksRefusal, ParseBlocks, BlocksBytes, Header, FromBigEndian, BigEndian;
    var data, body := Serialize(f), Body(f);
    var end := |data| - CHECKSUM_BYTES;
    assert data[..end] == body;
    assert data[..FRAME_HEADER_BYTES] == Header(f);
    HeaderFields(f, data);
    assert data[end..end + 4] == BigEndian(Crc32.Crc(body), 4);
    WidthsAsPowers();
    ReadBackBigEndian(Crc32.Crc(body), 4);
    assert data[FRAME_HEADER_BYTES..end] == BlocksBytes(f.blocks);
    WrittenBlocksParse(data, FRAME_HEADER_BYTES, end, f.blocks, {});
  }

  lemma ParsedBlockWrites(data: seq<byte>, offset: nat, end: nat, seen: set<byte>)
    requires end <= |data| && ParseBlock(data, offset, end, seen).Success?
    ensures var b := ParseBlock(data, offset, end, seen).value;
      BlockRefusal(b, seen).None? && BlockBytes(b) == data[offset..offset + BLOCK_HEADER_BYTES + |b.data|]
  {
    var b := ParseBlock(data, offset, end, seen).value;
    var start := offset + BLOCK_HEADER_BYTES;
    WriteBackBigEndian(data[offset + 4..start]);
    WidthsAsPowers();
    assert BlockHeader(b) == data[offset..start];
    assert data[offset..start + |b.data|] == data[offset..start] + data[start..start + |b.data|];
  }

  lemma {:induction false} ParsedBlocksWrite(data: seq<byte>, offset: nat, end: nat, count: nat, seen: set<byte>)
    requires offset <= end <= |data|
    requires ParseBlocks(data, offset, end, count, seen).Success?
    ensures var blocks := ParseBlocks(data, offset, end, count, seen).value;
      |blocks| == count && BlocksBytes(blocks) == data[offset..end] && BlocksRefusal(blocks, seen).None?
    decreases count
  {
    hide BlocksBytes, BlockBytes, BlocksRefusal, BlockRefusal, ParseBlocks, ParseBlock;
    if count == 0 {
      NothingParsed(data, offset, end, seen);
    } else {
      var b, rest := ParsedFirst(data, offset, end, count, seen);
      var next := offset + BLOCK_HEADER_BYTES + |b.data|;
      ParsedBlocksWrite(data, next, end, count - 1, seen + {b.index});
      BlocksJoin(b, rest, seen);
      TwoSlices(data, offset, next, end);
    }
  }

  lemma NothingParsed(data: seq<byte>, offset: nat, end: nat, seen: set<byte>)
    requires offset <= end <= |data| && ParseBlocks(data, offset, end, 0, seen).Success?
    ensures ParseBlocks(data, offset, end, 0, seen) == Success([]) && offset == end
    ensures BlocksBytes([]) == data[offset..end] && BlocksRefusal([], seen).None?
  {
  }

  lemma TwoSlices(data: seq<byte>, a: nat, b: nat, c: nat)
    requires a <= b <= c <= |data|
    ensures data[a..b] + data[b..c] == data[a..c]
  {
  }

  lemma ParsedFirst(data: seq<byte>, offset: nat, end: nat, count: nat, seen: set<byte>)
    returns (b: Block, rest: seq<Block>)
    requires offset <= end <= |data| && count > 0 && ParseBlocks(data, offset, end, count, seen).Success?
    ensures var next := offset + BLOCK_HEADER_BYTES + |b.data|;
      && next <= end && ParseBlocks(data, next, end, count - 1, seen + {b.index}) == Success(rest)
      && BlockRefusal(b, seen).None? && BlockBytes(b) == data[offset..next]
    ensures ParseBlocks(data, offset, end, count, seen) == Success([b] + rest)
  {
    hide BlockBytes, BlockRefusal;
    ParsedBlockWrites(data, offset, end, seen);
    b := ParseBlock(data, offset, end, seen).value;
    var next := offset + BLOCK_HEADER_BYTES + |b.data|;
    rest := ParseBlocks(data, next, end, count - 1, seen + {b.index}).value;
  }

  lemma BlocksJoin(b: Block, rest: seq<Block>, seen: set<byte>)
    ensures BlocksBytes([b] + rest) == BlockBytes(b) + BlocksBytes(rest)
    ensures BlockRefusal(b, seen).None? ==>
      BlocksRefusal([b] + rest, seen) == BlocksRefusal(rest, seen + {b.index})
  {
    hide BlockBytes, BlockRefusal;
    assert ([b] + rest)[0] == b && ([b] + rest)[1..] == rest;
  }

  lemma HeaderRebuilt(f: Frame, s: seq<byte>)
    requires |f.blocks| < 256 && |s| == FRAME_HEADER_BYTES
    requires ReadAt(s, 0, 4) == MAGIC && ReadAt(s, 4, 2) == VERSION && ReadAt(s, 6, 2) == 0
    requires ReadAt(s, 8, 2) == f.linkId && s[10] == |f.blocks| && s[11] == 0
    requires ReadAt(s, 12, 8) == f.sequence && ReadAt(s, 20, 8) == f.samplePosition
    ensures s == Header(f)
  {
    hide BigEndian, FromBigEndian;
    WriteBackBigEndian(s[0..4]);
    WriteBackBigEndian(s[4..6]);
    WriteBackBigEndian(s[6..8]);
    WriteBackBigEndian(s[8..10]);
    WriteBackBigEndian(s[12..20]);
    WriteBackBigEndian(s[20..28]);
    assert s == s[0..4] + s[4..6] + s[6..8] + s[8..10] + [s[10], s[11]] + s[12..20] + s[20..28];
  }

  lemma ParsedHeader(data: seq<byte>)
    requires Parse(data).Success?
    ensures |Parse(data).value.blocks| < 256 && FRAME_HEADER_BYTES <= |data| - CHECKSUM_BYTES
    ensures data[..FRAME_HEADER_BYTES] == Header(Parse(data).value)
  {
    hide Crc32.Crc;
    var f := Parse(data).value;
    ParsedBlocksWrite(data, FRAME_HEADER_BYTES, |data| - CHECKSUM_BYTES, data[10], {});
    var head := data[..FRAME_HEADER_BYTES];
    assert head[0..4] == data[0..4] && head[4..6] == data[4..6] && head[6..8] == data[6..8];
    assert head[8..10] == data[8..10] && head[12..20] == data[12..20] && head[20..28] == data[20..28];
    HeaderRebuilt(f, head);
  }

  lemma CheckReads(data: seq<byte>)
    requires Parse(data).Success?
    ensures |data| >= CHECKSUM_BYTES
    ensures data[|data| - CHECKSUM_BYTES..] == BigEndian(Crc32.Crc(data[..|data| - CHECKSUM_BYTES]), 4)
  {
    hide Crc32.Crc;
    hide ParseBlocks;
    var end := |data| - CHECKSUM_BYTES;
    WriteBackBigEndian(data[end..end + 4]);
    assert data[end..] == data[end..end + 4];
  }

  lemma Assembled(f: Frame, data: seq<byte>, end: nat)
    requires FRAME_HEADER_BYTES <= end <= |data|
    requires data[..FRAME_HEADER_BYTES] == Header(f)
    requires data[FRAME_HEADER_BYTES..end] == BlocksBytes(f.blocks)
    requires data[end..] == BigEndian(Crc32.Crc(data[..end]), 4)
    ensures Serialize(f) == data
  {
    hide Crc32.Crc, Header, BlocksBytes;
    assert data[..end] == data[..FRAME_HEADER_BYTES] + data[FRAME_HEADER_BYTES..end];
    assert data == data[..end] + data[end..];
  }

  /** Every byte string the decoder accepts is the one the encoder writes for its frame. */
  lemma ParsedFrameWrites(data: seq<byte>)
    requires Parse(data).Success?
    ensures Encodable(Parse(data).value) && Serialize(Parse(data).value) == data
  {
    hide Crc32.Crc;
    var f := Parse(data).value;
    var end := |data| - CHECKSUM_BYTES;
    ParsedBlocksWrite(data, FRAME_HEADER_BYTES, end, data[10], {});
    RefusedBlocks(f.blocks, {});
    ParsedHeader(data);
    CheckReads(data);
    Assembled(f, data, end);
  }

  /** The format has exactly one representation per frame. */
  lemma ParseExactly(data: seq<byte>, f: Frame)
    ensures Parse(data) == Success(f) <==> Encodable(f) && data == Serialize(f)
  {
    if Parse(data) == Success(f) {
      ParsedFrameWrites(data);
    } else if Encodable(f) && data == Serialize(f) {
      WrittenFrameParses(f);
    }
  }

  // ---------------------------------------------------------------------------
  // Damage is refused.

  /** What a damaged window leaves alone. */
  lemma WindowInBody(s: seq<byte>, t: seq<byte>, k: nat, end: nat)
    requires Crc32.DifferOnlyIn(s, t, k, k + 4) && k + 4 <= end <= |s|
    ensures Crc32.DifferOnlyIn(s[..end], t[..end], k, k + 4)
    ensures s[end..] == t[end..]
  {
    assert s[..end][..k] == s[..k] && t[..end][..k] == t[..k];
    assert s[..end][k + 4..] == s[k + 4..][..end - k - 4];
    assert t[..end][k + 4..] == t[k + 4..][..end - k - 4];
    assert s[end..] == s[k + 4..][end - k - 4..];
    assert t[end..] == t[k + 4..][end - k - 4..];
  }

  /** A written frame damaged inside thirty-two consecutive bits before its check, at any bit, is refused. */
  lemma BurstIsRefused(f: Frame, data: seq<byte>, k: nat, n: nat)
    requires Encodable(f) && data != Serialize(f) && |data| == |Serialize(f)| && n <= 32
    requires var end := |data| - CHECKSUM_BYTES;
      data[end..] == Serialize(f)[end..] && Crc32.DifferOnlyInBits(data[..end], Serialize(f)[..end], k, n)
    ensures Parse(data).Failure?
  {
    hide Crc32.Crc, Crc32.DifferOnlyInBits;
    if Parse(data).Success? {
      var good := Serialize(f);
      var end := |good| - CHECKSUM_BYTES;
      WrittenFrameParses(f);
      CheckReads(data);
      CheckReads(good);
      assert data == data[..end] + data[end..] && good == good[..end] + good[end..];
      WidthsAsPowers();
      ReadBackBigEndian(Crc32.Crc(data[..end]), 4);
      ReadBackBigEndian(Crc32.Crc(good[..end]), 4);
      Crc32.BitBurstChangesCrc(data[..end], good[..end], k, n);
    }
  }

  lemma DamagedCheck(f: Frame, data: seq<byte>)
    requires Encodable(f) && data != Serialize(f)
    requires |data| == |Serialize(f)| && data[..|data| - CHECKSUM_BYTES] == Serialize(f)[..|data| - CHECKSUM_BYTES]
    ensures Parse(data).Failure?
  {
    hide Crc32.Crc;
    var good, end := Serialize(f), |data| - CHECKSUM_BYTES;
    assert data == data[..end] + data[end..] && good == good[..end] + good[end..];
    if Parse(data).Success? {
      WrittenFrameParses(f);
      CheckReads(data);
      CheckReads(good);
    }
  }

  /**
   * So is one damaged inside any four consecutive octets before its check, or anywhere inside
   * the check itself.
   */
  lemma DamageIsRefused(f: Frame, data: seq<byte>, k: nat)
    requires Encodable(f) && data != Serialize(f)
    requires k + 4 <= |Serialize(f)| - CHECKSUM_BYTES || k == |Serialize(f)| - CHECKSUM_BYTES
    requires Crc32.DifferOnlyIn(data, Serialize(f), k, k + 4)
    ensures Parse(data).Failure?
  {
    var good := Serialize(f);
    hide Crc32.Crc, Serialize, Parse, Encodable;
    var end := |good| - CHECKSUM_BYTES;
    if k < end {
      WindowInBody(data, good, k, end);
      Crc32.OctetsAsBits(data[..end], good[..end], k, k + 4);
      BurstIsRefused(f, data, 8 * k, 32);
    } else {
      DamagedCheck(f, data);
    }
  }
}
