/** How long a frame is, told from however much of it has arrived. */
module FrameLength {
  import opened Bytes
  import opened WireFrame
  import Crc32

  const MAX_FRAME_BYTES := 256 * 1024

  datatype LengthError = NotOurs | OtherVersion | BlockCountOutOfRange | TooLong

  datatype LengthStatus = Known(total: nat) | Incomplete | Invalid(error: LengthError)

  function Walk(data: seq<byte>, offset: nat, blocks: nat): LengthStatus
    decreases blocks
  {
    if blocks == 0 then
      if offset + CHECKSUM_BYTES > MAX_FRAME_BYTES then Invalid(TooLong) else Known(offset + CHECKSUM_BYTES)
    else if |data| < offset + BLOCK_HEADER_BYTES then Incomplete
    else
      var next := offset + BLOCK_HEADER_BYTES + ReadAt(data, offset + 4, 4);
      if next > MAX_FRAME_BYTES then Invalid(TooLong) else Walk(data, next, blocks - 1)
  }

  function Measure(data: seq<byte>): LengthStatus {
    if |data| < 4 then Incomplete
    else if ReadAt(data, 0, 4) != MAGIC then Invalid(NotOurs)
    else if |data| < FRAME_HEADER_BYTES then Incomplete
    else if ReadAt(data, 4, 2) != VERSION then Invalid(OtherVersion)
    else if data[10] == 0 || data[10] > MAX_BLOCKS then Invalid(BlockCountOutOfRange)
    else Walk(data, FRAME_HEADER_BYTES, data[10])
  }

  method FrameLengthOf(data: seq<byte>) returns (status: LengthStatus)
    ensures status == Measure(data)
  {
    if |data| < 4 {
      return Incomplete;
    }
    if ReadAt(data, 0, 4) != MAGIC {
      return Invalid(NotOurs);
    }
    if |data| < FRAME_HEADER_BYTES {
      return Incomplete;
    }
    if ReadAt(data, 4, 2) != VERSION {
      return Invalid(OtherVersion);
    }
    var blockCount := data[10];
    if blockCount == 0 || blockCount > MAX_BLOCKS {
      return Invalid(BlockCountOutOfRange);
    }
    var offset: nat := FRAME_HEADER_BYTES;
    for position := 0 to blockCount
      invariant Measure(data) == Walk(data, offset, blockCount - position)
    {
      if |data| < offset + BLOCK_HEADER_BYTES {
        return Incomplete;
      }
      var bytes := ReadAt(data, offset + 4, 4);
      offset := offset + BLOCK_HEADER_BYTES + bytes;
      if offset > MAX_FRAME_BYTES {
        return Invalid(TooLong);
      }
    }
    var total := offset + CHECKSUM_BYTES;
    if total > MAX_FRAME_BYTES {
      return Invalid(TooLong);
    }
    return Known(total);
  }

  // ---------------------------------------------------------------------------
  // A verdict, once given, stands however much more arrives.

  lemma {:induction false} WalkIsStable(p: seq<byte>, q: seq<byte>, offset: nat, blocks: nat)
    requires p <= q && Walk(p, offset, blocks) != Incomplete
    ensures Walk(q, offset, blocks) == Walk(p, offset, blocks)
    decreases blocks
  {
    if blocks > 0 {
      assert q[offset + 4..offset + 8] == p[offset + 4..offset + 8];
      var next := offset + BLOCK_HEADER_BYTES + ReadAt(p, offset + 4, 4);
      if next <= MAX_FRAME_BYTES {
        WalkIsStable(p, q, next, blocks - 1);
      }
    }
  }

  lemma VerdictIsStable(p: seq<byte>, q: seq<byte>)
    requires p <= q && Measure(p) != Incomplete
    ensures Measure(q) == Measure(p)
  {
    assert q[0..4] == p[0..4];
    if |p| >= FRAME_HEADER_BYTES {
      assert q[4..6] == p[4..6];
      if ReadAt(p, 0, 4) == MAGIC && ReadAt(p, 4, 2) == VERSION && 0 < p[10] <= MAX_BLOCKS {
        WalkIsStable(p, q, FRAME_HEADER_BYTES, p[10]);
      }
    }
  }

  // ---------------------------------------------------------------------------
  // On the prefixes of a written frame.

  /** Where the last block header of a frame ends: all a receiver needs to know its length. */
  function HeadersEnd(f: Frame): int
    requires f.blocks != []
  {
    |Body(f)| - |f.blocks[|f.blocks| - 1].data|
  }

  lemma {:induction false} WalkWritten(p: seq<byte>, whole: seq<byte>, offset: nat, blocks: seq<Block>)
    requires p <= whole && offset + |BlocksBytes(blocks)| + CHECKSUM_BYTES == |whole|
    requires whole[offset..|whole| - CHECKSUM_BYTES] == BlocksBytes(blocks)
    requires forall i :: 0 <= i < |blocks| ==> |blocks[i].data| <= 0xFFFF_FFFF
    requires |whole| <= MAX_FRAME_BYTES
    ensures blocks != [] && |p| < |whole| - CHECKSUM_BYTES - |blocks[|blocks| - 1].data|
      ==> Walk(p, offset, |blocks|) == Incomplete
    ensures blocks == [] || |p| >= |whole| - CHECKSUM_BYTES - |blocks[|blocks| - 1].data|
      ==> Walk(p, offset, |blocks|) == Known(|whole|)
    decreases |blocks|
  {
    if blocks != [] {
      var b, rest := blocks[0], blocks[1..];
      hide BlockHeader;
      var size := BLOCK_HEADER_BYTES + |b.data|;
      SplitSlice(whole, offset, |whole| - CHECKSUM_BYTES, BlockBytes(b), BlocksBytes(rest));
      SplitSlice(whole, offset, offset + size, BlockHeader(b), b.data);
      LastBlockFits(blocks);
      if |p| >= offset + BLOCK_HEADER_BYTES {
        assert p[offset..offset + BLOCK_HEADER_BYTES] == whole[offset..offset + BLOCK_HEADER_BYTES];
        BlockHeaderFields(b, p, offset);
        assert blocks[|blocks| - 1] == if rest == [] then b else rest[|rest| - 1];
        WalkWritten(p, whole, offset + size, rest);
      }
    }
  }

  lemma {:induction false} LastBlockFits(blocks: seq<Block>)
    requires blocks != []
    ensures |BlocksBytes(blocks)| >= BLOCK_HEADER_BYTES + |blocks[|blocks| - 1].data|
  {
    if |blocks| > 1 {
      LastBlockFits(blocks[1..]);
    }
  }

  /**
   * While a frame within the ceiling is arriving it is never called invalid; its length is
   * known exactly from the moment its last block header is in.
   */
  lemma WrittenPrefixMeasures(f: Frame, p: seq<byte>)
    requires Encodable(f) && |Serialize(f)| <= MAX_FRAME_BYTES
    requires p <= Serialize(f)
    ensures Measure(p) == if |p| < HeadersEnd(f) then Incomplete else Known(|Serialize(f)|)
  {
    hide Crc32.Crc, Header, BlocksBytes;
    var whole := Serialize(f);
    assert whole[..FRAME_HEADER_BYTES] == Header(f);
    assert whole[FRAME_HEADER_BYTES..|whole| - CHECKSUM_BYTES] == BlocksBytes(f.blocks);
    HeaderFields(f, whole);
    LastBlockFits(f.blocks);
    assert forall i :: 0 <= i < |f.blocks| ==> BlockEncodable(f.blocks[i]);
    if |p| >= 4 {
      assert p[0..4] == whole[0..4];
      if |p| >= FRAME_HEADER_BYTES {
        assert p[4..6] == whole[4..6];
        WalkWritten(p, whole, FRAME_HEADER_BYTES, f.blocks);
      }
    }
  }
}
