/** Frames too large for 255 messages: exactly which, and a configuration that makes them. */
module Oversize {
  import opened Bytes
  import opened BlockMap
  import opened EndToEnd
  import opened Transport
  import Fragments
  import WireFrame

  /** A frame the encoder accepts becomes no message at all exactly when 255 messages cannot carry it. */
  lemma TooLargeIsSilent(f: WireFrame.Frame, sequence: u32)
    requires WireFrame.Encodable(f)
    ensures Fragments.Messages(WireFrame.Serialize(f), sequence) == []
      <==> WireFrame.EncodedSize(f) > Fragments.MAX_FRAGMENTS * Fragments.PAYLOAD_CAP
  {
    hide WireFrame.Serialize;
  }

  /** Forty-eight channels, one block of them Opus: the period is then an Opus frame, the longest here. */
  function MixedMap(): Config {
    Config(48000, 48, "s24_3le", 2880, 6, MixedBlocks())
  }

  function ChannelsOf(index: nat): (channels: seq<int>)
    ensures |channels| == CHANNELS_PER_BLOCK
  {
    seq(CHANNELS_PER_BLOCK, k => 8 * index + k)
  }

  function MixedBlocks(): (blocks: seq<BlockConfig>)
    ensures |blocks| == 6
  {
    seq(6, i requires 0 <= i < 6 => BlockConfig(i, ChannelsOf(i), 0.0, if i == 5 then "opus" else "pcm_l24", 128000))
  }

  lemma {:induction false} MixedCarries(n: nat)
    requires n <= 6
    ensures |Carried(MixedBlocks()[..n])| == 8 * n
    ensures forall k :: 0 <= k < 8 * n ==> Carried(MixedBlocks()[..n])[k] == k
  {
    if n > 0 {
      MixedCarries(n - 1);
      assert MixedBlocks()[..n][..n - 1] == MixedBlocks()[..n - 1];
      assert MixedBlocks()[..n][n - 1] == MixedBlocks()[n - 1];
    }
  }

  lemma MixedMapValidates()
    ensures Valid(MixedMap()) && CarriesOpus(MixedMap().blocks)
  {
    assert ToLower("pcm_l24") == "pcm_l24" && ToLower("opus") == "opus";
    hide ToLower;
    MixedCarries(6);
    assert MixedBlocks()[..6] == MixedBlocks();
    assert ToLower(MixedBlocks()[5].codec) == "opus";
    hide Carried;
  }

  /** The frame such an engine writes: five blocks of 24-bit samples and whatever Opus makes of the sixth. */
  function MixedFrame(linkId: u16, s: Sender, pcm: seq<seq<byte>>, opus: seq<byte>): WireFrame.Frame
    requires |pcm| == 5
  {
    WireFrame.Frame(linkId, s.sequence, s.position,
      seq(6, i requires 0 <= i < 6 =>
        if i == 5 then WireFrame.Block(i, WireFrame.OpusPacket, CHANNELS_PER_BLOCK, opus)
        else WireFrame.Block(i, WireFrame.PcmL24, CHANNELS_PER_BLOCK, pcm[i])))
  }

  const MIXED_BLOCK_BYTES := 2880 * (8 * 3)

  lemma {:induction false} BlocksAtLeast(blocks: seq<WireFrame.Block>, size: nat)
    requires forall i :: 0 <= i < |blocks| - 1 ==> |blocks[i].data| == size
    ensures blocks != [] ==> WireFrame.BlocksSize(blocks) >= (|blocks| - 1) * size
    decreases |blocks|
  {
    if |blocks| > 1 {
      BlocksAtLeast(blocks[1..], size);
      OneMoreOf(|blocks| - 2, size);
    }
  }

  /** So it does happen: a validated configuration whose every frame is encoded and never sent. */
  lemma MixedEngineIsSilent(linkId: u16, s: Sender, pcm: seq<seq<byte>>, opus: seq<byte>)
    requires |pcm| == 5 && (forall i :: 0 <= i < 5 ==> |pcm[i]| == MIXED_BLOCK_BYTES)
    requires 0 < |opus| <= 0xFFFF_FFFF
    ensures Valid(MixedMap())
    ensures var f := MixedFrame(linkId, s, pcm, opus);
      && WireFrame.Encodable(f)
      && Fragments.Messages(WireFrame.Serialize(f), s.sequence % SEQUENCES) == []
  {
    MixedMapValidates();
    var f := MixedFrame(linkId, s, pcm, opus);
    hide *;
    MixedFrameIsEncodable(linkId, s, pcm, opus);
    MixedFrameIsLarge(linkId, s, pcm, opus);
    TooLargeIsSilent(f, s.sequence % SEQUENCES);
  }

  lemma MixedFrameIsLarge(linkId: u16, s: Sender, pcm: seq<seq<byte>>, opus: seq<byte>)
    requires |pcm| == 5 && (forall i :: 0 <= i < 5 ==> |pcm[i]| == MIXED_BLOCK_BYTES)
    ensures WireFrame.EncodedSize(MixedFrame(linkId, s, pcm, opus)) > 255 * Fragments.PAYLOAD_CAP
  {
    BlocksAtLeast(MixedFrame(linkId, s, pcm, opus).blocks, MIXED_BLOCK_BYTES);
    hide WireFrame.BlocksSize;
  }

  lemma MixedFrameIsEncodable(linkId: u16, s: Sender, pcm: seq<seq<byte>>, opus: seq<byte>)
    requires |pcm| == 5 && (forall i :: 0 <= i < 5 ==> |pcm[i]| == MIXED_BLOCK_BYTES)
    requires 0 < |opus| <= 0xFFFF_FFFF
    ensures WireFrame.Encodable(MixedFrame(linkId, s, pcm, opus))
  {
    assert MIXED_BLOCK_BYTES % 24 == 0;
  }
}
