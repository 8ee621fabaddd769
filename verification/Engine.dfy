/**
 * The engine's transmit and receive steps, in its own loops and buffers, against
 * the functions of modules Packing and Transport.
 */
module Engine {
  import opened Arithmetic
  import opened Bytes
  import opened BlockMap
  import opened Packing
  import opened Transport
  import opened PlayoutBuffer
  import Fragments
  import Playout
  import WireFrame

  // ---------------------------------------------------------------------------
  // Packing.

  /** The samples gathered so far, of the frames and slots before (frame, slot). */
  ghost predicate Gathered(fmt: Format, channels: seq<int>, period: seq<Sample>, pcm: seq<Sample>, done: int)
    requires |period| == fmt.periodFrames * fmt.channels && |channels| == CHANNELS_PER_BLOCK
  {
    && |pcm| == fmt.periodFrames * CHANNELS_PER_BLOCK && 0 <= done <= |pcm|
    && forall k :: 0 <= k < done ==>
         && 0 <= channels[k % CHANNELS_PER_BLOCK] < fmt.channels
         && pcm[k] == period[At(fmt, k / CHANNELS_PER_BLOCK, channels[k % CHANNELS_PER_BLOCK])]
  }

  lemma GatheredNone(fmt: Format, channels: seq<int>, period: seq<Sample>, pcm: seq<Sample>)
    requires |period| == fmt.periodFrames * fmt.channels && |channels| == CHANNELS_PER_BLOCK
    requires |pcm| == fmt.periodFrames * CHANNELS_PER_BLOCK
    ensures Gathered(fmt, channels, period, pcm, 0)
  {
  }

  lemma OutOfRange(fmt: Format, channels: seq<int>, slot: nat)
    requires slot < |channels| && !(0 <= channels[slot] < fmt.channels)
    ensures !ChannelsInRange(fmt, channels)
  {
  }

  lemma GatheredAll(fmt: Format, channels: seq<int>, period: seq<Sample>, pcm: seq<Sample>)
    requires |period| == fmt.periodFrames * fmt.channels && |channels| == CHANNELS_PER_BLOCK
    requires Gathered(fmt, channels, period, pcm, fmt.periodFrames * CHANNELS_PER_BLOCK)
    ensures fmt.periodFrames > 0 ==> ChannelsInRange(fmt, channels) && pcm == BlockSamples(fmt, channels, period)
  {
    hide At;
    if fmt.periodFrames > 0 {
      forall s | 0 <= s < |channels|
        ensures 0 <= channels[s] < fmt.channels
      {
        assert s % CHANNELS_PER_BLOCK == s;
        assert s < fmt.periodFrames * CHANNELS_PER_BLOCK;
      }
    }
  }

  lemma GatheredNext(fmt: Format, channels: seq<int>, period: seq<Sample>, pcm: seq<Sample>, frame: nat, slot: nat)
    requires |period| == fmt.periodFrames * fmt.channels && |channels| == CHANNELS_PER_BLOCK
    requires frame < fmt.periodFrames && slot < CHANNELS_PER_BLOCK && 0 <= channels[slot] < fmt.channels
    requires Gathered(fmt, channels, period, pcm, frame * CHANNELS_PER_BLOCK + slot)
    ensures frame * CHANNELS_PER_BLOCK + slot < |pcm|
    ensures var to := frame * CHANNELS_PER_BLOCK + slot;
      Gathered(fmt, channels, period, pcm[to := period[At(fmt, frame, channels[slot])]], to + 1)
  {
    var to := frame * CHANNELS_PER_BLOCK + slot;
    DivideUnique(to, CHANNELS_PER_BLOCK, frame, slot);
    MultiplyOrdered(frame + 1, fmt.periodFrames, CHANNELS_PER_BLOCK);
    hide At;
  }

  method GatherBlock(fmt: Format, channels: seq<int>, period: seq<Sample>, pcm: array<Sample>) returns (ok: bool)
    requires |period| == fmt.periodFrames * fmt.channels && |channels| == CHANNELS_PER_BLOCK
    requires pcm.Length == fmt.periodFrames * CHANNELS_PER_BLOCK
    modifies pcm
    ensures fmt.periodFrames > 0 ==> (ok <==> ChannelsInRange(fmt, channels))
    ensures fmt.periodFrames == 0 ==> ok
    ensures ok && fmt.periodFrames > 0 ==> pcm[..] == BlockSamples(fmt, channels, period)
  {
    hide At, BlockSamples, Gathered, ChannelsInRange;
    GatheredNone(fmt, channels, period, pcm[..]);
    for frame := 0 to fmt.periodFrames
      invariant Gathered(fmt, channels, period, pcm[..], frame * CHANNELS_PER_BLOCK)
    {
      for slot := 0 to CHANNELS_PER_BLOCK
        invariant Gathered(fmt, channels, period, pcm[..], frame * CHANNELS_PER_BLOCK + slot)
      {
        var channel := channels[slot];
        if channel < 0 || channel >= fmt.channels {
          OutOfRange(fmt, channels, slot);
          return false;
        }
        GatheredNext(fmt, channels, period, pcm[..], frame, slot);
        var to := frame * CHANNELS_PER_BLOCK + slot;
        ghost var before := pcm[..];
        pcm[to] := period[At(fmt, frame, channel)];
        assert pcm[..] == before[to := period[At(fmt, frame, channel)]];
      }
    }
    GatheredAll(fmt, channels, period, pcm[..]);
    return true;
  }

  method PackOne(fmt: Format, b: BlockConfig, period: seq<Sample>) returns (r: Result<WireFrame.Block, EngineError>)
    requires |period| == fmt.periodFrames * fmt.channels
    ensures r == PackBlock(fmt, b, period)
  {
    hide BlockSamples;
    if |b.channels| != CHANNELS_PER_BLOCK {
      return Failure(NotEight);
    }
    var pcm := new Sample[fmt.periodFrames * CHANNELS_PER_BLOCK](i => []);
    var ok := GatherBlock(fmt, b.channels, period, pcm);
    if !ok {
      return Failure(BeyondChannels);
    }
    assert fmt.periodFrames == 0 ==> pcm[..] == [];
    return Success(WireFrame.Block(b.index % 256, PcmPayload(fmt), CHANNELS_PER_BLOCK, Flatten(pcm[..])));
  }

  function Before(packed: seq<WireFrame.Block>, r: Result<seq<WireFrame.Block>, EngineError>)
    : Result<seq<WireFrame.Block>, EngineError>
  {
    match r
    case Failure(why) => Failure(why)
    case Success(rest) => Success(packed + rest)
  }

  method PackPeriod(e: Setup, position: u64, period: seq<Sample>) returns (r: Result<WireFrame.Frame, EngineError>)
    requires |period| == e.fmt.periodFrames * e.fmt.channels
    ensures r == Pack(e.fmt, e.config.blocks, e.linkId, position, period)
  {
    hide PackBlock, ToLower;
    var blocks := e.config.blocks;
    var packed: seq<WireFrame.Block> := [];
    var opus := false;
    assert blocks[0..] == blocks;
    assert PackBlocks(e.fmt, blocks, period) == Before([], PackBlocks(e.fmt, blocks, period)) by {
      var all := PackBlocks(e.fmt, blocks, period);
      if all.Success? {
        assert [] + all.value == all.value;
      }
    }
    for i := 0 to |blocks|
      invariant PackBlocks(e.fmt, blocks, period) == Before(packed, PackBlocks(e.fmt, blocks[i..], period))
      invariant opus <==> exists k :: 0 <= k < i && ToLower(blocks[k].codec) == "opus"
    {
      var block := PackOne(e.fmt, blocks[i], period);
      assert blocks[i..][0] == blocks[i] && blocks[i..][1..] == blocks[i + 1..];
      if block.Failure? {
        return Failure(block.error);
      }
      var rest := PackBlocks(e.fmt, blocks[i + 1..], period);
      if rest.Success? {
        assert packed + ([block.value] + rest.value) == packed + [block.value] + rest.value;
      }
      packed := packed + [block.value];
      opus := opus || ToLower(blocks[i].codec) == "opus";
    }
    assert blocks[|blocks|..] == [] && packed + [] == packed;
    if opus {
      return Failure(OpusUnavailable);
    }
    return Success(WireFrame.Frame(e.linkId, 0, position, packed));
  }

  // ---------------------------------------------------------------------------
  // Unpacking.

  /** One wire block's samples into the device period. */
  method PlaceBlock(fmt: Format, channels: seq<int>, block: WireFrame.Block, period: array<Sample>)
    returns (error: Option<EngineError>)
    requires period.Length == fmt.periodFrames * fmt.channels
    modifies period
    ensures match PlaceFrom(fmt, channels, block.channels, block.data, old(period[..]), 0, 0)
      case Failure(why) => error == Some(why)
      case Success(q) => error == None && period[..] == q
  {
    hide At;
    ghost var whole := PlaceFrom(fmt, channels, block.channels, block.data, period[..], 0, 0);
    for frame := 0 to fmt.periodFrames
      invariant whole == PlaceFrom(fmt, channels, block.channels, block.data, period[..], frame, 0)
    {
      for slot := 0 to |channels|
        invariant whole == PlaceFrom(fmt, channels, block.channels, block.data, period[..], frame, slot)
      {
        var channel := channels[slot];
        if channel < 0 || channel >= fmt.channels {
          return Some(BeyondChannels);
        }
        var from: nat := (frame * block.channels + slot) * fmt.sampleBytes by {
          MultiplyOrdered(0, frame, block.channels);
          MultiplyOrdered(0, frame * block.channels + slot, fmt.sampleBytes);
        }
        if from + fmt.sampleBytes > |block.data| {
          return Some(ShortBlock);
        }
        ghost var before := period[..];
        period[At(fmt, frame, channel)] := block.data[from..from + fmt.sampleBytes];
        assert period[..] == before[At(fmt, frame, channel) := block.data[from..from + fmt.sampleBytes]];
      }
    }
    return None;
  }

  method UnpackFrame(e: Setup, frame: WireFrame.Frame, period: array<Sample>) returns (error: Option<EngineError>)
    requires period.Length == e.fmt.periodFrames * e.fmt.channels
    modifies period
    ensures match Unpack(e.fmt, e.config.blocks, e.linkId, frame)
      case Failure(why) => error == Some(why)
      case Success(q) => error == None && period[..] == q
    ensures Known(e.fmt) ==>
      && (error == None <==> Unpackable(e.fmt, e.config.blocks, e.linkId, frame))
      && (error.Some? ==> Explained(e.fmt, e.config.blocks, e.linkId, frame, error.value))
  {
    hide Unpackable, Explained;
    var blocks := e.config.blocks;
    if Known(e.fmt) {
      UnpacksExactly(e.fmt, blocks, e.linkId, frame);
      RefusedFor(e.fmt, blocks, e.linkId, frame);
    }
    if frame.linkId != e.linkId {
      return Some(ForeignLink);
    }
    if |frame.blocks| != |blocks| {
      return Some(OtherBlockCount);
    }
    Silenced(e.fmt, period);
    var filled := new bool[|blocks|](i => false);
    ghost var seen: set<int> := {};
    for i := 0 to |frame.blocks|
      invariant fresh(filled) && filled.Length == |blocks|
      invariant forall k :: 0 <= k < filled.Length ==> (filled[k] <==> k in seen)
      invariant Unpack(e.fmt, blocks, e.linkId, frame)
             == UnpackBlocks(e.fmt, blocks, frame.blocks[i..], seen, period[..])
    {
      hide PlaceFrom;
      var block := frame.blocks[i];
      assert frame.blocks[i..][0] == block && frame.blocks[i..][1..] == frame.blocks[i + 1..];
      if block.index >= |blocks| {
        return Some(UnknownBlock);
      }
      if filled[block.index] {
        return Some(BlockTwice);
      }
      filled[block.index] := true;
      if block.payload == WireFrame.OpusPacket {
        return Some(OpusUnavailable);
      }
      if WireFrame.SampleBytes(block.payload) != e.fmt.sampleBytes {
        return Some(OtherWidth);
      }
      error := PlaceBlock(e.fmt, blocks[block.index].channels, block, period);
      if error.Some? {
        return;
      }
      seen := seen + {block.index};
    }
    return None;
  }

  method Silenced(fmt: Format, period: array<Sample>)
    requires period.Length == fmt.periodFrames * fmt.channels
    modifies period
    ensures period[..] == Silence(fmt)
  {
    for i := 0 to period.Length
      invariant forall k :: 0 <= k < i ==> period[k] == seq(fmt.sampleBytes, j => 0)
    {
      period[i] := seq(fmt.sampleBytes, j => 0);
    }
  }

  // ---------------------------------------------------------------------------
  // The engine.

  class Engine {
    const e: Setup
    const reassembler: Fragments.Reassembler
    const playout: PlayoutBuffer
    const rxPeriod: array<Sample>

    var sequence: u64
    var samplePosition: u64
    var framesSent: nat
    var framesReceived: nat
    var framesRefused: nat

    /** The link: messages accepted for sending, and messages that have arrived and wait. */
    var outbox: seq<seq<byte>>
    var inbox: seq<seq<byte>>

    ghost function Sending(): Sender
      reads this
    {
      Sender(sequence, samplePosition)
    }

    ghost function Receiving(): Receiver
      reads this, reassembler, playout
    {
      Receiver(reassembler.State(), playout.Model(), framesReceived, framesRefused)
    }

    ghost predicate Valid()
      reads this, reassembler, playout, playout.positions, playout.audio
    {
      && playout.Valid() && playout.g == Ring(e)
      && rxPeriod.Length == e.fmt.periodFrames * e.fmt.channels && rxPeriod != playout.audio
      && !reassembler.State().ready
    }

    constructor (e: Setup, sampleRate: nat)
      ensures Valid() && fresh(reassembler) && fresh(playout) && fresh(rxPeriod)
      ensures fresh(playout.positions) && fresh(playout.audio)
      ensures this.e == e && Sending() == Sender(0, 0)
      ensures Receiving() == Receiver(Fragments.FRESH, Playout.Empty(), 0, 0)
      ensures inbox == outbox == []
    {
      this.e := e;
      reassembler := new Fragments.Reassembler();
      playout := new PlayoutBuffer(Ring(e), sampleRate);
      rxPeriod := new Sample[e.fmt.periodFrames * e.fmt.channels](i => []);
      sequence, samplePosition, framesSent, framesReceived, framesRefused := 0, 0, 0, 0, 0;
      outbox, inbox := [], [];
    }

    /**
     * Hand a frame's messages to a link that accepts no more than `accepts` of them.
     */
    method SendFrame(bytes: seq<byte>, frameSequence: u32, accepts: nat) returns (ok: bool)
      modifies this`outbox
      ensures var messages := Fragments.Messages(bytes, frameSequence);
        && (ok <==> |messages| <= accepts)
        && outbox == old(outbox) + if ok then messages else messages[..accepts]
    {
      ghost var messages := Fragments.Messages(bytes, frameSequence);
      var offset, sent := 0, 0;
      assert messages[..0] == [];
      while true
        invariant sent <= |messages| && sent <= accepts
        invariant outbox == old(outbox) + messages[..sent]
        invariant offset == Fragments.Min(sent * Fragments.PAYLOAD_CAP, |bytes|)
        decreases |messages| - sent
      {
        hide Fragments.Fragment, Fragments.FragmentCount;
        MessageStarts(bytes, frameSequence, sent);
        var more, message, next := Fragments.NextFragment(bytes, frameSequence, offset);
        if !more {
          assert messages[..sent] == messages;
          return true;
        }
        if sent == accepts {
          return false;
        }
        outbox := outbox + [message];
        assert messages[..sent + 1] == messages[..sent] + [messages[sent]];
        offset, sent := next, sent + 1;
      }
    }

    /**
     * Send one packed frame. A link that fails part way leaves the counters where they were;
     * a frame no messages can carry is counted as sent, with nothing on the link.
     */
    method TransmitFrame(packed: WireFrame.Frame, accepts: nat) returns (ok: bool)
      modifies this`sequence, this`samplePosition, this`framesSent, this`outbox
      ensures var (s, sent, succeeds) := SteppedFrame(e, old(Sending()), packed, accepts);
        Sending() == s && outbox == old(outbox) + sent && ok == succeeds
      ensures framesSent == old(framesSent) + if ok then 1 else 0
      ensures
        var frame := packed.(sequence := old(sequence));
        WireFrame.Encodable(frame) && WireFrame.EncodedSize(frame) > Fragments.MAX_FRAGMENTS * Fragments.PAYLOAD_CAP ==>
          ok && outbox == old(outbox) && Sending() == Advanced(e, old(Sending())) && framesSent == old(framesSent) + 1
    {
      hide WireFrame.Refusal, WireFrame.Serialize, Fragments.Messages, WireFrame.Encodable;
      var frame := packed.(sequence := sequence);
      WireFrame.RefusedExactly(frame);
      var bytes := WireFrame.Encode(frame);
      if bytes.Failure? {
        return false;
      }
      ok := SendFrame(bytes.value, sequence % SEQUENCES, accepts);
      if ok {
        sequence := (sequence + 1) % POSITIONS;
        samplePosition := (samplePosition + e.fmt.periodFrames) % POSITIONS;
        framesSent := framesSent + 1;
      }
    }

    /**
     * Send one captured period. A link that fails part way leaves the counters where they
     * were, so the next period goes out under the same sequence.
     */
    method StepTransmit(period: seq<Sample>, accepts: nat) returns (ok: bool)
      requires OfSize(e.fmt, period)
      modifies this`sequence, this`samplePosition, this`framesSent, this`outbox
      ensures var (s, sent, succeeds) := Stepped(e, old(Sending()), period, accepts);
        Sending() == s && outbox == old(outbox) + sent && ok == succeeds
      ensures framesSent == old(framesSent) + if ok then 1 else 0
    {
      hide Pack, SteppedFrame;
      var packed := PackPeriod(e, samplePosition, period);
      if packed.Failure? {
        return false;
      }
      ok := TransmitFrame(packed.value, accepts);
    }

    /** The transmit loop, for as many turns as there are periods; a failed step is not repeated. */
    method TransmitLoop(periods: seq<seq<Sample>>, accepts: seq<nat>)
      requires |periods| == |accepts| && AllOfSize(e.fmt, periods)
      modifies this`sequence, this`samplePosition, this`framesSent, this`outbox
      ensures var (s, sent) := Transmitted(e, old(Sending()), periods, accepts);
        Sending() == s && outbox == old(outbox) + sent
    {
      hide Stepped;
      for turn := 0 to |periods|
        invariant var (s, sent) := Transmitted(e, old(Sending()), periods[..turn], accepts[..turn]);
          Sending() == s && outbox == old(outbox) + sent
      {
        assert periods[..turn + 1][..turn] == periods[..turn] && accepts[..turn + 1][..turn] == accepts[..turn];
        var ok := StepTransmit(periods[turn], accepts[turn]);
      }
      assert periods[..|periods|] == periods && accepts[..|accepts|] == accepts;
    }

    /**
     * Feed what waits until a frame is complete, no more than 24 messages. With nothing left a
     * link that is up times out, and one that has failed says so.
     */
    method DrainMessages(linkFailed: bool) returns (ok: bool)
      requires Valid()
      modifies this`inbox, this`framesRefused, reassembler
      ensures playout.Valid()
      ensures var n := Drained(old(Receiving()), old(inbox), MAX_MESSAGES_PER_FRAME);
        && inbox == old(inbox)[n..]
        && Receiving() == FedAll(old(Receiving()), old(inbox)[..n])
      ensures ok <==> !(linkFailed && Dry(old(Receiving()), old(inbox), MAX_MESSAGES_PER_FRAME))
      ensures !ok ==> !reassembler.ready
    {
      hide Fed, Fragments.Fed, FedAll, Drained, Dry;
      ghost var r, waiting := Receiving(), inbox;
      var received := 0;
      ok := true;
      while received < MAX_MESSAGES_PER_FRAME
        invariant received <= MAX_MESSAGES_PER_FRAME && playout.Valid() && !reassembler.ready && ok
        invariant Drains(r, waiting, MAX_MESSAGES_PER_FRAME, Receiving(), inbox, MAX_MESSAGES_PER_FRAME - received)
        invariant unchanged(playout) && unchanged(playout.positions) && unchanged(playout.audio)
      {
        DrainStep(Receiving(), inbox, MAX_MESSAGES_PER_FRAME - received);
        if inbox == [] {
          ok := !linkFailed;
          return;
        }
        ghost var before := Receiving();
        var message := inbox[0];
        inbox := inbox[1..];
        var ours := reassembler.Feed(message);
        if !ours {
          framesRefused := framesRefused + 1;
        }
        assert Receiving() == Fed(before, message) by { FedInPlace(before, message); }
        received := received + 1;
        if reassembler.ready {
          return;
        }
      }
      DrainStep(Receiving(), inbox, 0);
    }

    /** Decode, unpack and hold one complete frame. */
    method HandleFrame(bytes: seq<byte>)
      requires Valid() && bytes != []
      modifies this`framesReceived, this`framesRefused, playout, playout.positions, playout.audio, rxPeriod
      ensures Valid() && Receiving() == Handled(e, old(Receiving()), bytes)
    {
      hide Unpack, WireFrame.Parse, Playout.Push, Playout.Inv, Flatten;
      ReadsWholePeriods(e, bytes);
      var frame := WireFrame.Decode(bytes);
      if frame.Failure? {
        framesRefused := framesRefused + 1;
        return;
      }
      var error := UnpackFrame(e, frame.value, rxPeriod);
      if error.Some? {
        framesRefused := framesRefused + 1;
        return;
      }
      var status := playout.Push(frame.value.samplePosition, Flatten(rxPeriod[..]));
      if status == Playout.Stored || status == Playout.Overrun {
        framesReceived := framesReceived + 1;
      } else {
        framesRefused := framesRefused + 1;
      }
    }

    /** A receiving turn hears eight frames at most, and fails if it comes to ask a link that has failed. */
    method ReceiveIntoBuffer(linkFailed: bool) returns (ok: bool)
      requires Valid()
      modifies this`inbox, this`framesReceived, this`framesRefused, reassembler,
        playout, playout.positions, playout.audio, rxPeriod
      ensures Valid()
      ensures (Receiving(), inbox) == Turn(e, old(Receiving()), old(inbox), MAX_FRAMES_PER_TURN)
      ensures ok <==> !(linkFailed && Asks(e, old(Receiving()), old(inbox), MAX_FRAMES_PER_TURN))
    {
      hide Drained, Dry, FedAll, Handled, Playout.Inv;
      ghost var whole := Turn(e, Receiving(), inbox, MAX_FRAMES_PER_TURN);
      ghost var asks := Asks(e, Receiving(), inbox, MAX_FRAMES_PER_TURN);
      for count := 0 to MAX_FRAMES_PER_TURN
        invariant Valid()
        invariant whole == Turn(e, Receiving(), inbox, MAX_FRAMES_PER_TURN - count)
        invariant asks == Asks(e, Receiving(), inbox, MAX_FRAMES_PER_TURN - count)
      {
        DryIsNotReady(Receiving(), inbox);
        ok := DrainMessages(linkFailed);
        if !ok {
          return;
        }
        if !reassembler.ready {
          return;
        }
        var bytes := reassembler.TakeFrame();
        if bytes.value == [] {
          NothingToHandle(e, Receiving());
          return;
        }
        HandleFrame(bytes.value);
      }
      ok := true;
    }
  }

  /** What a drain makes of the receiver from here is what it makes of it from there. */
  ghost predicate Drains(r: Receiver, inbox: seq<seq<byte>>, budget: nat,
                         t: Receiver, rest: seq<seq<byte>>, left: nat) {
    var (n, m) := (Drained(r, inbox, budget), Drained(t, rest, left));
    && inbox[n..] == rest[m..] && FedAll(r, inbox[..n]) == FedAll(t, rest[..m])
    && Dry(r, inbox, budget) == Dry(t, rest, left)
  }

  lemma FedInPlace(r: Receiver, message: seq<byte>)
    ensures Fed(r, message) == (var (s, ours) := Fragments.Fed(r.assembly, message);
      r.(assembly := s, refused := r.refused + if ours then 0 else 1))
  {
  }

  /** One message of a drain. */
  lemma DrainStep(r: Receiver, inbox: seq<seq<byte>>, budget: nat)
    ensures budget == 0 || inbox == [] ==>
      && Drained(r, inbox, budget) == 0 && inbox[0..] == inbox && FedAll(r, inbox[..0]) == r
      && (Dry(r, inbox, budget) <==> budget > 0)
    ensures budget > 0 && inbox != [] ==>
      var (n, t) := (Drained(r, inbox, budget), Fed(r, inbox[0]));
      if t.assembly.ready then
        n == 1 && FedAll(r, inbox[..n]) == t && !Dry(r, inbox, budget)
      else Drains(r, inbox, budget, t, inbox[1..], budget - 1)
  {
    hide Fed;
    var n := Drained(r, inbox, budget);
    if budget > 0 && inbox != [] {
      assert inbox[..n][0] == inbox[0] && inbox[..n][1..] == inbox[1..][..n - 1];
      assert inbox[1..][n - 1..] == inbox[n..];
      if Fed(r, inbox[0]).assembly.ready {
        assert inbox[..n][1..] == [];
      }
    }
  }

  lemma DryIsNotReady(r: Receiver, inbox: seq<seq<byte>>)
    requires !r.assembly.ready
    ensures Dry(r, inbox, MAX_MESSAGES_PER_FRAME) ==>
      !FedAll(r, inbox[..Drained(r, inbox, MAX_MESSAGES_PER_FRAME)]).assembly.ready
  {
    DryIff(r, inbox, MAX_MESSAGES_PER_FRAME);
  }

  lemma NothingToHandle(e: Setup, r: Receiver)
    ensures Handled(e, r, []) == r
  {
  }

  lemma MessageStarts(bytes: seq<byte>, sequence: u32, k: nat)
    requires k <= Fragments.FragmentCount(|bytes|)
    ensures var offset := Fragments.Min(k * Fragments.PAYLOAD_CAP, |bytes|);
      && (offset < |bytes| && Fragments.FragmentCount(|bytes|) > 0 <==> k < Fragments.FragmentCount(|bytes|))
      && (k < Fragments.FragmentCount(|bytes|) ==>
            && offset % Fragments.PAYLOAD_CAP == 0 && offset / Fragments.PAYLOAD_CAP == k
            && Fragments.Messages(bytes, sequence)[k] == Fragments.Fragment(bytes, sequence, k)
            && Fragments.Min(offset + Fragments.PAYLOAD_CAP, |bytes|)
               == Fragments.Min((k + 1) * Fragments.PAYLOAD_CAP, |bytes|))
  {
    hide Fragments.Fragment;
  }
}
