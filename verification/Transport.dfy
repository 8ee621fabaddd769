/**
 * The path of one period through the whole transport: packed, written, cut into messages,
 * carried by a link that loses some, joined, read, unpacked and held by sample position.
 */
module Transport {
  import opened Bytes
  import opened BlockMap
  import opened Packing
  import Fragments
  import Playout
  import WireFrame

  /** One engine's device, map, link and playout capacity; both ends share the configuration. */
  datatype Setup = Setup(fmt: Format, config: Config, linkId: u16, slots: nat)

  function PeriodBytes(fmt: Format): nat {
    fmt.periodFrames * fmt.channels * fmt.sampleBytes
  }

  function Ring(e: Setup): Playout.Geometry {
    Playout.Geometry(e.slots, e.fmt.periodFrames, PeriodBytes(e.fmt))
  }

  const SEQUENCES := 0x1_0000_0000
  const POSITIONS := 0x1_0000_0000_0000_0000

  // ---------------------------------------------------------------------------
  // The sender.

  datatype Sender = Sender(sequence: u64, position: u64)

  /** The frame of one period, or why there is none. */
  function Framed(e: Setup, s: Sender, period: seq<Sample>): Result<WireFrame.Frame, EngineError>
    requires |period| == e.fmt.periodFrames * e.fmt.channels
  {
    match Pack(e.fmt, e.config.blocks, e.linkId, s.position, period)
    case Failure(why) => Failure(why)
    case Success(f) => Success(f.(sequence := s.sequence))
  }

  /** What is handed to the link for a frame: its octets, under the low half of its sequence. */
  function OnLink(f: WireFrame.Frame): Fragments.Sent {
    Fragments.Sent(WireFrame.Serialize(f), f.sequence % SEQUENCES)
  }

  function Advanced(e: Setup, s: Sender): Sender {
    Sender((s.sequence + 1) % POSITIONS, (s.position + e.fmt.periodFrames) % POSITIONS)
  }

  predicate OfSize(fmt: Format, period: seq<Sample>) {
    |period| == fmt.periodFrames * fmt.channels
  }

  /**
   * A packed frame over a link that accepts no more than `accepts` messages: the sender after
   * it, what the link was given, and whether it was sent.
   */
  function SteppedFrame(e: Setup, s: Sender, packed: WireFrame.Frame, accepts: nat): (Sender, seq<seq<byte>>, bool) {
    var frame := packed.(sequence := s.sequence);
    if WireFrame.Refusal(frame).Some? then (s, [], false)
    else
      var sent := OnLink(frame);
      var messages := Fragments.Messages(sent.frame, sent.sequence);
      if |messages| <= accepts then (Advanced(e, s), messages, true) else (s, messages[..accepts], false)
  }

  /** One transmit step. */
  function Stepped(e: Setup, s: Sender, period: seq<Sample>, accepts: nat): (Sender, seq<seq<byte>>, bool)
    requires OfSize(e.fmt, period)
  {
    match Pack(e.fmt, e.config.blocks, e.linkId, s.position, period)
    case Failure(_) => (s, [], false)
    case Success(packed) => SteppedFrame(e, s, packed, accepts)
  }

  ghost predicate AllOfSize(fmt: Format, periods: seq<seq<Sample>>) {
    forall i :: 0 <= i < |periods| ==> OfSize(fmt, periods[i])
  }

  /** Step after step, failed ones included. */
  ghost function Transmitted(e: Setup, s: Sender, periods: seq<seq<Sample>>, accepts: seq<nat>)
    : (Sender, seq<seq<byte>>)
    requires |periods| == |accepts| && AllOfSize(e.fmt, periods)
    decreases |periods|
  {
    if periods == [] then (s, [])
    else
      var n := |periods| - 1;
      var (t, before) := Transmitted(e, s, periods[..n], accepts[..n]);
      var (u, sent, _) := Stepped(e, t, periods[n], accepts[n]);
      (u, before + sent)
  }

  // ---------------------------------------------------------------------------
  // The receiver.

  datatype Receiver = Receiver(assembly: Fragments.Assembly, playout: Playout.Playout<seq<byte>>,
                               received: nat, refused: nat)

  /** What a frame's octets ask the playout buffer to hold. */
  datatype Arrival = Nothing | Refused | Push(position: nat, period: seq<byte>)

  function Read(e: Setup, bytes: seq<byte>): Arrival {
    if bytes == [] then Nothing
    else
      match WireFrame.Parse(bytes)
      case Failure(_) => Refused
      case Success(f) =>
        match Unpack(e.fmt, e.config.blocks, e.linkId, f)
        case Failure(_) => Refused
        case Success(period) => Push(f.samplePosition, Flatten(period))
  }

  /** A complete frame handled. */
  function Handled(e: Setup, r: Receiver, bytes: seq<byte>): Receiver {
    match Read(e, bytes)
    case Nothing => r
    case Refused => r.(refused := r.refused + 1)
    case Push(position, period) =>
      var (playout, status) := Playout.Push(Ring(e), r.playout, position, period, |period|);
      if status.Stored? || status.Overrun? then r.(playout := playout, received := r.received + 1)
      else r.(playout := playout, refused := r.refused + 1)
  }

  /** One message fed to the reassembler; a frame it completes is not yet taken. */
  function Fed(r: Receiver, message: seq<byte>): Receiver {
    var (s, ours) := Fragments.Fed(r.assembly, message);
    r.(assembly := s, refused := r.refused + if ours then 0 else 1)
  }

  function FedAll(r: Receiver, messages: seq<seq<byte>>): Receiver
    decreases |messages|
  {
    if messages == [] then r else FedAll(Fed(r, messages[0]), messages[1..])
  }

  /** The frame, if one is complete, taken and handled. */
  function Settled(e: Setup, r: Receiver): Receiver {
    var (s, frame) := Fragments.Taken(r.assembly);
    if frame.None? then r else Handled(e, r.(assembly := s), frame.value)
  }

  /** A run of messages, every complete frame handled before the next message is fed. */
  function Heard(e: Setup, r: Receiver, messages: seq<seq<byte>>): Receiver
    decreases |messages|
  {
    if messages == [] then r else Heard(e, Settled(e, Fed(r, messages[0])), messages[1..])
  }

  const MAX_MESSAGES_PER_FRAME := 24
  const MAX_FRAMES_PER_TURN := 8

  /** How many of the waiting messages are fed before a frame is complete or the budget is spent. */
  function Drained(r: Receiver, inbox: seq<seq<byte>>, budget: nat): (n: nat)
    ensures n <= |inbox| && n <= budget
    decreases |inbox|
  {
    if budget == 0 || inbox == [] then 0
    else if Fed(r, inbox[0]).assembly.ready then 1
    else 1 + Drained(Fed(r, inbox[0]), inbox[1..], budget - 1)
  }

  /** Everything that waits has been fed, and the drain would ask the link for more. */
  function Dry(r: Receiver, inbox: seq<seq<byte>>, budget: nat): bool
    decreases |inbox|
  {
    budget != 0
    && (inbox == [] || (!Fed(r, inbox[0]).assembly.ready && Dry(Fed(r, inbox[0]), inbox[1..], budget - 1)))
  }

  lemma {:induction false} DryIff(r: Receiver, inbox: seq<seq<byte>>, budget: nat)
    requires !r.assembly.ready
    ensures Dry(r, inbox, budget) <==>
      && Drained(r, inbox, budget) == |inbox| < budget
      && !FedAll(r, inbox[..Drained(r, inbox, budget)]).assembly.ready
    decreases |inbox|
  {
    hide Fed;
    var n := Drained(r, inbox, budget);
    if budget > 0 && inbox != [] {
      var t := Fed(r, inbox[0]);
      assert inbox[..n][0] == inbox[0] && inbox[..n][1..] == inbox[1..][..n - 1];
      if t.assembly.ready {
        assert inbox[..1][1..] == [];
      } else {
        DryIff(t, inbox[1..], budget - 1);
      }
    }
  }

  /** A receiving turn: what has become of the receiver, and what still waits. */
  function Turn(e: Setup, r: Receiver, inbox: seq<seq<byte>>, frames: nat): (Receiver, seq<seq<byte>>)
    decreases frames, |inbox|
  {
    if frames == 0 then (r, inbox)
    else
      var n := Drained(r, inbox, MAX_MESSAGES_PER_FRAME);
      var t := FedAll(r, inbox[..n]);
      if !t.assembly.ready || t.assembly.buffer == [] then (Settled(e, t), inbox[n..])
      else Turn(e, Settled(e, t), inbox[n..], frames - 1)
  }

  /** A turn that comes to ask the link for more than there is; a link that has failed then says so. */
  function Asks(e: Setup, r: Receiver, inbox: seq<seq<byte>>, frames: nat): bool
    decreases frames
  {
    frames != 0
    && (Dry(r, inbox, MAX_MESSAGES_PER_FRAME)
        || (var n := Drained(r, inbox, MAX_MESSAGES_PER_FRAME);
            var t := FedAll(r, inbox[..n]);
            t.assembly.ready && t.assembly.buffer != [] && Asks(e, Settled(e, t), inbox[n..], frames - 1)))
  }

  // ---------------------------------------------------------------------------
  // A turn hears a prefix of what waits, whatever its budgets.

  lemma {:induction false} HeardAppend(e: Setup, r: Receiver, a: seq<seq<byte>>, b: seq<seq<byte>>)
    ensures Heard(e, r, a + b) == Heard(e, Heard(e, r, a), b)
    decreases |a|
  {
    if a == [] {
      assert a + b == b;
    } else {
      assert (a + b)[0] == a[0] && (a + b)[1..] == a[1..] + b;
      HeardAppend(e, Settled(e, Fed(r, a[0])), a[1..], b);
    }
  }

  lemma {:induction false} DrainHears(e: Setup, r: Receiver, inbox: seq<seq<byte>>, budget: nat)
    requires !r.assembly.ready
    ensures var n := Drained(r, inbox, budget);
      Settled(e, FedAll(r, inbox[..n])) == Heard(e, r, inbox[..n])
    ensures !Settled(e, FedAll(r, inbox[..Drained(r, inbox, budget)])).assembly.ready
    decreases |inbox|
  {
    hide Fed, Read;
    var n := Drained(r, inbox, budget);
    if n > 0 {
      var t := Fed(r, inbox[0]);
      assert inbox[..n][0] == inbox[0] && inbox[..n][1..] == inbox[1..][..n - 1];
      if t.assembly.ready {
        assert inbox[..n][1..] == [];
      } else {
        DrainHears(e, t, inbox[1..], budget - 1);
      }
    }
  }

  /** How many of the waiting messages a turn hears. */
  function TurnLength(e: Setup, r: Receiver, inbox: seq<seq<byte>>, frames: nat): (n: nat)
    ensures n <= |inbox|
    decreases frames, |inbox|
  {
    if frames == 0 then 0
    else
      var n := Drained(r, inbox, MAX_MESSAGES_PER_FRAME);
      var t := FedAll(r, inbox[..n]);
      if !t.assembly.ready || t.assembly.buffer == [] then n
      else n + TurnLength(e, Settled(e, t), inbox[n..], frames - 1)
  }

  /**
   * However a turn's budgets cut the waiting messages, it does to the receiver what hearing
   * a prefix of them one by one does, and leaves the rest; no complete frame stays behind.
   */
  lemma {:induction false} TurnHearsAPrefix(e: Setup, r: Receiver, inbox: seq<seq<byte>>, frames: nat)
    requires !r.assembly.ready
    ensures var n := TurnLength(e, r, inbox, frames);
      Turn(e, r, inbox, frames) == (Heard(e, r, inbox[..n]), inbox[n..])
    ensures !Turn(e, r, inbox, frames).0.assembly.ready
    decreases frames
  {
    hide Fed, Settled, FedAll;
    if frames == 0 {
      assert inbox[..0] == [] && inbox[0..] == inbox;
    } else {
      var n := Drained(r, inbox, MAX_MESSAGES_PER_FRAME);
      DrainHears(e, r, inbox, MAX_MESSAGES_PER_FRAME);
      var t := FedAll(r, inbox[..n]);
      if t.assembly.ready && t.assembly.buffer != [] {
        var m := TurnLength(e, Settled(e, t), inbox[n..], frames - 1);
        TurnHearsAPrefix(e, Settled(e, t), inbox[n..], frames - 1);
        HeardAppend(e, r, inbox[..n], inbox[n..][..m]);
        assert inbox[..n] + inbox[n..][..m] == inbox[..n + m] && inbox[n..][m..] == inbox[n + m..];
      }
    }
  }

  // ---------------------------------------------------------------------------
  // What is handed over is always a whole period.

  lemma {:induction false} PlacedWide(fmt: Format, channels: seq<int>, wireChannels: nat, data: seq<byte>,
                                      p: seq<Sample>, frame: nat, slot: nat)
    requires |p| == fmt.periodFrames * fmt.channels && AllWide(p, fmt.sampleBytes)
    requires frame <= fmt.periodFrames && slot <= |channels|
    ensures var r := PlaceFrom(fmt, channels, wireChannels, data, p, frame, slot);
      r.Success? ==> AllWide(r.value, fmt.sampleBytes)
    decreases fmt.periodFrames - frame, |channels| - slot
  {
    hide At;
    if frame == fmt.periodFrames {
    } else if slot == |channels| {
      PlacedWide(fmt, channels, wireChannels, data, p, frame + 1, 0);
    } else if 0 <= channels[slot] < fmt.channels {
      var from := (frame * wireChannels + slot) * fmt.sampleBytes;
      if from + fmt.sampleBytes <= |data| {
        PlacedWide(fmt, channels, wireChannels, data,
                   p[At(fmt, frame, channels[slot]) := data[from..from + fmt.sampleBytes]], frame, slot + 1);
      }
    }
  }

  lemma {:induction false} UnpackedWide(fmt: Format, blocks: seq<BlockConfig>, wire: seq<WireFrame.Block>,
                                        filled: set<int>, p: seq<Sample>)
    requires |p| == fmt.periodFrames * fmt.channels && AllWide(p, fmt.sampleBytes)
    ensures var r := UnpackBlocks(fmt, blocks, wire, filled, p);
      r.Success? ==> AllWide(r.value, fmt.sampleBytes)
  {
    hide PlaceFrom, AllWide;
    if wire != [] && Packing.BlockRefusal(fmt, blocks, wire[0], filled).None? {
      var channels := blocks[wire[0].index].channels;
      PlacedWide(fmt, channels, wire[0].channels, wire[0].data, p, 0, 0);
      var q := PlaceFrom(fmt, channels, wire[0].channels, wire[0].data, p, 0, 0);
      if q.Success? {
        UnpackedWide(fmt, blocks, wire[1..], filled + {wire[0].index}, q.value);
      }
    }
  }

  /**
   * Octets ask the buffer to hold a period if and only if they decode to a frame that unpacks
   * here, of our link; it is then for the frame's own position. No octets ask for nothing, and
   * all others are refused.
   */
  lemma ReadsExactly(e: Setup, bytes: seq<byte>)
    requires Known(e.fmt)
    ensures Read(e, bytes).Nothing? <==> bytes == []
    ensures Read(e, bytes).Push? <==>
      && WireFrame.Parse(bytes).Success?
      && Unpackable(e.fmt, e.config.blocks, e.linkId, WireFrame.Parse(bytes).value)
    ensures Read(e, bytes).Push? ==>
      var frame, asked := WireFrame.Parse(bytes).value, Read(e, bytes);
      var period := Unpack(e.fmt, e.config.blocks, e.linkId, frame);
      && frame.linkId == e.linkId && asked.position == frame.samplePosition
      && period.Success? && asked.period == Flatten(period.value)
  {
    hide Unpack, Flatten;
    NoFrameInNothing(bytes);
    hide WireFrame.Parse;
    var f := WireFrame.Parse(bytes);
    if f.Success? {
      UnpacksExactly(e.fmt, e.config.blocks, e.linkId, f.value);
    }
  }

  lemma NoFrameInNothing(bytes: seq<byte>)
    ensures WireFrame.Parse(bytes).Success? ==> bytes != []
  {
    hide WireFrame.ParseBlocks;
  }

  /** The buffer never has cause to refuse an unpacked frame for its length. */
  lemma ReadsWholePeriods(e: Setup, bytes: seq<byte>)
    ensures Read(e, bytes).Push? ==> |Read(e, bytes).period| == PeriodBytes(e.fmt)
  {
    hide UnpackBlocks, WireFrame.Parse, Flatten;
    var f := WireFrame.Parse(bytes);
    if f.Success? {
      UnpackedWide(e.fmt, e.config.blocks, f.value.blocks, {}, Silence(e.fmt));
      var period := Unpack(e.fmt, e.config.blocks, e.linkId, f.value);
      if period.Success? {
        FlattenSize(period.value, e.fmt.sampleBytes);
      }
    }
  }
}
