/**
 * Frames cut into messages for an in-order link that may lose messages, and the
 * reassembler that must neither join what was never one frame nor lose what arrived whole.
 */
module Fragments {
  import opened Bytes

  const MAX_MESSAGE_BYTES := 1316
  const FRAGMENT_HEADER_BYTES := 8
  const PAYLOAD_CAP := MAX_MESSAGE_BYTES - FRAGMENT_HEADER_BYTES
  const MAX_FRAGMENTS := 255

  datatype FragmentHeader = FragmentHeader(frameSequence: u32, index: byte, count: byte)

  /** 'A', 'F', then the fields; the sequence is little-endian. */
  function HeaderBytes(h: FragmentHeader): (s: seq<byte>)
    ensures |s| == FRAGMENT_HEADER_BYTES
  {
    [0x41, 0x46] + LittleEndian(h.frameSequence, 4) + [h.index, h.count]
  }

  function ReadHeader(data: seq<byte>): Option<FragmentHeader> {
    if |data| < FRAGMENT_HEADER_BYTES then None
    else if data[0] != 0x41 || data[1] != 0x46 then None
    else if data[7] == 0 || data[6] >= data[7] then None
    else
      WidthsAsPowers();
      Some(FragmentHeader(FromLittleEndian(data[2..6]), data[6], data[7]))
  }

  lemma HeaderReadsBack(h: FragmentHeader, payload: seq<byte>)
    requires h.index < h.count
    ensures ReadHeader(HeaderBytes(h) + payload) == Some(h)
  {
    WidthsAsPowers();
    ReadBackLittleEndian(h.frameSequence, 4);
    assert (HeaderBytes(h) + payload)[2..6] == LittleEndian(h.frameSequence, 4);
  }

  /** A fragment header octet by octet; any other eight octets, or fewer, are no header. */
  lemma HeaderLies(h: FragmentHeader)
    ensures HeaderBytes(h) == ['A' as int, 'F' as int, h.frameSequence % 256, h.frameSequence / 0x100 % 256,
                               h.frameSequence / 0x1_0000 % 256, h.frameSequence / 0x100_0000, h.index, h.count]
  {
    ReverseOrder(h.frameSequence);
    hide LittleEndian;
  }

  /** The sequence a message claims. */
  function Claimed(data: seq<byte>): int
    requires |data| >= 8
  {
    var a: int, b: int, c: int, d: int := data[2], data[3], data[4], data[5];
    a + b * 0x100 + c * 0x1_0000 + d * 0x100_0000
  }

  lemma HeaderIsRead(data: seq<byte>)
    ensures var h := ReadHeader(data);
      && (h.Some? <==> |data| >= 8 && data[0] == 'A' as int && data[1] == 'F' as int && data[6] < data[7])
      && (h.Some? ==> h.value == FragmentHeader(Claimed(data), data[6], data[7]))
  {
    if |data| >= 8 {
      var four := data[2..6];
      assert four[1..] == data[3..6] && four[1..][1..] == data[4..6] && four[1..][1..][1..] == data[5..6];
      assert FromLittleEndian(four) == four[0] + 256 * FromLittleEndian(four[1..]);
      assert FromLittleEndian(four[1..]) == four[1..][0] + 256 * FromLittleEndian(four[1..][1..]);
      assert FromLittleEndian(four[1..][1..])
          == four[1..][1..][0] + 256 * FromLittleEndian(four[1..][1..][1..]);
      assert four[1..][1..][1..][1..] == [];
      assert FromLittleEndian(four) == Claimed(data);
      hide FromLittleEndian;
    }
  }

  // ---------------------------------------------------------------------------
  // Cutting.

  function Pieces(size: nat): nat {
    (size + PAYLOAD_CAP - 1) / PAYLOAD_CAP
  }

  /** How many messages a frame becomes; zero when it cannot be sent at all. */
  function FragmentCount(size: nat): (n: nat)
    ensures n <= MAX_FRAGMENTS
    ensures n > 0 <==> 0 < size <= MAX_FRAGMENTS * PAYLOAD_CAP
  {
    if size == 0 || Pieces(size) > MAX_FRAGMENTS then 0 else Pieces(size)
  }

  function Min(a: nat, b: nat): nat {
    if a < b then a else b
  }

  /** Message `index` of the frame. */
  function Fragment(frame: seq<byte>, sequence: u32, index: nat): seq<byte>
    requires index < FragmentCount(|frame|)
  {
    HeaderBytes(FragmentHeader(sequence, index, FragmentCount(|frame|)))
    + frame[index * PAYLOAD_CAP..Min((index + 1) * PAYLOAD_CAP, |frame|)]
  }

  function Messages(frame: seq<byte>, sequence: u32): (ms: seq<seq<byte>>)
    ensures |ms| == FragmentCount(|frame|)
  {
    seq(FragmentCount(|frame|), i requires 0 <= i < FragmentCount(|frame|) => Fragment(frame, sequence, i))
  }

  /**
   * Every message but the last is 1316 octets, and the last no more; together they carry the frame,
   * 1308 octets each; a frame of up to 333540 octets has as many as that takes.
   */
  lemma MessagesFill(frame: seq<byte>, sequence: u32, k: nat)
    requires k < |Messages(frame, sequence)|
    ensures var (ms, n) := (Messages(frame, sequence), |Messages(frame, sequence)|);
      && n <= 255 && 1308 * (n - 1) < |frame| <= 1308 * n
      && 8 < |ms[k]| <= 1316 && (k < n - 1 ==> |ms[k]| == 1316)
      && ms[k][8..] == frame[1308 * k..if k < n - 1 then 1308 * (k + 1) else |frame|]
      && ms[k][..8] == ['A' as int, 'F' as int, sequence % 256, sequence / 0x100 % 256,
                        sequence / 0x1_0000 % 256, sequence / 0x100_0000, k, n]
  {
    var h := FragmentHeader(sequence, k, FragmentCount(|frame|));
    HeaderLies(h);
    var piece := frame[1308 * k..Min(1308 * (k + 1), |frame|)];
    assert Messages(frame, sequence)[k] == HeaderBytes(h) + piece;
    hide HeaderBytes;
    assert (HeaderBytes(h) + piece)[8..] == piece && (HeaderBytes(h) + piece)[..8] == HeaderBytes(h);
  }

  /** A frame has messages if and only if it has octets, and 333540 at most. */
  lemma SentIff(frame: seq<byte>, sequence: u32)
    ensures Messages(frame, sequence) != [] <==> 0 < |frame| <= 333540
  {
  }

  lemma OnTheGrid(size: nat, offset: nat)
    requires offset < size && FragmentCount(size) > 0
    ensures offset / PAYLOAD_CAP < FragmentCount(size) == Pieces(size)
    ensures offset % PAYLOAD_CAP == 0 ==>
      var k := offset / PAYLOAD_CAP;
      k * PAYLOAD_CAP == offset && (k + 1) * PAYLOAD_CAP == offset + PAYLOAD_CAP
  {
  }

  /** The message that starts at `offset`, and where the next one starts. */
  method NextFragment(frame: seq<byte>, sequence: u32, offset: nat)
    returns (more: bool, message: seq<byte>, next: nat)
    ensures more <==> offset < |frame| && FragmentCount(|frame|) > 0
    ensures !more ==> next == offset
    ensures more && offset % PAYLOAD_CAP == 0 ==>
      message == Fragment(frame, sequence, offset / PAYLOAD_CAP) && next == Min(offset + PAYLOAD_CAP, |frame|)
  {
    if offset >= |frame| {
      return false, [], offset;
    }
    var count := (|frame| + PAYLOAD_CAP - 1) / PAYLOAD_CAP;
    if count == 0 || count > 255 {
      return false, [], offset;
    }
    var index := offset / PAYLOAD_CAP;
    OnTheGrid(|frame|, offset);
    hide HeaderBytes, FragmentCount;
    var remaining := |frame| - offset;
    var take := if remaining < PAYLOAD_CAP then remaining else PAYLOAD_CAP;
    return true,
      HeaderBytes(FragmentHeader(sequence, index, count)) + frame[offset..offset + take],
      offset + take;
  }

  // ---------------------------------------------------------------------------
  // Joining.

  datatype Assembly = Assembly(
    buffer: seq<byte>, frameSequence: u32, count: nat, nextIndex: nat,
    assembling: bool, ready: bool, dropped: nat)

  const FRESH := Assembly([], 0, 0, 0, false, false, 0)

  function Abandoned(s: Assembly): Assembly {
    s.(buffer := [], assembling := false, ready := false, count := 0, nextIndex := 0)
  }

  /** An open frame that this fragment shows can never be whole is given up and counted. */
  function Resync(s: Assembly, h: FragmentHeader): Assembly {
    if s.assembling && (h.frameSequence != s.frameSequence || h.index != s.nextIndex)
    then Abandoned(s).(dropped := s.dropped + 1)
    else s
  }

  function Opened(s: Assembly, h: FragmentHeader): Assembly {
    s.(assembling := true, frameSequence := h.frameSequence, count := h.count,
       nextIndex := 0, buffer := [], ready := false)
  }

  function Extended(s: Assembly, payload: seq<byte>): Assembly {
    var next := s.nextIndex + 1;
    s.(buffer := s.buffer + payload, nextIndex := next,
       ready := s.ready || next == s.count, assembling := s.assembling && next != s.count)
  }

  /** What one fragment does; false when its count contradicts the open frame's. */
  function Joined(s: Assembly, h: FragmentHeader, payload: seq<byte>): (Assembly, bool) {
    var t := Resync(s, h);
    if !t.assembling then
      if h.index != 0 then (t, true) else (Extended(Opened(t, h), payload), true)
    else if h.count != t.count then (Abandoned(t), false)
    else (Extended(t, payload), true)
  }

  /** What one message does; false when it is not ours. */
  function Fed(s: Assembly, data: seq<byte>): (Assembly, bool) {
    if data == [] then (s, true) else
    match ReadHeader(data)
    case None => (Abandoned(s), false)
    case Some(h) => Joined(s, h, data[FRAGMENT_HEADER_BYTES..])
  }

  function Taken(s: Assembly): (Assembly, Option<seq<byte>>) {
    if s.ready then (Abandoned(s), Some(s.buffer)) else (s, None)
  }

  /** The message goes on with the frame under way, but for its count. */
  ghost predicate Contradicts(s: Assembly, data: seq<byte>)
    requires |data| >= 8
  {
    s.assembling && Claimed(data) == s.frameSequence && data[6] == s.nextIndex && data[7] != s.count
  }

  /**
   * A message is refused if and only if it has octets and is no fragment, or its count contradicts
   * the frame it goes on with; what was joined is then gone, and nothing is counted. A message
   * without octets changes nothing.
   */
  lemma RefusedExactly(s: Assembly, data: seq<byte>)
    ensures var (t, ours) := Fed(s, data);
      && (!ours <==> data != [] && !(|data| >= 8 && data[0] == 'A' as int && data[1] == 'F' as int
                                     && data[6] < data[7] && !Contradicts(s, data)))
      && (!ours ==> t == s.(buffer := [], count := 0, nextIndex := 0, assembling := false, ready := false))
      && (data == [] ==> t == s)
  {
    HeaderIsRead(data);
    hide ReadHeader, Claimed;
  }

  class Reassembler {
    var buffer: seq<byte>
    var frameSequence: u32
    var count: nat
    var nextIndex: nat
    var assembling: bool
    var ready: bool
    var dropped: nat

    ghost function State(): Assembly
      reads this
    {
      Assembly(buffer, frameSequence, count, nextIndex, assembling, ready, dropped)
    }

    constructor ()
      ensures State() == FRESH
    {
      buffer, frameSequence, count, nextIndex := [], 0, 0, 0;
      assembling, ready, dropped := false, false, 0;
    }

    method Abandon()
      modifies this
      ensures State() == Abandoned(old(State()))
    {
      buffer, assembling, ready, count, nextIndex := [], false, false, 0, 0;
    }

    method Feed(data: seq<byte>) returns (ours: bool)
      modifies this
      ensures (State(), ours) == Fed(old(State()), data)
    {
      if data == [] {
        return true;
      }
      var header := ReadHeader(data);
      if header.None? {
        Abandon();
        return false;
      }
      var h := header.value;
      if assembling && h.frameSequence == frameSequence && h.index != nextIndex {
        Abandon();
        dropped := dropped + 1;
      }
      if assembling && h.frameSequence != frameSequence {
        Abandon();
        dropped := dropped + 1;
      }
      if !assembling {
        if h.index != 0 {
          return true;
        }
        assembling, frameSequence, count, nextIndex := true, h.frameSequence, h.count, 0;
        buffer, ready := [], false;
      } else if h.count != count {
        Abandon();
        return false;
      }
      if h.index != nextIndex {
        return true;
      }
      buffer := buffer + data[FRAGMENT_HEADER_BYTES..];
      nextIndex := nextIndex + 1;
      if nextIndex == count {
        ready, assembling := true, false;
      }
      return true;
    }

    method TakeFrame() returns (frame: Option<seq<byte>>)
      modifies this
      ensures (State(), frame) == Taken(old(State()))
    {
      if !ready {
        return None;
      }
      frame := Some(buffer);
      buffer, ready, count, nextIndex, assembling := [], false, 0, 0, false;
    }
  }

  // ---------------------------------------------------------------------------
  // A run: every message fed, every ready frame taken at once.

  function Received(s: Assembly, messages: seq<seq<byte>>): (r: (Assembly, seq<seq<byte>>))
    decreases |messages|
  {
    if messages == [] then (s, [])
    else
      var (t, frame) := Taken(Fed(s, messages[0]).0);
      var (u, frames) := Received(t, messages[1..]);
      (u, if frame.Some? then [frame.value] + frames else frames)
  }

  lemma {:induction false} ReceivedAppend(s: Assembly, a: seq<seq<byte>>, b: seq<seq<byte>>)
    ensures Received(s, a + b) ==
      (var (t, x) := Received(s, a); var (u, y) := Received(t, b); (u, x + y))
    decreases |a|
  {
    if a == [] {
      assert a + b == b;
      assert [] + Received(s, b).1 == Received(s, b).1;
    } else {
      assert (a + b)[0] == a[0] && (a + b)[1..] == a[1..] + b;
      var (t, frame) := Taken(Fed(s, a[0]).0);
      ReceivedAppend(t, a[1..], b);
      if frame.Some? {
        var (u, x) := Received(t, a[1..]);
        var y := Received(u, b).1;
        assert [frame.value] + (x + y) == ([frame.value] + x) + y;
      }
    }
  }

  /** The messages the link lets through. */
  function Kept<T>(messages: seq<T>, arrives: seq<bool>): seq<T>
    requires |messages| == |arrives|
  {
    if messages == [] then []
    else (if arrives[0] then [messages[0]] else []) + Kept(messages[1..], arrives[1..])
  }

  datatype Sent = Sent(frame: seq<byte>, sequence: u32)

  ghost predicate Sendable(f: Sent) {
    FragmentCount(|f.frame|) > 0
  }

  ghost predicate All(arrives: seq<bool>) {
    forall i :: 0 <= i < |arrives| ==> arrives[i]
  }

  /** The frame's messages from number `k` on. */
  function Tail(f: Sent, k: nat): (ms: seq<seq<byte>>)
    requires k <= FragmentCount(|f.frame|)
    ensures |ms| == FragmentCount(|f.frame|) - k
  {
    Messages(f.frame, f.sequence)[k..]
  }

  /** Frames given up so far and, if one is open, that one: what has not been delivered. */
  function Undelivered(s: Assembly): nat {
    s.dropped + (if s.assembling then 1 else 0)
  }

  ghost predicate OnTrack(s: Assembly, f: Sent, k: nat) {
    && s.assembling && !s.ready && s.frameSequence == f.sequence
    && s.count == FragmentCount(|f.frame|) && s.nextIndex == k
    && k * PAYLOAD_CAP <= |f.frame| && s.buffer == f.frame[..k * PAYLOAD_CAP]
  }

  /** Between frames, or inside one: what every reassembler is whose ready frames are taken. */
  ghost predicate Midway(s: Assembly) {
    !s.ready && (s.assembling ==> 1 <= s.nextIndex < s.count)
  }

  /** A frame is open that nothing in a fragment header tells from `f`. */
  ghost predicate Holds(s: Assembly, f: Sent) {
    s.assembling && s.frameSequence == f.sequence && s.count == FragmentCount(|f.frame|)
  }

  lemma TailStep(f: Sent, k: nat)
    requires k < FragmentCount(|f.frame|)
    ensures Tail(f, k)[0] == Fragment(f.frame, f.sequence, k)
    ensures Tail(f, k)[1..] == Tail(f, k + 1)
    ensures k * PAYLOAD_CAP < |f.frame|
    ensures k + 1 < FragmentCount(|f.frame|) ==> (k + 1) * PAYLOAD_CAP < |f.frame|
    ensures k + 1 == FragmentCount(|f.frame|) ==> (k + 1) * PAYLOAD_CAP >= |f.frame|
  {
  }

  function Piece(f: Sent, k: nat): seq<byte>
    requires k < FragmentCount(|f.frame|)
  {
    f.frame[k * PAYLOAD_CAP..Min((k + 1) * PAYLOAD_CAP, |f.frame|)]
  }

  /** Feeding message k of a frame is joining its piece k. */
  lemma FedFragment(s: Assembly, f: Sent, k: nat)
    requires k < FragmentCount(|f.frame|)
    ensures Fed(s, Tail(f, k)[0])
         == Joined(s, FragmentHeader(f.sequence, k, FragmentCount(|f.frame|)), Piece(f, k))
  {
    TailStep(f, k);
    var h := FragmentHeader(f.sequence, k, FragmentCount(|f.frame|));
    HeaderReadsBack(h, Piece(f, k));
    assert (HeaderBytes(h) + Piece(f, k))[FRAGMENT_HEADER_BYTES..] == Piece(f, k);
  }

  /** The pieces before k, and piece k. */
  lemma PieceExtends(f: Sent, k: nat)
    requires k < FragmentCount(|f.frame|)
    ensures k * PAYLOAD_CAP <= |f.frame|
    ensures k + 1 < FragmentCount(|f.frame|) ==> (k + 1) * PAYLOAD_CAP < |f.frame|
    ensures f.frame[..k * PAYLOAD_CAP] + Piece(f, k)
         == if k + 1 < FragmentCount(|f.frame|) then f.frame[..(k + 1) * PAYLOAD_CAP] else f.frame
  {
  }

  /** One turn of a run in which the first message may be lost. */
  lemma ReceivedKept(s: Assembly, messages: seq<seq<byte>>, arrives: seq<bool>)
    requires |messages| == |arrives| > 0
    ensures Received(s, Kept(messages, arrives)) ==
      (if arrives[0] then
         var (t, frame) := Taken(Fed(s, messages[0]).0);
         var (u, frames) := Received(t, Kept(messages[1..], arrives[1..]));
         (u, if frame.Some? then [frame.value] + frames else frames)
       else Received(s, Kept(messages[1..], arrives[1..])))
  {
    var kept, rest := Kept(messages, arrives), Kept(messages[1..], arrives[1..]);
    if arrives[0] {
      assert kept[0] == messages[0] && kept[1..] == rest;
    } else {
      assert kept == rest;
    }
  }

  /** With nothing open, the rest of a frame whose start was missed passes without trace. */
  lemma {:induction false} JoinedPartWay(s: Assembly, f: Sent, k: nat, arrives: seq<bool>)
    requires 1 <= k <= FragmentCount(|f.frame|) && |arrives| == FragmentCount(|f.frame|) - k
    requires !s.assembling && !s.ready
    ensures Received(s, Kept(Tail(f, k), arrives)) == (s, [])
    decreases |arrives|
  {
    if arrives != [] {
      hide Fed, Tail;
      TailStep(f, k);
      FedFragment(s, f, k);
      ReceivedKept(s, Tail(f, k), arrives);
      JoinedPartWay(s, f, k + 1, arrives[1..]);
    }
  }

  /** From a frame opened and unbroken so far: delivered if the rest arrives, undelivered if not. */
  lemma {:induction false} RestOfFrame(s: Assembly, f: Sent, k: nat, arrives: seq<bool>)
    requires 1 <= k < FragmentCount(|f.frame|) && |arrives| == FragmentCount(|f.frame|) - k
    requires OnTrack(s, f, k)
    ensures var (t, frames) := Received(s, Kept(Tail(f, k), arrives));
      && !t.ready
      && frames == (if All(arrives) then [f.frame] else [])
      && Undelivered(t) + |frames| == Undelivered(s)
      && Midway(t) && (t.assembling ==> Holds(t, f) && frames == [])
    decreases |arrives|
  {
    hide Fed, Tail, Received, Piece, Fragment, FragmentCount, Kept;
    TailStep(f, k);
    FedFragment(s, f, k);
    PieceExtends(f, k);
    ReceivedKept(s, Tail(f, k), arrives);
    if arrives[0] {
      AllButFirst(arrives);
      var t := Fed(s, Tail(f, k)[0]).0;
      if k + 1 < FragmentCount(|f.frame|) {
        RestOfFrame(t, f, k + 1, arrives[1..]);
      } else {
        assert t.ready && t.buffer == f.frame;
        NothingLeft(Abandoned(t), f, arrives[1..]);
      }
    } else {
      BrokenFrame(s, f, k, k + 1, arrives[1..]);
    }
  }

  lemma AllButFirst(arrives: seq<bool>)
    requires arrives != [] && arrives[0]
    ensures All(arrives) <==> All(arrives[1..])
  {
    assert arrives == [true] + arrives[1..];
  }

  lemma NothingLeft(s: Assembly, f: Sent, arrives: seq<bool>)
    requires arrives == []
    ensures Received(s, Kept(Tail(f, FragmentCount(|f.frame|)), arrives)) == (s, []) && All(arrives)
  {
  }

  /** With fragment `k` lost, the next one that arrives gives the frame up. */
  lemma {:induction false} BrokenFrame(s: Assembly, f: Sent, k: nat, j: nat, arrives: seq<bool>)
    requires 1 <= k < j <= FragmentCount(|f.frame|) && |arrives| == FragmentCount(|f.frame|) - j
    requires OnTrack(s, f, k)
    ensures var (t, frames) := Received(s, Kept(Tail(f, j), arrives));
      !t.ready && frames == [] && Undelivered(t) == Undelivered(s)
      && Midway(t) && (t.assembling ==> Holds(t, f))
    decreases |arrives|
  {
    if arrives != [] {
      hide Fed, Tail, Piece, Fragment, FragmentCount;
      TailStep(f, j);
      FedFragment(s, f, j);
      ReceivedKept(s, Tail(f, j), arrives);
      if arrives[0] {
        JoinedPartWay(Fed(s, Tail(f, j)[0]).0, f, j + 1, arrives[1..]);
      } else {
        BrokenFrame(s, f, k, j + 1, arrives[1..]);
      }
    }
  }

  /** Another frame may be open; this one's start is lost. */
  lemma {:induction false} StartLost(s: Assembly, f: Sent, k: nat, arrives: seq<bool>)
    requires 1 <= k <= FragmentCount(|f.frame|) && |arrives| == FragmentCount(|f.frame|) - k
    requires Midway(s) && !Holds(s, f)
    ensures var (t, frames) := Received(s, Kept(Tail(f, k), arrives));
      && frames == [] && Midway(t) && (t.assembling ==> t == s)
      && ((s.assembling && s.frameSequence == f.sequence) || Undelivered(t) == Undelivered(s))
    decreases |arrives|
  {
    if arrives != [] {
      hide Fed, Tail, Piece, Fragment, FragmentCount, Received, Kept;
      TailStep(f, k);
      FedFragment(s, f, k);
      ReceivedKept(s, Tail(f, k), arrives);
      if arrives[0] {
        JoinedPartWay(Fed(s, Tail(f, k)[0]).0, f, k + 1, arrives[1..]);
      } else {
        StartLost(s, f, k + 1, arrives[1..]);
      }
    }
  }

  /** A frame whose first message arrives, whatever is open: that is given up and counted. */
  lemma StartHeard(s: Assembly, f: Sent, arrives: seq<bool>)
    requires Sendable(f) && |arrives| == FragmentCount(|f.frame|) && Midway(s) && arrives[0]
    ensures var (t, frames) := Received(s, Kept(Messages(f.frame, f.sequence), arrives));
      && frames == (if All(arrives) then [f.frame] else [])
      && Undelivered(t) + |frames| == Undelivered(s) + 1
      && Midway(t) && (t.assembling ==> Holds(t, f) && frames == [])
  {
    assert Tail(f, 0) == Messages(f.frame, f.sequence);
    hide Fed, Tail, Received, Piece, Messages, Fragment, FragmentCount, Kept;
    TailStep(f, 0);
    FirstHeard(s, f);
    ReceivedKept(s, Tail(f, 0), arrives);
    AllButFirst(arrives);
    var t := Fed(s, Tail(f, 0)[0]).0;
    if 1 < FragmentCount(|f.frame|) {
      hide OnTrack;
      assert Taken(t) == (t, None) by { TrackIsNotReady(t, f, 1); }
      RestOfFrame(t, f, 1, arrives[1..]);
    } else {
      NothingLeft(Abandoned(t), f, arrives[1..]);
    }
  }

  lemma TrackIsNotReady(s: Assembly, f: Sent, k: nat)
    requires OnTrack(s, f, k)
    ensures Taken(s) == (s, None)
  {
  }

  /** The first message of a frame, whatever is open. */
  lemma FirstHeard(s: Assembly, f: Sent)
    requires Sendable(f) && Midway(s)
    ensures var t := Fed(s, Tail(f, 0)[0]).0;
      && Undelivered(t) + (if t.ready then 1 else 0) == Undelivered(s) + 1
      && if 1 < FragmentCount(|f.frame|) then OnTrack(t, f, 1) else t.ready && !t.assembling && t.buffer == f.frame
  {
    hide Fed, Tail, Piece, FragmentCount;
    TailStep(f, 0);
    FedFragment(s, f, 0);
    PieceExtends(f, 0);
  }

  /** One frame through the link: delivered exactly when all of it arrives. */
  lemma OneFrame(s: Assembly, f: Sent, arrives: seq<bool>)
    requires Sendable(f) && |arrives| == FragmentCount(|f.frame|)
    requires Midway(s) && !Holds(s, f)
    ensures var (t, frames) := Received(s, Kept(Messages(f.frame, f.sequence), arrives));
      && frames == (if All(arrives) then [f.frame] else [])
      && Midway(t) && (t.assembling ==> Holds(t, f) || t == s)
      && ((s.assembling && s.frameSequence == f.sequence)
          || Undelivered(t) + |frames| == Undelivered(s) + (if arrives[0] then 1 else 0))
  {
    if arrives[0] {
      StartHeard(s, f, arrives);
    } else {
      assert Tail(f, 0) == Messages(f.frame, f.sequence);
      hide Fed, Tail, Received, Piece, Messages, Fragment, FragmentCount, Kept;
      TailStep(f, 0);
      ReceivedKept(s, Tail(f, 0), arrives);
      StartLost(s, f, 1, arrives[1..]);
    }
  }

  // ---------------------------------------------------------------------------
  // Whatever comes before.

  lemma FedStaysMidway(s: Assembly, data: seq<byte>)
    requires Midway(s)
    ensures Midway(Taken(Fed(s, data).0).0)
  {
  }

  lemma {:induction false} ReceivedStaysMidway(s: Assembly, messages: seq<seq<byte>>)
    requires Midway(s)
    ensures Midway(Received(s, messages).0)
    decreases |messages|
  {
    if messages != [] {
      hide Fed, Taken;
      FedStaysMidway(s, messages[0]);
      ReceivedStaysMidway(Taken(Fed(s, messages[0]).0).0, messages[1..]);
    }
  }

  lemma {:induction false} KeptWhole<T>(messages: seq<T>, arrives: seq<bool>)
    requires |messages| == |arrives| && All(arrives)
    ensures Kept(messages, arrives) == messages
  {
    if messages != [] {
      KeptWhole(messages[1..], arrives[1..]);
    }
  }

  /**
   * A frame all of whose messages arrive in a row is delivered, whatever arrived before it:
   * other frames' remains, its own sequence used already, or octets that are not ours.
   */
  lemma WholeFrameIsDelivered(before: seq<seq<byte>>, f: Sent, after: seq<seq<byte>>)
    requires Sendable(f)
    ensures var (s, earlier) := Received(FRESH, before);
      var t := Received(s, Messages(f.frame, f.sequence)).0;
      Received(FRESH, before + Messages(f.frame, f.sequence) + after).1
      == earlier + [f.frame] + Received(t, after).1
  {
    var messages := Messages(f.frame, f.sequence);
    var all := seq(|messages|, i => true);
    ReceivedStaysMidway(FRESH, before);
    var s := Received(FRESH, before).0;
    KeptWhole(messages, all);
    StartHeard(s, f, all);
    hide Received, Messages, Kept;
    ReceivedAppend(FRESH, before, messages);
    ReceivedAppend(FRESH, before + messages, after);
  }

  // ---------------------------------------------------------------------------
  // Any number of frames, any losses.

  /** A mask for every frame, as long as the frame has messages. */
  ghost predicate Masked(frames: seq<Sent>, arrives: seq<seq<bool>>) {
    && |frames| == |arrives|
    && (forall i :: 0 <= i < |frames| ==> Sendable(frames[i]) && |arrives[i]| == FragmentCount(|frames[i].frame|))
  }

  ghost predicate DistinctSequences(frames: seq<Sent>) {
    forall i, j :: 0 <= i < j < |frames| ==> frames[i].sequence != frames[j].sequence
  }

  /** Two frames of several messages that no fragment header tells apart. */
  ghost predicate Twins(f: Sent, g: Sent) {
    f.sequence == g.sequence && FragmentCount(|f.frame|) == FragmentCount(|g.frame|) >= 2
  }

  ghost predicate NoTwins(frames: seq<Sent>) {
    forall i, j :: 0 <= i < j < |frames| ==> !Twins(frames[i], frames[j])
  }

  /** What comes out of the link: an in-order subsequence of everything sent. */
  ghost function Arrivals(frames: seq<Sent>, arrives: seq<seq<bool>>): seq<seq<byte>>
    requires Masked(frames, arrives)
  {
    if frames == [] then []
    else Kept(Messages(frames[0].frame, frames[0].sequence), arrives[0]) + Arrivals(frames[1..], arrives[1..])
  }

  /** The frames all of whose messages arrived. */
  ghost function Complete(frames: seq<Sent>, arrives: seq<seq<bool>>): seq<seq<byte>>
    requires |frames| == |arrives|
  {
    if frames == [] then []
    else (if All(arrives[0]) then [frames[0].frame] else []) + Complete(frames[1..], arrives[1..])
  }

  /** How many frames the receiver saw the first message of. */
  ghost function Started(arrives: seq<seq<bool>>): nat {
    if arrives == [] then 0
    else (if arrives[0] != [] && arrives[0][0] then 1 else 0) + Started(arrives[1..])
  }

  ghost predicate HoldsNone(s: Assembly, frames: seq<Sent>) {
    forall i :: 0 <= i < |frames| ==> !Holds(s, frames[i])
  }

  /** The open frame, if any, has a sequence none of these has. */
  ghost predicate OpensOther(s: Assembly, frames: seq<Sent>) {
    s.assembling ==> forall i :: 0 <= i < |frames| ==> frames[i].sequence != s.frameSequence
  }

  /**
   * Whatever the link loses, exactly the frames that arrived whole are delivered, once, in
   * order and unchanged, if no two of them are twins; if all sequences are distinct, every
   * other frame that started is counted dropped, but for one still open.
   */
  lemma {:induction false} DeliveredExactly(s: Assembly, frames: seq<Sent>, arrives: seq<seq<bool>>)
    requires Masked(frames, arrives) && NoTwins(frames)
    requires Midway(s) && HoldsNone(s, frames)
    ensures Received(s, Arrivals(frames, arrives)).1 == Complete(frames, arrives)
    ensures Midway(Received(s, Arrivals(frames, arrives)).0)
    ensures DistinctSequences(frames) && OpensOther(s, frames) ==>
      var (t, delivered) := Received(s, Arrivals(frames, arrives));
      Undelivered(t) + |delivered| == Undelivered(s) + Started(arrives)
    decreases |frames|
  {
    if frames != [] {
      var first := Kept(Messages(frames[0].frame, frames[0].sequence), arrives[0]);
      hide FragmentCount, Received, Messages, Kept, NoTwins, Holds, HoldsNone;
      HoldsNotFirst(s, frames);
      OneFrame(s, frames[0], arrives[0]);
      assert OpensOther(s, frames) && s.assembling ==> s.frameSequence != frames[0].sequence;
      hide OpensOther, DistinctSequences;
      var t := Received(s, first).0;
      HoldsNoneOfRest(s, t, frames);
      NoTwinsInRest(frames);
      DeliveredExactly(t, frames[1..], arrives[1..]);
      ReceivedAppend(s, first, Arrivals(frames[1..], arrives[1..]));
    }
  }

  lemma HoldsNotFirst(s: Assembly, frames: seq<Sent>)
    requires frames != [] && HoldsNone(s, frames)
    ensures !Holds(s, frames[0])
  {
  }

  lemma NoTwinsInRest(frames: seq<Sent>)
    requires frames != [] && NoTwins(frames)
    ensures NoTwins(frames[1..])
  {
  }

  lemma HoldsNoneOfRest(s: Assembly, t: Assembly, frames: seq<Sent>)
    requires frames != [] && NoTwins(frames) && HoldsNone(s, frames) && Midway(t)
    requires t.assembling ==> Holds(t, frames[0]) || t == s
    ensures HoldsNone(t, frames[1..])
    ensures DistinctSequences(frames) && OpensOther(s, frames) ==>
      DistinctSequences(frames[1..]) && OpensOther(t, frames[1..])
  {
    hide FragmentCount;
    forall i | 0 <= i < |frames[1..]|
      ensures !Holds(t, frames[1..][i])
    {
      assert !Twins(frames[0], frames[i + 1]) && !Holds(s, frames[i + 1]);
    }
  }

  lemma DistinctHaveNoTwins(frames: seq<Sent>)
    requires DistinctSequences(frames)
    ensures NoTwins(frames)
  {
  }

  // ---------------------------------------------------------------------------
  // And with twins.

  ghost predicate Lost(arrives: seq<bool>) {
    forall m :: 0 <= m < |arrives| ==> !arrives[m]
  }

  lemma {:induction false} KeptNone<T>(messages: seq<T>, arrives: seq<bool>)
    requires |messages| == |arrives| && Lost(arrives)
    ensures Kept(messages, arrives) == []
  {
    if messages != [] {
      KeptNone(messages[1..], arrives[1..]);
    }
  }

  lemma {:induction false} KeptBefore<T>(messages: seq<T>, arrives: seq<bool>, k: nat)
    requires |messages| == |arrives| >= k && forall m :: 0 <= m < |arrives| ==> arrives[m] == (m < k)
    ensures Kept(messages, arrives) == messages[..k]
  {
    if k == 0 {
      KeptNone(messages, arrives);
    } else {
      KeptBefore(messages[1..], arrives[1..], k - 1);
      assert messages[..k] == [messages[0]] + messages[1..][..k - 1];
    }
  }

  lemma {:induction false} KeptFrom<T>(messages: seq<T>, arrives: seq<bool>, k: nat)
    requires |messages| == |arrives| >= k && forall m :: 0 <= m < |arrives| ==> arrives[m] == (m >= k)
    ensures Kept(messages, arrives) == messages[k..]
  {
    if k == 0 {
      KeptWhole(messages, arrives);
    } else {
      KeptFrom(messages[1..], arrives[1..], k - 1);
      assert messages[k..] == messages[1..][k - 1..];
    }
  }

  /** Nothing arrives of any frame from `i` on but `j`, if that is one of them, and not all of that. */
  ghost predicate Quiet(frames: seq<Sent>, arrives: seq<seq<bool>>, from: nat, j: nat) {
    Masked(frames, arrives)
    && forall x :: from <= x < |frames| ==> (x != j ==> Lost(arrives[x])) && !All(arrives[x])
  }

  lemma {:induction false} NoneSpeaks(frames: seq<Sent>, arrives: seq<seq<bool>>)
    requires Quiet(frames, arrives, 0, |frames|)
    ensures Arrivals(frames, arrives) == [] && Complete(frames, arrives) == []
  {
    if frames != [] {
      KeptNone(Messages(frames[0].frame, frames[0].sequence), arrives[0]);
      hide Messages, FragmentCount;
      assert Lost(arrives[0]) && !All(arrives[0]);
      assert forall x :: 0 <= x < |frames| - 1 ==> arrives[1..][x] == arrives[x + 1];
      NoneSpeaks(frames[1..], arrives[1..]);
    }
  }

  lemma {:induction false} OneSpeaks(frames: seq<Sent>, arrives: seq<seq<bool>>, j: nat)
    requires Quiet(frames, arrives, 0, j) && j < |frames|
    ensures Arrivals(frames, arrives) == Kept(Messages(frames[j].frame, frames[j].sequence), arrives[j])
    ensures Complete(frames, arrives) == []
  {
    hide FragmentCount;
    assert forall x :: 0 <= x < |frames| - 1 ==> arrives[1..][x] == arrives[x + 1];
    assert !All(arrives[0]);
    if j == 0 {
      NoneSpeaks(frames[1..], arrives[1..]);
    } else {
      KeptNone(Messages(frames[0].frame, frames[0].sequence), arrives[0]);
      hide Messages;
      OneSpeaks(frames[1..], arrives[1..], j - 1);
    }
  }

  lemma {:induction false} TwoSpeak(frames: seq<Sent>, arrives: seq<seq<bool>>, i: nat, j: nat)
    requires i < j < |frames| && Masked(frames, arrives)
    requires forall x :: 0 <= x < |frames| ==> (x != i && x != j ==> Lost(arrives[x])) && !All(arrives[x])
    ensures Arrivals(frames, arrives)
         == Kept(Messages(frames[i].frame, frames[i].sequence), arrives[i])
          + Kept(Messages(frames[j].frame, frames[j].sequence), arrives[j])
    ensures Complete(frames, arrives) == []
  {
    hide FragmentCount;
    assert forall x :: 0 <= x < |frames| - 1 ==> arrives[1..][x] == arrives[x + 1];
    assert !All(arrives[0]);
    if i == 0 {
      OneSpeaks(frames[1..], arrives[1..], j - 1);
    } else {
      KeptNone(Messages(frames[0].frame, frames[0].sequence), arrives[0]);
      hide Messages;
      TwoSpeak(frames[1..], arrives[1..], i - 1, j - 1);
    }
  }

  /** The first messages of a frame, and no more of it yet. */
  lemma {:induction false} PartReceived(f: Sent, k: nat)
    requires 1 <= k < FragmentCount(|f.frame|)
    ensures var (t, frames) := Received(FRESH, Messages(f.frame, f.sequence)[..k]); frames == [] && OnTrack(t, f, k)
  {
    var messages := Messages(f.frame, f.sequence);
    assert messages[..k] == messages[..k - 1] + [messages[k - 1]];
    assert Tail(f, k - 1)[0] == messages[k - 1];
    hide Messages, Fed, Tail, Piece, Fragment, FragmentCount;
    ReceivedAppend(FRESH, messages[..k - 1], [messages[k - 1]]);
    if k > 1 {
      PartReceived(f, k - 1);
    }
    var s := Received(FRESH, messages[..k - 1]).0;
    FedFragment(s, f, k - 1);
    PieceExtends(f, k - 1);
    var last: seq<seq<byte>> := [messages[k - 1]];
    assert last[1..] == [];
  }

  /** Whatever has been joined so far, the rest of a frame that no header tells apart completes it. */
  lemma {:induction false} RestJoins(s: Assembly, g: Sent, k: nat)
    requires 1 <= k < FragmentCount(|g.frame|) && Midway(s) && Holds(s, g) && s.nextIndex == k
    ensures k * PAYLOAD_CAP < |g.frame|
    ensures Received(s, Tail(g, k)).1 == [s.buffer + g.frame[k * PAYLOAD_CAP..]]
    decreases FragmentCount(|g.frame|) - k
  {
    hide Fed, Tail, FragmentCount;
    TailStep(g, k);
    FedFragment(s, g, k);
    var t := Fed(s, Tail(g, k)[0]).0;
    if k + 1 < FragmentCount(|g.frame|) {
      RestJoins(t, g, k + 1);
      assert Piece(g, k) + g.frame[(k + 1) * PAYLOAD_CAP..] == g.frame[k * PAYLOAD_CAP..];
      assert s.buffer + Piece(g, k) + g.frame[(k + 1) * PAYLOAD_CAP..]
          == s.buffer + (Piece(g, k) + g.frame[(k + 1) * PAYLOAD_CAP..]);
    } else {
      assert Tail(g, k)[1..] == [];
      assert Piece(g, k) == g.frame[k * PAYLOAD_CAP..];
    }
  }

  /** The first `k` messages of frame `i` arrive, frame `j` from message `k` on, and nothing else. */
  function Cut(frames: seq<Sent>, i: nat, j: nat, k: nat): (arrives: seq<seq<bool>>)
    ensures |arrives| == |frames|
  {
    seq(|frames|, x requires 0 <= x < |frames| =>
      seq(FragmentCount(|frames[x].frame|), m => (x == i && m < k) || (x == j && m >= k)))
  }

  /** The first part of one frame joined to the rest of another. */
  function Splice(f: Sent, g: Sent, k: nat): seq<byte>
    requires k * PAYLOAD_CAP <= |f.frame| && k * PAYLOAD_CAP <= |g.frame|
  {
    f.frame[..k * PAYLOAD_CAP] + g.frame[k * PAYLOAD_CAP..]
  }

  lemma CutWithin(f: Sent, k: nat)
    requires k < FragmentCount(|f.frame|)
    ensures k * PAYLOAD_CAP <= |f.frame|
  {
  }

  /** At any cut point, the start of a frame and the rest of its twin are delivered as one frame. */
  lemma TwinsJoin(f: Sent, g: Sent, k: nat)
    requires Twins(f, g) && 1 <= k < FragmentCount(|f.frame|)
    ensures k * PAYLOAD_CAP <= |f.frame| && k * PAYLOAD_CAP <= |g.frame|
    ensures Received(FRESH, Messages(f.frame, f.sequence)[..k] + Messages(g.frame, g.sequence)[k..]).1
         == [Splice(f, g, k)]
  {
    CutWithin(f, k);
    CutWithin(g, k);
    PartReceived(f, k);
    var start, rest := Messages(f.frame, f.sequence)[..k], Messages(g.frame, g.sequence)[k..];
    assert rest == Tail(g, k);
    hide Messages, FragmentCount, Tail, Received;
    ReceivedAppend(FRESH, start, rest);
    RestJoins(Received(FRESH, start).0, g, k);
  }

  lemma TwinsSplice(frames: seq<Sent>, i: nat, j: nat, k: nat)
    requires (forall x :: 0 <= x < |frames| ==> Sendable(frames[x])) && i < j < |frames|
    requires Twins(frames[i], frames[j]) && 1 <= k < FragmentCount(|frames[i].frame|)
    ensures var arrives := Cut(frames, i, j, k);
      && Masked(frames, arrives) && Complete(frames, arrives) == []
      && k * PAYLOAD_CAP <= |frames[i].frame| && k * PAYLOAD_CAP <= |frames[j].frame|
      && Received(FRESH, Arrivals(frames, arrives)).1 == [Splice(frames[i], frames[j], k)]
  {
    var arrives := Cut(frames, i, j, k);
    TwinsJoin(frames[i], frames[j], k);
    hide FragmentCount, Messages, Received;
    forall x | 0 <= x < |frames|
      ensures (x != i && x != j ==> Lost(arrives[x])) && !All(arrives[x])
    {
      assert !arrives[x][if x == i then k else 0];
    }
    TwoSpeak(frames, arrives, i, j);
    KeptBefore(Messages(frames[i].frame, frames[i].sequence), arrives[i], k);
    KeptFrom(Messages(frames[j].frame, frames[j].sequence), arrives[j], k);
  }

  /**
   * Exactly when delivery is safe from every loss: no two frames of the list share a sequence
   * and a message count of two or more.
   */
  lemma SafeIffNoTwins(frames: seq<Sent>)
    requires forall x :: 0 <= x < |frames| ==> Sendable(frames[x])
    ensures (forall arrives :: Masked(frames, arrives) ==>
               Received(FRESH, Arrivals(frames, arrives)).1 == Complete(frames, arrives))
      <==> NoTwins(frames)
  {
    if NoTwins(frames) {
      forall arrives | Masked(frames, arrives)
        ensures Received(FRESH, Arrivals(frames, arrives)).1 == Complete(frames, arrives)
      {
        DeliveredExactly(FRESH, frames, arrives);
      }
    } else {
      hide Received, Messages, FragmentCount, Arrivals, Complete;
      var i, j :| 0 <= i < j < |frames| && Twins(frames[i], frames[j]);
      TwinsSplice(frames, i, j, 1);
      assert Masked(frames, Cut(frames, i, j, 1));
    }
  }
}
