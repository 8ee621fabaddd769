/**
 * Frames put together from messages of more than one: what the reassembler can make of them,
 * which of those the decoder reads, and what that leaves of runs with steps that failed.
 */
module Patchwork {
  import opened Bytes
  import opened Crc32
  import opened Fragments
  import opened WireFrame
  import Straddle

  // ---------------------------------------------------------------------------
  // What the reassembler makes of messages, in whatever order and however often they come.

  ghost predicate IsMessage(sent: seq<Sent>, message: seq<byte>) {
    exists j, k :: 0 <= j < |sent| && 0 <= k < FragmentCount(|sent[j].frame|)
      && message == Fragment(sent[j].frame, sent[j].sequence, k)
  }

  ghost predicate AreMessages(sent: seq<Sent>, messages: seq<seq<byte>>) {
    forall i :: 0 <= i < |messages| ==> IsMessage(sent, messages[i])
  }

  /** Piece `k` of some frame sent under that sequence in that many messages. */
  ghost predicate IsPiece(sent: seq<Sent>, sequence: u32, count: nat, k: nat, bytes: seq<byte>) {
    exists j :: 0 <= j < |sent| && sent[j].sequence == sequence
      && k < count == FragmentCount(|sent[j].frame|) && bytes == Piece(sent[j], k)
  }

  /** Its pieces, the last one aside, are each that piece of some frame of one sequence and count. */
  ghost predicate Pieced(sent: seq<Sent>, sequence: u32, count: nat, head: seq<byte>, n: nat) {
    && |head| == n * PAYLOAD_CAP
    && forall k :: 0 <= k < n ==> Reaches(head, k) && IsPiece(sent, sequence, count, k, Nth(head, k))
  }

  predicate Reaches(head: seq<byte>, k: nat) {
    (k + 1) * PAYLOAD_CAP <= |head|
  }

  function Nth(head: seq<byte>, k: nat): seq<byte>
    requires Reaches(head, k)
  {
    head[k * PAYLOAD_CAP..(k + 1) * PAYLOAD_CAP]
  }

  /** Where the last message of a frame of that size starts. */
  function LastStart(size: nat): nat
    requires FragmentCount(size) > 0
  {
    (FragmentCount(size) - 1) * PAYLOAD_CAP
  }

  /** The octets end like frame `f` and are pieced together before that. */
  ghost predicate EndsLike(sent: seq<Sent>, x: seq<byte>, f: Sent) {
    && FragmentCount(|f.frame|) > 0 && |x| == |f.frame| && LastStart(|x|) <= |x|
    && x[LastStart(|x|)..] == f.frame[LastStart(|x|)..]
    && Pieced(sent, f.sequence, FragmentCount(|x|), x[..LastStart(|x|)], FragmentCount(|x|) - 1)
  }

  ghost predicate Patched(sent: seq<Sent>, x: seq<byte>) {
    exists j :: 0 <= j < |sent| && EndsLike(sent, x, sent[j])
  }

  ghost predicate AllPatched(sent: seq<Sent>, frames: seq<seq<byte>>) {
    forall i :: 0 <= i < |frames| ==> Patched(sent, frames[i])
  }

  /** An open frame is pieced together so far. */
  ghost predicate Open(sent: seq<Sent>, s: Assembly) {
    && Midway(s)
    && (s.assembling ==> Pieced(sent, s.frameSequence, s.count, s.buffer, s.nextIndex))
  }

  lemma PiecedOn(sent: seq<Sent>, sequence: u32, count: nat, head: seq<byte>, n: nat, piece: seq<byte>)
    requires Pieced(sent, sequence, count, head, n) && IsPiece(sent, sequence, count, n, piece)
    requires |piece| == PAYLOAD_CAP
    ensures Pieced(sent, sequence, count, head + piece, n + 1)
  {
    hide IsPiece;
    forall k | 0 <= k < n + 1
      ensures Reaches(head + piece, k) && IsPiece(sent, sequence, count, k, Nth(head + piece, k))
    {
      NthOfMore(head, piece, n, k);
    }
  }

  lemma NthOfMore(head: seq<byte>, piece: seq<byte>, n: nat, k: nat)
    requires |head| == n * PAYLOAD_CAP && |piece| == PAYLOAD_CAP && k <= n
    ensures Reaches(head + piece, k)
    ensures if k < n then Reaches(head, k) && Nth(head + piece, k) == Nth(head, k) else Nth(head + piece, k) == piece
  {
  }

  /** A piece that is not the last is full; the last is what is left. */
  lemma PieceSize(f: Sent, k: nat)
    requires k < FragmentCount(|f.frame|)
    ensures k + 1 < FragmentCount(|f.frame|) ==> |Piece(f, k)| == PAYLOAD_CAP
    ensures k + 1 == FragmentCount(|f.frame|) ==>
      LastStart(|f.frame|) == k * PAYLOAD_CAP < |f.frame| && Piece(f, k) == f.frame[k * PAYLOAD_CAP..]
  {
  }

  /** One more message of one of the frames: the open frame grows, starts, is given up, or is whole. */
  lemma FedPatched(sent: seq<Sent>, s: Assembly, j: nat, k: nat)
    requires Open(sent, s) && j < |sent| && k < FragmentCount(|sent[j].frame|)
    ensures var (t, frame) := Taken(Fed(s, Fragment(sent[j].frame, sent[j].sequence, k)).0);
      Open(sent, t) && (frame.Some? ==> Patched(sent, frame.value))
  {
    var f := sent[j];
    var count := FragmentCount(|f.frame|);
    var h := FragmentHeader(f.sequence, k, count);
    TailStep(f, k);
    FedFragment(s, f, k);
    PieceSize(f, k);
    assert IsPiece(sent, f.sequence, count, k, Piece(f, k));
    hide Fragment, Fed, FragmentCount, Piece, Tail, Pieced, IsPiece, EndsLike;
    var t := Resync(s, h);
    if t.assembling && h.count == t.count {
      Grown(sent, t, j, k);
    } else if !t.assembling && k == 0 {
      NothingPieced(sent, f.sequence, count);
      Grown(sent, Opened(t, h), j, k);
    }
  }

  lemma NothingPieced(sent: seq<Sent>, sequence: u32, count: nat)
    ensures Pieced(sent, sequence, count, [], 0)
  {
  }

  /** The open frame extended by the piece that is next. */
  lemma Grown(sent: seq<Sent>, t: Assembly, j: nat, k: nat)
    requires j < |sent| && k < FragmentCount(|sent[j].frame|)
    requires t.assembling && !t.ready && t.nextIndex == k && t.frameSequence == sent[j].sequence
    requires t.count == FragmentCount(|sent[j].frame|) && Pieced(sent, t.frameSequence, t.count, t.buffer, k)
    ensures var u := Extended(t, Piece(sent[j], k));
      if k + 1 < t.count then Open(sent, u) && !u.ready else u.ready && Patched(sent, u.buffer)
  {
    var f := sent[j];
    PieceSize(f, k);
    assert IsPiece(sent, f.sequence, t.count, k, Piece(f, k));
    hide IsPiece, FragmentCount, Piece;
    if k + 1 < t.count {
      PiecedOn(sent, t.frameSequence, t.count, t.buffer, k, Piece(f, k));
    } else {
      var x := t.buffer + Piece(f, k);
      assert |t.buffer| == k * PAYLOAD_CAP;
      assert x[k * PAYLOAD_CAP..] == Piece(f, k) && x[..k * PAYLOAD_CAP] == t.buffer;
      assert EndsLike(sent, x, f);
    }
  }

  /** Whatever of the messages arrives, every frame delivered is such a patchwork. */
  lemma {:induction false} DeliveredArePatched(sent: seq<Sent>, s: Assembly, messages: seq<seq<byte>>)
    requires Open(sent, s) && AreMessages(sent, messages)
    ensures AllPatched(sent, Received(s, messages).1) && Open(sent, Received(s, messages).0)
    decreases |messages|
  {
    if messages != [] {
      hide Fed, Open, Taken, Patched, FragmentCount, Fragment;
      assert IsMessage(sent, messages[0]);
      var j, k :| 0 <= j < |sent| && 0 <= k < FragmentCount(|sent[j].frame|)
        && messages[0] == Fragment(sent[j].frame, sent[j].sequence, k);
      FedPatched(sent, s, j, k);
      DeliveredArePatched(sent, Taken(Fed(s, messages[0]).0).0, messages[1..]);
    }
  }

  // ---------------------------------------------------------------------------
  // What the decoder makes of them: the check is that of the frame the octets end like.

  const START: Word := Complement(Zeros(32))

  lemma CheckedBody(data: seq<byte>)
    requires Parse(data).Success?
    ensures |data| >= CHECKSUM_BYTES
    ensures data[|data| - CHECKSUM_BYTES..] == BigEndian(Crc(data[..|data| - CHECKSUM_BYTES]), CHECKSUM_BYTES)
  {
    hide Crc, Parse, BigEndian;
    CheckReads(data);
  }

  lemma CrcDecides(s: seq<byte>, t: seq<byte>)
    ensures BigEndian(Crc(s), CHECKSUM_BYTES) == BigEndian(Crc(t), CHECKSUM_BYTES) <==> Feed(START, s) == Feed(START, t)
  {
    hide Feed, BigEndian;
    WidthsAsPowers();
    var x, y := Feed(START, s), Feed(START, t);
    assert Complement(Complement(x)) == x && Complement(Complement(y)) == y;
    ReadBackBigEndian(Crc(s), CHECKSUM_BYTES);
    ReadBackBigEndian(Crc(t), CHECKSUM_BYTES);
  }

  /** Two messages with one tail leave one register exactly when their heads do. */
  lemma HeadsDecide(s: seq<byte>, t: seq<byte>, c: nat)
    requires |s| == |t| && c <= |s| && s[c..] == t[c..]
    ensures Feed(START, s) == Feed(START, t) <==> Feed(START, s[..c]) == Feed(START, t[..c])
  {
    assert s == s[..c] + s[c..] && t == t[..c] + t[c..];
    FeedAppend(START, s[..c], s[c..]);
    FeedAppend(START, t[..c], t[c..]);
    FeedKeepsRegistersApart(Feed(START, s[..c]), Feed(START, t[..c]), s[c..]);
  }

  /** Octets the decoder reads that end like a frame it reads, from `c` on, have a head of that register. */
  lemma ReadHeadsMeet(x: seq<byte>, g: seq<byte>, c: nat)
    requires |x| == |g| && c + CHECKSUM_BYTES <= |g| && x[c..] == g[c..]
    requires Parse(x).Success? && Parse(g).Success?
    ensures Feed(START, x[..c]) == Feed(START, g[..c])
  {
    var end := |g| - CHECKSUM_BYTES;
    hide Feed, Parse, Crc, BigEndian;
    CheckedBody(x);
    CheckedBody(g);
    assert x[end..] == x[c..][end - c..] && g[end..] == g[c..][end - c..];
    CrcDecides(x[..end], g[..end]);
    assert x[..end][c..] == x[c..][..end - c] && g[..end][c..] == g[c..][..end - c];
    assert x[..end][..c] == x[..c] && g[..end][..c] == g[..c];
    HeadsDecide(x[..end], g[..end], c);
  }

  /** Two different heads, of that many octets, that leave one register. */
  ghost predicate HeadsMeet(x: seq<byte>, g: seq<byte>) {
    && |x| == |g| && FragmentCount(|x|) > 0 && LastStart(|x|) <= |x|
    && x[..LastStart(|x|)] != g[..LastStart(|x|)]
    && Feed(START, x[..LastStart(|x|)]) == Feed(START, g[..LastStart(|x|)])
  }

  /** A patchwork of the frames whose head leaves the register of the frame it ends like. */
  ghost predicate SomeHeadsMeet(sent: seq<Sent>) {
    exists x, j :: 0 <= j < |sent| && EndsLike(sent, x, sent[j]) && HeadsMeet(x, sent[j].frame)
  }

  /** The last message of each frame carries the whole of its check. */
  ghost predicate ChecksWhole(sent: seq<Sent>) {
    forall j :: 0 <= j < |sent| ==>
      && FragmentCount(|sent[j].frame|) > 0 && LastStart(|sent[j].frame|) + CHECKSUM_BYTES <= |sent[j].frame|
      && Parse(sent[j].frame).Success?
  }

  /** So a patchwork the decoder reads is one of the frames, unless two heads leave one register. */
  lemma ReadPatchIsSent(sent: seq<Sent>, x: seq<byte>)
    requires ChecksWhole(sent) && Patched(sent, x) && Parse(x).Success?
    ensures (exists j :: 0 <= j < |sent| && x == sent[j].frame) || SomeHeadsMeet(sent)
  {
    hide Parse, Feed, Pieced, FragmentCount, LastStart;
    var j :| 0 <= j < |sent| && EndsLike(sent, x, sent[j]);
    var g, c := sent[j].frame, LastStart(|x|);
    ReadHeadsMeet(x, g, c);
    if x[..c] == g[..c] {
      assert x == x[..c] + x[c..] && g == g[..c] + g[c..];
    } else {
      assert HeadsMeet(x, g);
    }
  }

  // ---------------------------------------------------------------------------
  // Two frames under one header.

  /** Blocks that differ in what they carry only. */
  ghost predicate Alike(a: seq<Block>, b: seq<Block>) {
    && |a| == |b|
    && forall i :: 0 <= i < |a| ==> a[i].(data := b[i].data) == b[i] && |a[i].data| == |b[i].data|
  }

  /** The blocks that `a` lays out before octet `c` and `b` from there on. */
  function Mixed(a: seq<Block>, b: seq<Block>, c: nat): (m: seq<Block>)
    requires |a| == |b| && forall i :: 0 <= i < |a| ==> |a[i].data| == |b[i].data|
    ensures |m| == |a|
  {
    if a == [] then []
    else
      var n := BLOCK_HEADER_BYTES + |a[0].data|;
      if c >= n then [a[0]] + Mixed(a[1..], b[1..], c - n)
      else
        var d := if c <= BLOCK_HEADER_BYTES then 0 else c - BLOCK_HEADER_BYTES;
        [b[0].(data := a[0].data[..d] + b[0].data[d..])] + b[1..]
  }

  lemma {:induction false} MixedBytes(a: seq<Block>, b: seq<Block>, c: nat)
    requires Alike(a, b) && c <= |BlocksBytes(a)|
    ensures |BlocksBytes(a)| == |BlocksBytes(b)|
    ensures BlocksBytes(Mixed(a, b, c)) == BlocksBytes(a)[..c] + BlocksBytes(b)[c..]
  {
    if a != [] {
      var n := BLOCK_HEADER_BYTES + |a[0].data|;
      AlikeRest(a, b);
      FirstBytes(a);
      FirstBytes(b);
      var m := Mixed(a, b, c);
      FirstBytes(m);
      if c >= n {
        assert m[1..] == Mixed(a[1..], b[1..], c - n);
        hide BlocksBytes, BlockBytes, Mixed, Alike;
        MixedBytes(a[1..], b[1..], c - n);
        SplitBehind(BlockBytes(a[0]), BlocksBytes(a[1..]), BlockBytes(b[0]), BlocksBytes(b[1..]), c);
      } else {
        assert m[1..] == b[1..];
        MixedBlock(a[0], b[0], c);
        hide BlocksBytes, BlockBytes, Mixed, Alike;
        MixedBytes(a[1..], b[1..], 0);
        SplitWithin(BlockBytes(a[0]), BlocksBytes(a[1..]), BlockBytes(b[0]), BlocksBytes(b[1..]), c);
      }
    }
  }

  lemma FirstBytes(a: seq<Block>)
    requires a != []
    ensures BlocksBytes(a) == BlockBytes(a[0]) + BlocksBytes(a[1..])
    ensures |BlockBytes(a[0])| == BLOCK_HEADER_BYTES + |a[0].data|
  {
  }

  lemma SplitBehind(s: seq<byte>, a: seq<byte>, t: seq<byte>, b: seq<byte>, c: nat)
    requires |s| == |t| <= c <= |s| + |a| && |a| == |b|
    ensures (s + a)[..c] + (t + b)[c..] == s + (a[..c - |s|] + b[c - |s|..])
  {
  }

  lemma SplitWithin(s: seq<byte>, a: seq<byte>, t: seq<byte>, b: seq<byte>, c: nat)
    requires |s| == |t| && c <= |s|
    ensures (s + a)[..c] + (t + b)[c..] == s[..c] + t[c..] + b
  {
  }

  lemma {:induction false} MixedAlike(a: seq<Block>, b: seq<Block>, c: nat)
    requires Alike(a, b)
    ensures Alike(Mixed(a, b, c), b)
    decreases |a|
  {
    if a != [] {
      AlikeRest(a, b);
      var n := BLOCK_HEADER_BYTES + |a[0].data|;
      MixedAlike(a[1..], b[1..], if c >= n then c - n else 0);
    }
  }

  lemma AlikeRest(a: seq<Block>, b: seq<Block>)
    requires Alike(a, b) && a != []
    ensures Alike(a[1..], b[1..]) && BlockHeader(a[0]) == BlockHeader(b[0])
  {
  }

  lemma MixedBlock(a: Block, b: Block, c: nat)
    requires a.(data := b.data) == b && |a.data| == |b.data| && c < BLOCK_HEADER_BYTES + |a.data|
    ensures var d := if c <= BLOCK_HEADER_BYTES then 0 else c - BLOCK_HEADER_BYTES;
      BlockBytes(b.(data := a.data[..d] + b.data[d..])) == BlockBytes(a)[..c] + BlockBytes(b)[c..]
  {
    hide BigEndian;
  }

  /** The frame whose octets are the first's before `c` and the second's from there on. */
  function Joint(f: Frame, g: Frame, c: nat): Frame
    requires |f.blocks| == |g.blocks| && forall i :: 0 <= i < |f.blocks| ==> |f.blocks[i].data| == |g.blocks[i].data|
  {
    g.(blocks := Mixed(f.blocks, g.blocks, if c < FRAME_HEADER_BYTES then 0 else c - FRAME_HEADER_BYTES))
  }

  /** Two frames that differ in what their blocks carry only. */
  ghost predicate FramesAlike(f: Frame, g: Frame) {
    f.(blocks := g.blocks) == g && Alike(f.blocks, g.blocks)
  }

  lemma JointBody(f: Frame, g: Frame, c: nat)
    requires FramesAlike(f, g) && c <= |Body(f)|
    ensures |Body(f)| == |Body(g)| && Body(Joint(f, g, c)) == Body(f)[..c] + Body(g)[c..]
  {
    var d := if c < FRAME_HEADER_BYTES then 0 else c - FRAME_HEADER_BYTES;
    assert Header(f) == Header(g) == Header(Joint(f, g, c));
    hide Header, Mixed, Alike, BlocksBytes;
    MixedBytes(f.blocks, g.blocks, d);
    if c < FRAME_HEADER_BYTES {
      SplitWithin(Header(f), BlocksBytes(f.blocks), Header(g), BlocksBytes(g.blocks), c);
      assert BlocksBytes(f.blocks)[..0] + BlocksBytes(g.blocks)[0..] == BlocksBytes(g.blocks);
    } else {
      SplitBehind(Header(f), BlocksBytes(f.blocks), Header(g), BlocksBytes(g.blocks), c);
    }
  }

  lemma JointIsEncodable(f: Frame, g: Frame, c: nat)
    requires FramesAlike(f, g) && Encodable(g)
    ensures Encodable(Joint(f, g, c))
  {
    var h := Joint(f, g, c);
    MixedAlike(f.blocks, g.blocks, if c < FRAME_HEADER_BYTES then 0 else c - FRAME_HEADER_BYTES);
    hide Mixed;
    forall i | 0 <= i < |h.blocks|
      ensures BlockEncodable(h.blocks[i]) && h.blocks[i].index == g.blocks[i].index
    {
      assert BlockEncodable(g.blocks[i]);
    }
  }

  lemma SerializedSplit(g: Frame)
    ensures Serialize(g) == Body(g) + BigEndian(Crc(Body(g)), CHECKSUM_BYTES)
  {
    hide Crc, BigEndian;
  }

  /**
   * The start of one frame joined to the rest of another under the same header, the whole
   * check among the rest, is read exactly when the two starts leave one register.
   */
  lemma JoinedIsReadIff(f: Frame, g: Frame, c: nat)
    requires FramesAlike(f, g) && Encodable(f) && Encodable(g) && c <= |Body(f)|
    ensures |Serialize(f)| == |Serialize(g)| >= c
    ensures var x := Serialize(f)[..c] + Serialize(g)[c..];
      && (Parse(x).Success? <==> Feed(START, Serialize(f)[..c]) == Feed(START, Serialize(g)[..c]))
      && (Parse(x).Success? ==> Parse(x) == Success(Joint(f, g, c)))
  {
    var h := Joint(f, g, c);
    JointBody(f, g, c);
    JointIsEncodable(f, g, c);
    SerializedSplit(f);
    SerializedSplit(g);
    SerializedSplit(h);
    WrittenFrameParses(g);
    WrittenFrameParses(h);
    hide Joint, FramesAlike, Body, Serialize, Parse, Encodable, Crc, BigEndian, Feed;
    var x := Serialize(f)[..c] + Serialize(g)[c..];
    JointOctets(Body(f), BigEndian(Crc(Body(f)), CHECKSUM_BYTES), Body(g), BigEndian(Crc(Body(g)), CHECKSUM_BYTES), c);
    assert x == Body(h) + BigEndian(Crc(Body(g)), CHECKSUM_BYTES);
    assert Body(h)[c..] == Body(g)[c..] && Body(h)[..c] == Body(f)[..c];
    HeadsDecide(Body(h), Body(g), c);
    CrcDecides(Body(h), Body(g));
    if Parse(x).Success? {
      CheckedBody(x);
      assert x[..|x| - CHECKSUM_BYTES] == Body(h);
      assert x[|x| - CHECKSUM_BYTES..] == BigEndian(Crc(Body(g)), CHECKSUM_BYTES);
    }
  }

  lemma JointOctets(s: seq<byte>, x: seq<byte>, t: seq<byte>, y: seq<byte>, c: nat)
    requires |s| == |t| >= c && |x| == |y|
    ensures (s + x)[..c] + (t + y)[c..] == s[..c] + t[c..] + y
    ensures (s + x)[..c] == s[..c] && (t + y)[..c] == t[..c]
  {
  }

  // ---------------------------------------------------------------------------
  // Heads do meet: where they differ by a multiple of the generator.

  lemma FeedBitIsLinear(x: Word, y: Word, a: bool, b: bool)
    ensures FeedBit(Xor(x, y), a != b) == Xor(FeedBit(x, a), FeedBit(y, b))
  {
    var u, v := x[0 := x[0] != a], y[0 := y[0] != b];
    StepIsLinear(u, v);
    assert Xor(x, y)[0 := Xor(x, y)[0] != (a != b)] == Xor(u, v);
  }

  lemma {:induction false} FeedBitsAreLinear(x: Word, y: Word, a: seq<bool>, b: seq<bool>)
    requires |a| == |b|
    ensures FeedBits(Xor(x, y), AddToFront(a, b)) == Xor(FeedBits(x, a), FeedBits(y, b))
    decreases |a|
  {
    hide FeedBit;
    if a != [] {
      assert AddToFront(a, b)[0] == (a[0] != b[0]) && AddToFront(a, b)[1..] == AddToFront(a[1..], b[1..]);
      FeedBitIsLinear(x, y, a[0], b[0]);
      FeedBitsAreLinear(FeedBit(x, a[0]), FeedBit(y, b[0]), a[1..], b[1..]);
    }
  }

  lemma {:induction false} RemainderOfZeros(n: nat)
    requires n >= 32
    ensures Remainder(Zeros(n)) == Zeros(32)
  {
    if n > 32 {
      assert DivideOnce(Zeros(n)) == Zeros(n - 1);
      RemainderOfZeros(n - 1);
    }
  }

  /** The generator itself, in five octets' worth of bits. */
  function GeneratorBurst(): (bits: seq<bool>)
    ensures |bits| == 40
  {
    [true] + GeneratorTail() + Zeros(7)
  }

  lemma BurstDivides()
    ensures FeedBits(Zeros(32), GeneratorBurst()) == Zeros(32)
  {
    var p := GeneratorBurst() + Zeros(32);
    BurstDividesOnce();
    hide GeneratorBurst;
    assert AddToFront(p, Zeros(32)) == p;
    RegisterIsLongDivision(Zeros(32), GeneratorBurst());
    RemainderOfZeros(71);
  }

  lemma BurstDividesOnce()
    ensures DivideOnce(GeneratorBurst() + Zeros(32)) == Zeros(71)
  {
    var p, tail := GeneratorBurst() + Zeros(32), GeneratorTail();
    hide GeneratorTail;
    assert p[0] && p[1..] == tail + Zeros(39);
    assert AddToFront(tail + Zeros(39), tail) == Zeros(71);
  }

  /** The octets with that burst flipped in the first five. */
  function Bursted(s: seq<byte>): (t: seq<byte>)
    requires |s| >= 5
    ensures |t| == |s|
  {
    seq(5, i requires 0 <= i < 5 => Straddle.Flipped(s[i], GeneratorBurst()[8 * i..8 * i + 8])) + s[5..]
  }

  lemma {:induction false} BitsAt(s: seq<byte>, i: nat)
    requires i < |s|
    ensures MessageBits(s)[8 * i..8 * i + 8] == LowBits(s[i], 8)
  {
    if i > 0 {
      BitsAt(s[1..], i - 1);
      assert MessageBits(s)[8 * i..8 * i + 8] == MessageBits(s[1..])[8 * (i - 1)..8 * (i - 1) + 8];
    }
  }

  lemma BurstedBit(s: seq<byte>, k: nat, j: nat)
    requires |s| == 5 && k < 5 && j < 8
    ensures MessageBits(Bursted(s))[8 * k + j] == (MessageBits(s)[8 * k + j] != GeneratorBurst()[8 * k + j])
  {
    hide *;
    BurstedOctet(s, k, j);
    OctetBit(s, k, j);
    OctetBit(Bursted(s), k, j);
  }

  lemma BurstedBitAt(s: seq<byte>, i: nat)
    requires |s| == 5 && i < 40
    ensures MessageBits(Bursted(s))[i] == (MessageBits(s)[i] != GeneratorBurst()[i])
  {
    hide *;
    var k, j := i / 8, i % 8;
    BurstedBit(s, k, j);
  }

  lemma BurstedOctet(s: seq<byte>, k: nat, j: nat)
    requires |s| == 5 && k < 5 && j < 8
    ensures LowBits(Bursted(s)[k], 8)[j] == (LowBits(s[k], 8)[j] != GeneratorBurst()[8 * k + j])
  {
    hide GeneratorBurst, LowBits;
    assert Bursted(s)[k] == Straddle.Flipped(s[k], GeneratorBurst()[8 * k..8 * k + 8]);
  }

  lemma OctetBit(s: seq<byte>, k: nat, j: nat)
    requires k < |s| && j < 8
    ensures MessageBits(s)[8 * k + j] == LowBits(s[k], 8)[j]
  {
    hide MessageBits, LowBits;
    BitsAt(s, k);
    assert MessageBits(s)[8 * k..8 * k + 8][j] == MessageBits(s)[8 * k + j];
  }

  lemma BurstedBits(s: seq<byte>)
    requires |s| == 5
    ensures MessageBits(Bursted(s)) == AddToFront(MessageBits(s), GeneratorBurst()) && Bursted(s) != s
  {
    var t, burst := Bursted(s), GeneratorBurst();
    hide *;
    BurstStarts();
    forall i | 0 <= i < 40
      ensures MessageBits(t)[i] == (MessageBits(s)[i] != burst[i])
    {
      BurstedBitAt(s, i);
    }
    BitByBit(MessageBits(t), MessageBits(s), burst);
    assert MessageBits(t)[0] != MessageBits(s)[0];
  }

  lemma BitByBit(x: seq<bool>, y: seq<bool>, z: seq<bool>)
    requires |x| == |y| == |z| && forall i :: 0 <= i < |x| ==> x[i] == (y[i] != z[i])
    ensures x == AddToFront(y, z)
  {
  }

  lemma BurstStarts()
    ensures GeneratorBurst()[0]
  {
  }

  /** From any register, flipping the generator into five octets leads to the same one. */
  lemma BurstIsUnseen(reg: Word, s: seq<byte>)
    requires |s| >= 5
    ensures Feed(reg, Bursted(s)) == Feed(reg, s) && Bursted(s) != s
  {
    var head, rest := s[..5], s[5..];
    assert s == head + rest;
    BurstedFront(head, rest);
    BurstedBits(head);
    FeedOfBurst(reg, head);
    assert Bursted(head) + rest != head + rest by {
      assert (Bursted(head) + rest)[..5] == Bursted(head) && (head + rest)[..5] == head;
    }
    hide Bursted, Feed;
    FeedAppend(reg, head, rest);
    FeedAppend(reg, Bursted(head), rest);
  }

  lemma XorZeros(x: Word)
    ensures Xor(x, Zeros(32)) == x
  {
  }

  lemma FeedOfBurst(reg: Word, s: seq<byte>)
    requires |s| == 5
    ensures Feed(reg, Bursted(s)) == Feed(reg, s)
  {
    BurstedBits(s);
    BurstDivides();
    hide *;
    FeedIsFeedBits(reg, s);
    FeedIsFeedBits(reg, Bursted(s));
    FeedBitsAreLinear(reg, Zeros(32), MessageBits(s), GeneratorBurst());
    XorZeros(reg);
    XorZeros(FeedBits(reg, MessageBits(s)));
  }

  /** The frame with the generator flipped into its first block's first octets. */
  function BurstedFrame(f: Frame): Frame
    requires f.blocks != [] && |f.blocks[0].data| >= 5
  {
    f.(blocks := [f.blocks[0].(data := Bursted(f.blocks[0].data))] + f.blocks[1..])
  }

  const FIRST_DATA := FRAME_HEADER_BYTES + BLOCK_HEADER_BYTES

  lemma BurstedBody(f: Frame)
    requires f.blocks != [] && |f.blocks[0].data| >= 5
    ensures |Body(f)| >= FIRST_DATA + 5
    ensures Body(BurstedFrame(f)) == Body(f)[..FIRST_DATA] + Bursted(Body(f)[FIRST_DATA..])
  {
    var g, b := BurstedFrame(f), f.blocks[0];
    assert g.blocks[0] == b.(data := Bursted(b.data)) && g.blocks[1..] == f.blocks[1..];
    assert Header(g) == Header(f);
    FirstBytes(f.blocks);
    FirstBytes(g.blocks);
    hide Bursted, Header, BlocksBytes;
    BurstedFront(b.data, BlocksBytes(f.blocks[1..]));
    Regrouped(Header(f), BlockHeader(b), b.data, BlocksBytes(f.blocks[1..]));
    Regrouped(Header(f), BlockHeader(b), Bursted(b.data), BlocksBytes(f.blocks[1..]));
  }

  lemma Regrouped(head: seq<byte>, block: seq<byte>, data: seq<byte>, rest: seq<byte>)
    ensures var all := head + (block + data + rest);
      && all == head + block + (data + rest)
      && all[..|head| + |block|] == head + block && all[|head| + |block|..] == data + rest
  {
  }

  lemma BurstedFront(s: seq<byte>, rest: seq<byte>)
    requires |s| >= 5
    ensures Bursted(s + rest) == Bursted(s) + rest
  {
    hide Straddle.Flipped, GeneratorBurst;
    assert (s + rest)[5..] == s[5..] + rest;
  }

  /**
   * Every frame whose first block has five octets has such another: the same header, a
   * different head however much of it is more than those octets, and one register.
   */
  lemma HeadsDoMeet(f: Frame, c: nat)
    requires Encodable(f) && |f.blocks[0].data| >= 5 && FIRST_DATA + 5 <= c <= |Body(f)|
    ensures var g := BurstedFrame(f);
      && Encodable(g) && FramesAlike(g, f) && |Serialize(g)| == |Serialize(f)| >= c
      && Serialize(g)[..c] != Serialize(f)[..c]
      && Feed(START, Serialize(g)[..c]) == Feed(START, Serialize(f)[..c])
  {
    var g := BurstedFrame(f);
    BurstedIsAlike(f);
    BurstedBody(f);
    SerializedSplit(f);
    SerializedSplit(g);
    hide BurstedFrame, FramesAlike, Body, Serialize, Encodable, Crc, BigEndian, Feed;
    var s := Body(f)[..c];
    assert Serialize(f)[..c] == s && Serialize(g)[..c] == Body(g)[..c];
    BurstedWithin(Body(f), c);
    BurstIsUnseen(Feed(START, s[..FIRST_DATA]), s[FIRST_DATA..]);
    assert s == s[..FIRST_DATA] + s[FIRST_DATA..];
    FeedAppend(START, s[..FIRST_DATA], s[FIRST_DATA..]);
    FeedAppend(START, s[..FIRST_DATA], Bursted(s[FIRST_DATA..]));
  }

  lemma BurstedWithin(body: seq<byte>, c: nat)
    requires FIRST_DATA + 5 <= c <= |body|
    ensures var s := body[..c];
      && (body[..FIRST_DATA] + Bursted(body[FIRST_DATA..]))[..c] == s[..FIRST_DATA] + Bursted(s[FIRST_DATA..])
      && (Bursted(s[FIRST_DATA..]) != s[FIRST_DATA..] ==> s[..FIRST_DATA] + Bursted(s[FIRST_DATA..]) != s)
  {
    hide Straddle.Flipped, GeneratorTail;
    var s := body[..c];
    var t := s[..FIRST_DATA] + Bursted(s[FIRST_DATA..]);
    assert t[FIRST_DATA..] == Bursted(s[FIRST_DATA..]);
  }

  lemma BurstedIsAlike(f: Frame)
    requires Encodable(f) && |f.blocks[0].data| >= 5
    ensures f.blocks != [] && FramesAlike(BurstedFrame(f), f) && Encodable(BurstedFrame(f))
  {
    hide Bursted;
    var g := BurstedFrame(f);
    forall i | 0 <= i < |g.blocks|
      ensures BlockEncodable(g.blocks[i]) && g.blocks[i].index == f.blocks[i].index
    {
      assert BlockEncodable(f.blocks[i]);
    }
  }
}
