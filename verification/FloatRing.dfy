/**
 * The single-producer, single-consumer ring that truncates when it is full. First as one
 * object whose calls do not overlap; then as two threads that do, a frame copied at a step.
 * A frame is one value of all channels.
 */
module FloatRing {
  import opened RingIndex

  class FloatRing<F(0)> {
    var buffer: array<F>
    var writeIndex: nat
    var readIndex: nat
    var framesWritten: nat
    var framesRead: nat
    var framesDropped: nat
    var framesUnderrun: nat

    /** Every frame accepted since the ring was opened. */
    ghost var accepted: seq<F>

    ghost predicate Valid()
      reads this, buffer
    {
      && (buffer.Length == 0 || buffer.Length >= 2)
      && readIndex <= writeIndex <= readIndex + buffer.Length
      && |accepted| == writeIndex == framesWritten && framesRead == readIndex
      && (buffer.Length > 0 ==> Stored(buffer[..], accepted, readIndex, writeIndex))
    }

    constructor ()
      ensures Valid() && fresh(buffer) && buffer.Length == 0 && accepted == []
    {
      buffer := new F[0];
      writeIndex, readIndex := 0, 0;
      framesWritten, framesRead, framesDropped, framesUnderrun := 0, 0, 0, 0;
      accepted := [];
    }

    method Open(frames: nat, channels: nat) returns (ok: bool)
      modifies this
      requires Valid()
      ensures Valid() && (ok <==> frames >= 2 && channels > 0)
      ensures ok ==> fresh(buffer) && buffer.Length == frames && accepted == []
      ensures ok ==> writeIndex == readIndex == framesDropped == framesUnderrun == 0
      ensures !ok ==> unchanged(this)
    {
      if frames < 2 || channels == 0 {
        return false;
      }
      buffer := new F[frames];
      writeIndex, readIndex := 0, 0;
      framesWritten, framesRead, framesDropped, framesUnderrun := 0, 0, 0, 0;
      accepted := [];
      return true;
    }

    /** What fits is accepted, and what does not is counted. */
    method Write(source: seq<F>) returns (frames: nat)
      requires Valid()
      modifies this`writeIndex, this`framesWritten, this`framesDropped, this`accepted, buffer
      ensures Valid()
      ensures frames == Min(|source|, old(readIndex) + buffer.Length - old(writeIndex))
      ensures accepted == old(accepted) + source[..frames]
      ensures framesDropped == old(framesDropped) + if buffer.Length == 0 then 0 else |source| - frames
    {
      frames := |source|;
      if buffer.Length == 0 || frames == 0 {
        assert buffer.Length > 0 ==> source[..frames] == [];
        return 0;
      }
      var used := writeIndex - readIndex;
      var room := buffer.Length - used;
      if frames > room {
        framesDropped := framesDropped + (frames - room);
        frames := room;
      }
      if frames == 0 {
        return;
      }
      hide Stored, TwoPieces;
      ghost var before := buffer[..];
      CopyIn(buffer, writeIndex, source[..frames]);
      StoredAppend(before, buffer[..], accepted, readIndex, source[..frames]);
      accepted := accepted + source[..frames];
      writeIndex := writeIndex + frames;
      framesWritten := framesWritten + frames;
    }

    /** What is there is returned, the accepted frames in order, and what is not is counted. */
    method Read(wanted: nat) returns (out: seq<F>)
      requires Valid()
      modifies this`readIndex, this`framesRead, this`framesUnderrun
      ensures Valid()
      ensures |out| == Min(wanted, old(writeIndex) - old(readIndex))
      ensures readIndex == old(readIndex) + |out| && out == accepted[old(readIndex)..readIndex]
      ensures framesUnderrun == old(framesUnderrun) + if buffer.Length == 0 then 0 else wanted - |out|
    {
      if buffer.Length == 0 || wanted == 0 {
        return [];
      }
      var frames := wanted;
      var available := writeIndex - readIndex;
      if frames > available {
        framesUnderrun := framesUnderrun + (frames - available);
        frames := available;
      }
      if frames == 0 {
        return [];
      }
      hide Stored;
      out := CopyOut(buffer, readIndex, frames);
      OutIsStream(buffer[..], accepted, readIndex, writeIndex, readIndex, out);
      readIndex := readIndex + frames;
      framesRead := framesRead + frames;
    }
  }

  // ---------------------------------------------------------------------------
  // Both sides at once.

  /** A write that has loaded the reader's index: what it will store, and how much is stored. */
  datatype Producer<F> = Resting | Writing(source: seq<F>, copied: nat)

  /** A read that has loaded the writer's index: how much it will take, and what it has. */
  datatype Consumer<F> = Waiting | Reading(frames: nat, out: seq<F>)

  /** `accepted` and `delivered` are what completed writes stored and completed reads returned. */
  datatype Ring<F> = Ring(slots: seq<F>, write: nat, read: nat, producer: Producer<F>, consumer: Consumer<F>,
                          accepted: seq<F>, delivered: seq<F>)

  datatype Move<F> = BeginWrite(source: seq<F>) | StoreFrame | PublishWrite
                   | BeginRead(frames: nat) | LoadFrame | PublishRead

  predicate Enabled<F>(s: Ring<F>, m: Move<F>) {
    match m
    case BeginWrite(_) => s.producer.Resting?
    case StoreFrame => s.producer.Writing? && s.producer.copied < |s.producer.source|
    case PublishWrite => s.producer.Writing? && s.producer.copied == |s.producer.source|
    case BeginRead(_) => s.consumer.Waiting?
    case LoadFrame => s.consumer.Reading? && |s.consumer.out| < s.consumer.frames
    case PublishRead => s.consumer.Reading? && |s.consumer.out| == s.consumer.frames
  }

  /** No slot is written that is unread, no index passes the other. */
  ghost predicate Inv<F>(s: Ring<F>) {
    && |s.slots| >= 2 && s.read <= s.write <= s.read + |s.slots|
    && |s.accepted| == s.write && Stored(s.slots, s.accepted, s.read, s.write)
    && s.delivered == s.accepted[..s.read]
    && (s.producer.Writing? ==>
          && s.producer.copied <= |s.producer.source| && s.write + |s.producer.source| <= s.read + |s.slots|
          && forall i :: 0 <= i < s.producer.copied ==>
               s.slots[(s.write + i) % |s.slots|] == s.producer.source[i])
    && (s.consumer.Reading? ==>
          && |s.consumer.out| <= s.consumer.frames && s.read + s.consumer.frames <= s.write
          && s.consumer.out == s.accepted[s.read..s.read + |s.consumer.out|])
  }

  function Step<F>(s: Ring<F>, m: Move<F>): Ring<F>
    requires s.slots != [] && s.read <= s.write <= s.read + |s.slots| && Enabled(s, m)
  {
    match m
    case BeginWrite(source) =>
      var frames := Min(|source|, s.read + |s.slots| - s.write);
      if frames == 0 then s else s.(producer := Writing(source[..frames], 0))
    case StoreFrame =>
      var k := s.producer.copied;
      s.(slots := s.slots[(s.write + k) % |s.slots| := s.producer.source[k]],
         producer := s.producer.(copied := k + 1))
    case PublishWrite =>
      s.(write := s.write + |s.producer.source|, accepted := s.accepted + s.producer.source, producer := Resting)
    case BeginRead(frames) =>
      var taken := Min(frames, s.write - s.read);
      if taken == 0 then s else s.(consumer := Reading(taken, []))
    case LoadFrame =>
      s.(consumer := s.consumer.(out := s.consumer.out + [s.slots[(s.read + |s.consumer.out|) % |s.slots|]]))
    case PublishRead =>
      s.(read := s.read + s.consumer.frames, delivered := s.delivered + s.consumer.out, consumer := Waiting)
  }

  /** Whatever slots a write is still to store and a read still to load, they are different. */
  lemma NoSlotShared<F>(s: Ring<F>, i: nat, j: nat)
    requires Inv(s) && s.producer.Writing? && s.consumer.Reading?
    requires i < |s.producer.source| && j < s.consumer.frames
    ensures (s.write + i) % |s.slots| != (s.read + j) % |s.slots|
  {
    SlotsApart(s.read + j, s.write + i, |s.slots|);
  }

  lemma StoreKeeps<F>(s: Ring<F>)
    requires Inv(s) && Enabled(s, StoreFrame)
    ensures Inv(Step(s, StoreFrame))
  {
    var u, k, at := Step(s, StoreFrame), s.producer.copied, s.write + s.producer.copied;
    forall p | s.read <= p < s.write
      ensures u.slots[p % |u.slots|] == u.accepted[p]
    {
      SlotsApart(p, at, |s.slots|);
    }
    forall i | 0 <= i < k
      ensures u.slots[(u.write + i) % |u.slots|] == u.producer.source[i]
    {
      SlotsApart(s.write + i, at, |s.slots|);
    }
  }

  lemma PublishWriteKeeps<F>(s: Ring<F>)
    requires Inv(s) && Enabled(s, PublishWrite)
    ensures Inv(Step(s, PublishWrite))
  {
    var u := Step(s, PublishWrite);
    forall p | u.read <= p < u.write
      ensures u.slots[p % |u.slots|] == u.accepted[p]
    {
      if p >= s.write {
        assert s.slots[(s.write + (p - s.write)) % |s.slots|] == s.producer.source[p - s.write];
      }
    }
    assert u.accepted[..u.read] == s.accepted[..u.read];
    if u.consumer.Reading? {
      assert u.accepted[u.read..u.read + |u.consumer.out|] == s.accepted[u.read..u.read + |u.consumer.out|];
    }
  }

  lemma LoadKeeps<F>(s: Ring<F>)
    requires Inv(s) && Enabled(s, LoadFrame)
    ensures Inv(Step(s, LoadFrame))
  {
    var p := s.read + |s.consumer.out|;
    assert s.slots[p % |s.slots|] == s.accepted[p];
  }

  lemma PublishReadKeeps<F>(s: Ring<F>)
    requires Inv(s) && Enabled(s, PublishRead)
    ensures Inv(Step(s, PublishRead))
  {
    assert s.accepted[..s.read] + s.accepted[s.read..s.read + s.consumer.frames]
        == s.accepted[..s.read + s.consumer.frames];
  }

  lemma BeginKeeps<F>(s: Ring<F>, m: Move<F>)
    requires Inv(s) && Enabled(s, m) && (m.BeginWrite? || m.BeginRead?)
    ensures Inv(Step(s, m))
  {
  }

  lemma StepKeeps<F>(s: Ring<F>, m: Move<F>)
    requires Inv(s) && Enabled(s, m)
    ensures Inv(Step(s, m))
  {
    hide Inv, Step, Enabled;
    match m
    case StoreFrame => StoreKeeps(s);
    case PublishWrite => PublishWriteKeeps(s);
    case LoadFrame => LoadKeeps(s);
    case PublishRead => PublishReadKeeps(s);
    case _ => BeginKeeps(s, m);
  }

  ghost predicate Possible<F>(s: Ring<F>, moves: seq<Move<F>>)
    requires Inv(s)
    decreases |moves|
  {
    moves != [] ==>
      Enabled(s, moves[0]) && (StepKeeps(s, moves[0]); Possible(Step(s, moves[0]), moves[1..]))
  }

  ghost function After<F>(s: Ring<F>, moves: seq<Move<F>>): (u: Ring<F>)
    requires Inv(s) && Possible(s, moves)
    ensures Inv(u)
    decreases |moves|
  {
    if moves == [] then s else (StepKeeps(s, moves[0]); After(Step(s, moves[0]), moves[1..]))
  }

  /**
   * Under every interleaving: the completed reads, one after another, are a prefix of the
   * completed writes, one after another; nothing accepted is ever lost, repeated or
   * reordered, and the indices stay within a capacity of each other.
   */
  lemma {:induction false} ReadsArePrefix<F>(s: Ring<F>, moves: seq<Move<F>>)
    requires Inv(s) && Possible(s, moves)
    ensures var u := After(s, moves);
      && u.delivered <= u.accepted && |u.delivered| == u.read
      && u.read <= u.write <= u.read + |u.slots|
    ensures s.accepted <= After(s, moves).accepted && s.delivered <= After(s, moves).delivered
    decreases |moves|
  {
    if moves != [] {
      StepKeeps(s, moves[0]);
      StepOnlyAppends(s, moves[0]);
      hide Inv, Step, Enabled;
      ReadsArePrefix(Step(s, moves[0]), moves[1..]);
    }
  }

  lemma StepOnlyAppends<F>(s: Ring<F>, m: Move<F>)
    requires Inv(s) && Enabled(s, m)
    ensures s.accepted <= Step(s, m).accepted && s.delivered <= Step(s, m).delivered
  {
  }

  ghost predicate NoNewWrite<F>(moves: seq<Move<F>>) {
    forall i :: 0 <= i < |moves| ==> !moves[i].BeginWrite?
  }

  ghost predicate NoNewRead<F>(moves: seq<Move<F>>) {
    forall i :: 0 <= i < |moves| ==> !moves[i].BeginRead?
  }

  lemma {:induction false} WriteGoesOn<F>(s: Ring<F>, moves: seq<Move<F>>, before: seq<F>, source: seq<F>)
    requires Inv(s) && Possible(s, moves) && NoNewWrite(moves)
    requires if s.producer.Writing? then s.accepted == before && s.producer.source == source
             else s.accepted == before + source
    ensures var u := After(s, moves);
      if u.producer.Writing? then u.accepted == before && u.producer.source == source
      else u.accepted == before + source
    decreases |moves|
  {
    if moves != [] {
      StepKeeps(s, moves[0]);
      hide Inv;
      WriteGoesOn(Step(s, moves[0]), moves[1..], before, source);
    }
  }

  /**
   * Whatever the reader does meanwhile, a write stores and publishes as much of its offer as there
   * was room for when it began, from the front.
   */
  lemma WriteIsAppended<F>(s: Ring<F>, source: seq<F>, moves: seq<Move<F>>)
    requires Inv(s) && s.producer.Resting? && Inv(Step(s, BeginWrite(source)))
    requires Possible(Step(s, BeginWrite(source)), moves) && NoNewWrite(moves)
    ensures var (u, room) := (After(Step(s, BeginWrite(source)), moves), s.read + |s.slots| - s.write);
      var stored := if |source| < room then source else source[..room];
      u.accepted == if u.producer.Resting? then s.accepted + stored else s.accepted
  {
    var room := s.read + |s.slots| - s.write;
    var stored := source[..Min(|source|, room)];
    assert s.accepted + [] == s.accepted && (|source| < room ==> stored == source);
    WriteGoesOn(Step(s, BeginWrite(source)), moves, s.accepted, stored);
  }

  lemma {:induction false} ReadGoesOn<F>(s: Ring<F>, moves: seq<Move<F>>, before: seq<F>, from: nat, to: nat)
    requires Inv(s) && Possible(s, moves) && NoNewRead(moves) && from <= to <= |s.accepted|
    requires Takes(s, before, from, to, s.accepted[from..to])
    ensures Takes(After(s, moves), before, from, to, s.accepted[from..to])
    decreases |moves|
  {
    if moves != [] {
      var t := Step(s, moves[0]);
      StepKeeps(s, moves[0]);
      TakeGoesOn(s, moves[0], before, from, to);
      hide Inv, Step, Enabled, Takes;
      ReadGoesOn(t, moves[1..], before, from, to);
    }
  }

  /** A read of these frames is under way, or it is over and they have been delivered. */
  ghost predicate Takes<F>(s: Ring<F>, before: seq<F>, from: nat, to: nat, frames: seq<F>)
    requires from <= to
  {
    && to <= |s.accepted| && s.accepted[from..to] == frames
    && if s.consumer.Reading? then s.delivered == before && s.read == from && from + s.consumer.frames == to
       else s.delivered == before + frames
  }

  lemma TakeGoesOn<F>(s: Ring<F>, m: Move<F>, before: seq<F>, from: nat, to: nat)
    requires Inv(s) && Enabled(s, m) && !m.BeginRead? && from <= to <= |s.accepted|
    requires Takes(s, before, from, to, s.accepted[from..to])
    ensures Takes(Step(s, m), before, from, to, s.accepted[from..to])
  {
  }

  /**
   * Whatever the writer does meanwhile, a read returns as many frames as it asked for, or as were
   * there when it began: the next ones accepted.
   */
  lemma ReadIsTaken<F>(s: Ring<F>, frames: nat, moves: seq<Move<F>>)
    requires Inv(s) && s.consumer.Waiting? && Inv(Step(s, BeginRead(frames)))
    requires Possible(Step(s, BeginRead(frames)), moves) && NoNewRead(moves)
    ensures var u, there := After(Step(s, BeginRead(frames)), moves), s.write - s.read;
      var taken := if frames < there then frames else there;
      u.delivered
      == if u.consumer.Waiting? then s.delivered + s.accepted[s.read..s.read + taken] else s.delivered
  {
    var to := s.read + Min(frames, s.write - s.read);
    assert s.delivered + s.accepted[s.read..s.read] == s.delivered;
    ReadGoesOn(Step(s, BeginRead(frames)), moves, s.delivered, s.read, to);
  }

  /** A call can always go on to its end: there is a step for whoever has begun. */
  lemma NeverBlocked<F>(s: Ring<F>)
    requires Inv(s)
    ensures s.producer.Writing? ==> Enabled(s, StoreFrame) || Enabled(s, PublishWrite)
    ensures s.consumer.Reading? ==> Enabled(s, LoadFrame) || Enabled(s, PublishRead)
  {
  }
}
