/**
 * The ring between two processes, whose producer overwrites the oldest frames when it is
 * full. What a read returns, what the drop counter counts, and when a read that overlaps a
 * write is exact.
 */
module SharedRing {
  import opened RingIndex

  function Max(a: nat, b: nat): nat {
    if a < b then b else a
  }

  // ---------------------------------------------------------------------------
  // Whole calls, as the stream of accepted frames and two indices.

  /**
   * The last three are history: frames of an offer dropped because it exceeded the whole
   * ring, frames reads had to skip, and frames the drop counter counted again.
   */
  datatype Stream<F> = Stream(
    accepted: seq<F>, read: nat, framesRead: nat, dropped: nat, underrun: nat,
    excess: nat, skipped: nat, recounted: nat)

  function Fresh<F>(): Stream<F> {
    Stream([], 0, 0, 0, 0, 0, 0, 0)
  }

  /** Unread frames that are overwritten. */
  function Lapse<F>(capacity: nat, s: Stream<F>): nat
    requires s.read <= |s.accepted|
  {
    Less(|s.accepted| - s.read, capacity)
  }

  /** The newest frames of an offer, a whole ring at most. */
  function Newest<F>(capacity: nat, source: seq<F>): seq<F> {
    source[Less(|source|, capacity)..]
  }

  function Written<F>(capacity: nat, s: Stream<F>, source: seq<F>): (u: Stream<F>)
    requires s.read <= |s.accepted|
    ensures u.read <= |u.accepted|
  {
    if source == [] then s
    else
      var kept := Newest(capacity, source);
      var overwritten := Less(|s.accepted| - s.read + |kept|, capacity);
      s.(accepted := s.accepted + kept, dropped := s.dropped + (|source| - |kept|) + overwritten,
         excess := s.excess + (|source| - |kept|), recounted := s.recounted + Lapse(capacity, s))
  }

  /** Where the oldest frame still in the ring is. */
  function Oldest<F>(capacity: nat, s: Stream<F>): (start: nat)
    requires s.read <= |s.accepted|
    ensures s.read <= start <= |s.accepted|
  {
    s.read + Lapse(capacity, s)
  }

  function Taken<F>(capacity: nat, s: Stream<F>, wanted: nat): (r: (Stream<F>, seq<F>))
    requires s.read <= |s.accepted|
    ensures r.0.read <= |r.0.accepted|
  {
    if wanted == 0 then (s, [])
    else
      var start := Oldest(capacity, s);
      var taken := Min(wanted, |s.accepted| - start);
      (s.(read := start + taken, framesRead := s.framesRead + taken, underrun := s.underrun + (wanted - taken),
          skipped := s.skipped + (start - s.read)),
       s.accepted[start..start + taken])
  }

  /**
   * What a read returns: the stream from the oldest frame not overwritten, in order, and what it
   * counts. A read of nothing changes nothing.
   */
  lemma ReadReturns<F>(capacity: nat, s: Stream<F>, wanted: nat)
    requires s.read <= |s.accepted|
    ensures var (u, out) := Taken(capacity, s, wanted);
      if wanted == 0 then u == s && out == []
      else
        var start := Max(s.read, Less(|s.accepted|, capacity));
        && start + |out| == u.read && out == s.accepted[start..start + |out|]
        && (|out| == wanted || (|out| < wanted && u.read == |s.accepted|))
        && u == s.(read := u.read, framesRead := s.framesRead + |out|, underrun := s.underrun + wanted - |out|,
                   skipped := s.skipped + start - s.read)
  {
  }

  /** The newest frames of a stream, `n` at most. */
  function Last<F>(stream: seq<F>, n: nat): seq<F> {
    if |stream| <= n then stream else stream[|stream| - n..]
  }

  /**
   * The newest is kept: after a write a ring's worth of the stream ends as if every frame offered
   * had been accepted. What the offer has too much, and what falls out of the ring unread, is
   * counted dropped.
   */
  lemma WriteKeepsNewest<F>(capacity: nat, s: Stream<F>, source: seq<F>)
    requires s.read <= |s.accepted|
    ensures var u := Written(capacity, s, source);
      && Last(u.accepted, capacity) == Last(s.accepted + source, capacity)
      && u.accepted == s.accepted + Last(source, capacity)
      && u == s.(accepted := u.accepted, dropped := u.dropped, excess := u.excess, recounted := u.recounted)
      && (source != [] ==>
            u.dropped == s.dropped + Less(|source|, capacity)
                         + Less(|s.accepted| - s.read + |Last(source, capacity)|, capacity))
  {
    var kept := Last(source, capacity);
    assert Newest(capacity, source) == kept;
    if source == [] {
      assert s.accepted + [] == s.accepted;
    } else {
      var all, most := s.accepted + source, s.accepted + kept;
      if |source| > capacity {
        assert all[|all| - capacity..] == source[|source| - capacity..];
      }
    }
  }

  datatype Call<F> = Write(source: seq<F>) | Read(wanted: nat)

  function Made<F>(capacity: nat, s: Stream<F>, call: Call<F>): (u: Stream<F>)
    requires s.read <= |s.accepted|
    ensures u.read <= |u.accepted|
  {
    match call
    case Write(source) => Written(capacity, s, source)
    case Read(wanted) => Taken(capacity, s, wanted).0
  }

  function AllMade<F>(capacity: nat, s: Stream<F>, calls: seq<Call<F>>): (u: Stream<F>)
    requires s.read <= |s.accepted|
    ensures u.read <= |u.accepted|
    decreases |calls|
  {
    if calls == [] then s else AllMade(capacity, Made(capacity, s, calls[0]), calls[1..])
  }

  /** Offered frames that no read has returned and none ever will. */
  function Lost<F>(capacity: nat, s: Stream<F>): nat
    requires s.read <= |s.accepted|
  {
    s.excess + s.skipped + Lapse(capacity, s)
  }

  ghost predicate Balanced<F>(capacity: nat, s: Stream<F>) {
    && s.read <= |s.accepted| && s.read == s.framesRead + s.skipped
    && s.dropped == Lost(capacity, s) + s.recounted
  }

  function Offered<F>(calls: seq<Call<F>>): nat {
    if calls == [] then 0
    else (if calls[0].Write? then |calls[0].source| else 0) + Offered(calls[1..])
  }

  /** Every write that stores anything starts with nothing unread overwritten. */
  predicate NeverStartsLapsed<F>(capacity: nat, s: Stream<F>, calls: seq<Call<F>>)
    requires s.read <= |s.accepted|
    decreases |calls|
  {
    calls != [] ==>
      && (calls[0].Write? && calls[0].source != [] ==> Lapse(capacity, s) == 0)
      && NeverStartsLapsed(capacity, Made(capacity, s, calls[0]), calls[1..])
  }

  /**
   * Over any run of whole calls every offered frame is read, lost, or still to be read; and
   * the drop counter counts every lost frame, some of them again.
   */
  lemma {:induction false} EveryFrameAccounted<F>(capacity: nat, s: Stream<F>, calls: seq<Call<F>>)
    requires Balanced(capacity, s)
    ensures var u := AllMade(capacity, s, calls);
      && Balanced(capacity, u) && u.dropped >= Lost(capacity, u)
      && |u.accepted| + u.excess == |s.accepted| + s.excess + Offered(calls)
      && |u.accepted| + u.excess == u.framesRead + Lost(capacity, u) + (|u.accepted| - Oldest(capacity, u))
    decreases |calls|
  {
    if calls != [] {
      EveryFrameAccounted(capacity, Made(capacity, s, calls[0]), calls[1..]);
    }
  }

  /** The drop counter is exact if and only if no write starts lapsed. */
  lemma {:induction false} DroppedExactlyIff<F>(capacity: nat, s: Stream<F>, calls: seq<Call<F>>)
    requires Balanced(capacity, s) && s.recounted == 0
    ensures var u := AllMade(capacity, s, calls);
      u.dropped == Lost(capacity, u) <==> NeverStartsLapsed(capacity, s, calls)
    decreases |calls|
  {
    EveryFrameAccounted(capacity, s, calls);
    RecountedGrows(capacity, s, calls);
    if calls != [] {
      var t := Made(capacity, s, calls[0]);
      if t.recounted == 0 {
        EveryFrameAccounted(capacity, s, [calls[0]]);
        assert [calls[0]][1..] == [];
        DroppedExactlyIff(capacity, t, calls[1..]);
      } else {
        RecountedGrows(capacity, t, calls[1..]);
      }
    }
  }

  /**
   * Three writes and no read are enough for every capacity: fill the ring, write one frame,
   * and write another. Two frames are lost and three are counted.
   */
  lemma ThreeWritesRecount<F>(capacity: nat, x: F)
    requires capacity > 0
    ensures var calls := [Write(seq(capacity, i => x)), Write([x]), Write([x])];
      var u := AllMade(capacity, Fresh(), calls);
      Lost(capacity, u) == 2 && u.dropped == 3 && !NeverStartsLapsed(capacity, Fresh(), calls)
  {
    var full: seq<F>, one := seq(capacity, i => x), [x];
    var s0: Stream<F> := Fresh();
    var s1 := Written(capacity, s0, full);
    var s2 := Written(capacity, s1, one);
    ThreeWrites(capacity, x);
    hide Written;
    var none: seq<Call<F>> := [];
    OneCall(capacity, s2, Write(one), none);
    OneCall(capacity, s1, Write(one), [Write(one)] + none);
    OneCall(capacity, s0, Write(full), [Write(one)] + ([Write(one)] + none));
    assert [Write(full)] + ([Write(one)] + ([Write(one)] + none)) == [Write(full), Write(one), Write(one)];
  }

  lemma ThreeWrites<F>(capacity: nat, x: F)
    requires capacity > 0
    ensures var s1 := Written(capacity, Fresh(), seq(capacity, i => x));
      var s2 := Written(capacity, s1, [x]);
      var s3 := Written(capacity, s2, [x]);
      && s1.read == s2.read == s3.read == 0 && |s1.accepted| <= |s2.accepted| <= |s3.accepted|
      && Lapse(capacity, s2) == 1 && Lost(capacity, s3) == 2 && s3.dropped == 3
  {
    var full: seq<F>, one := seq(capacity, i => x), [x];
    var s1 := Written(capacity, Fresh(), full);
    var s2 := Written(capacity, s1, one);
    WrittenParts(capacity, Fresh(), full);
    hide Written;
    WrittenParts(capacity, s1, one);
    WrittenParts(capacity, s2, one);
  }

  lemma OneCall<F>(capacity: nat, s: Stream<F>, call: Call<F>, rest: seq<Call<F>>)
    requires s.read <= |s.accepted|
    ensures AllMade(capacity, s, [call] + rest) == AllMade(capacity, Made(capacity, s, call), rest)
    ensures NeverStartsLapsed(capacity, s, [call] + rest) <==>
      (call.Write? && call.source != [] ==> Lapse(capacity, s) == 0)
      && NeverStartsLapsed(capacity, Made(capacity, s, call), rest)
  {
    assert ([call] + rest)[1..] == rest;
  }

  lemma {:induction false} RecountedGrows<F>(capacity: nat, s: Stream<F>, calls: seq<Call<F>>)
    requires s.read <= |s.accepted|
    ensures AllMade(capacity, s, calls).recounted >= s.recounted
    decreases |calls|
  {
    if calls != [] {
      RecountedGrows(capacity, Made(capacity, s, calls[0]), calls[1..]);
    }
  }

  // ---------------------------------------------------------------------------
  // The ring over storage somebody else owns.

  class SharedRingState<F> {
    var writeIndex: nat
    var readIndex: nat
    var framesWritten: nat
    var framesRead: nat
    var framesDropped: nat
    var framesUnderrun: nat
    ghost var stream: Stream<F>

    /** The counters are those of the stream. */
    ghost predicate Counts()
      reads this
    {
      && readIndex == stream.read <= writeIndex == framesWritten == |stream.accepted|
      && framesRead == stream.framesRead && framesDropped == stream.dropped && framesUnderrun == stream.underrun
    }

    constructor ()
      ensures Counts() && stream == Fresh()
    {
      writeIndex, readIndex, framesWritten, framesRead, framesDropped, framesUnderrun := 0, 0, 0, 0, 0, 0;
      stream := Fresh();
    }
  }

  class SharedRing<F> {
    var data: array?<F>
    var state: SharedRingState?<F>

    ghost predicate Attached()
      reads this
    {
      data != null && state != null
    }

    ghost predicate Valid()
      reads this, data, state
    {
      Attached() ==>
        && data.Length > 0 && state.Counts()
        && Stored(data[..], state.stream.accepted, Less(state.writeIndex, data.Length), state.writeIndex)
    }

    constructor ()
      ensures Valid() && !Attached()
    {
      data, state := null, null;
    }

    /** A region just created, or one another ring has kept valid. */
    method Attach(data: array<F>, state: SharedRingState<F>)
      requires data.Length > 0 && state.Counts()
      requires Stored(data[..], state.stream.accepted, Less(state.writeIndex, data.Length), state.writeIndex)
      modifies this
      ensures Valid() && Attached() && this.data == data && this.state == state
    {
      this.data, this.state := data, state;
    }

    method Detach()
      modifies this
      ensures Valid() && !Attached()
    {
      data, state := null, null;
    }

    method Write(source: seq<F>) returns (frames: nat)
      requires Valid()
      modifies data, state
      ensures Valid()
      ensures !Attached() ==> frames == 0
      ensures Attached() ==>
        && state.stream == Written(data.Length, old(state.stream), source)
        && frames == Min(|source|, data.Length)
    {
      hide Stored, TwoPieces, Written, Newest;
      if data == null || state == null {
        return 0;
      }
      if source == [] {
        NothingWritten(data.Length, state.stream);
        return 0;
      }
      NewestExactly(data.Length, source);
      WrittenParts(data.Length, state.stream, source);
      var capacity := data.Length;
      var kept := source;
      frames := |source|;
      if frames > capacity {
        var excess := frames - capacity;
        state.framesDropped := state.framesDropped + excess;
        kept := source[excess..];
        frames := capacity;
      }
      assert kept == Newest(capacity, source);
      var write := state.writeIndex;
      var used := write - state.readIndex;
      if used + frames > capacity {
        state.framesDropped := state.framesDropped + (used + frames - capacity);
      }
      StoreNewest(data, state.stream.accepted, write, kept);
      state.stream := Written(capacity, state.stream, source);
      state.writeIndex := write + frames;
      state.framesWritten := state.framesWritten + frames;
    }

    method Read(wanted: nat) returns (out: seq<F>)
      requires Valid()
      modifies state
      ensures Valid()
      ensures !Attached() ==> out == []
      ensures Attached() ==> (state.stream, out) == Taken(data.Length, old(state.stream), wanted)
    {
      if data == null || state == null || wanted == 0 {
        return [];
      }
      hide Stored, TwoPieces;
      var capacity := data.Length;
      var read, write := state.readIndex, state.writeIndex;
      var start := read;
      if write - read > capacity {
        start := write - capacity;
      }
      var available := write - start;
      var taken := wanted;
      if taken > available {
        state.framesUnderrun := state.framesUnderrun + (taken - available);
        taken := available;
      }
      ghost var s := state.stream;
      state.stream := Taken(capacity, s, wanted).0;
      if taken == 0 {
        // Nothing to skip either: a lapped ring has a whole capacity to read.
        assert start == read && s.accepted[start..start] == [];
        return [];
      }
      out := CopyOut(data, start, taken);
      OutIsStream(data[..], s.accepted, Less(write, capacity), write, start, out);
      state.readIndex := start + taken;
      state.framesRead := state.framesRead + taken;
    }
  }

  /** No more than a capacity of frames goes in; the newest capacity can be read. */
  method StoreNewest<F>(data: array<F>, ghost stream: seq<F>, write: nat, kept: seq<F>)
    requires 0 < |kept| <= data.Length && write == |stream|
    requires Stored(data[..], stream, Less(write, data.Length), write)
    modifies data
    ensures Stored(data[..], stream + kept, Less(write + |kept|, data.Length), write + |kept|)
  {
    hide Stored, TwoPieces;
    ghost var before := data[..];
    CopyIn(data, write, kept);
    StoredLater(before, stream, Less(write, data.Length), Less(write + |kept|, data.Length), write);
    StoredAppend(before, data[..], stream, Less(write + |kept|, data.Length), kept);
  }

  lemma NothingWritten<F>(capacity: nat, s: Stream<F>)
    requires s.read <= |s.accepted|
    ensures Written(capacity, s, []) == s
  {
  }

  lemma NewestExactly<F>(capacity: nat, source: seq<F>)
    ensures Newest(capacity, source) == if |source| > capacity then source[|source| - capacity..] else source
  {
  }

  lemma WrittenParts<F>(capacity: nat, s: Stream<F>, source: seq<F>)
    requires s.read <= |s.accepted| && source != []
    ensures var u, kept := Written(capacity, s, source), Newest(capacity, source);
      && u.accepted == s.accepted + kept && u.read == s.read && u.framesRead == s.framesRead
      && u.underrun == s.underrun && |kept| == Min(|source|, capacity)
      && u.dropped == s.dropped + (|source| - |kept|) + Less(|s.accepted| - s.read + |kept|, capacity)
  {
  }

  // ---------------------------------------------------------------------------
  // A read while the producer overwrites.

  datatype Producer<F> = Resting | Writing(source: seq<F>, copied: nat)

  /** A read in progress, and whether the producer has stayed within its start plus a capacity. */
  datatype Consumer<F> = Waiting | Reading(start: nat, frames: nat, out: seq<F>, clear: bool)

  datatype Ring<F> = Ring(slots: seq<F>, write: nat, read: nat, producer: Producer<F>, consumer: Consumer<F>,
                          accepted: seq<F>)

  datatype Move<F> = BeginWrite(offer: seq<F>) | StoreFrame | PublishWrite
                   | BeginRead(wanted: nat) | LoadFrame | PublishRead

  predicate Enabled<F>(s: Ring<F>, m: Move<F>) {
    match m
    case BeginWrite(offer) => s.producer.Resting? && offer != []
    case StoreFrame => s.producer.Writing? && s.producer.copied < |s.producer.source|
    case PublishWrite => s.producer.Writing? && s.producer.copied == |s.producer.source|
    case BeginRead(wanted) => s.consumer.Waiting? && wanted > 0
    case LoadFrame => s.consumer.Reading? && |s.consumer.out| < s.consumer.frames
    case PublishRead => s.consumer.Reading? && |s.consumer.out| == s.consumer.frames
  }

  /** Where the write under way, if any, will end. */
  function InFlightEnd<F>(s: Ring<F>): nat {
    s.write + if s.producer.Writing? then |s.producer.source| else 0
  }

  ghost predicate Inv<F>(s: Ring<F>) {
    && |s.slots| > 0 && s.read <= s.write == |s.accepted|
    && Stored(s.slots, s.accepted, Less(InFlightEnd(s), |s.slots|), s.write)
    && (s.producer.Writing? ==>
          && s.producer.copied <= |s.producer.source| <= |s.slots|
          && forall i :: 0 <= i < s.producer.copied ==>
               s.slots[(s.write + i) % |s.slots|] == s.producer.source[i])
    && (s.consumer.Reading? ==>
          && |s.consumer.out| <= s.consumer.frames && s.read <= s.consumer.start
          && s.consumer.start + s.consumer.frames <= s.write
          && (s.consumer.clear ==>
                && InFlightEnd(s) <= s.consumer.start + |s.slots|
                && s.consumer.out == s.accepted[s.consumer.start..s.consumer.start + |s.consumer.out|]))
  }

  function Step<F>(s: Ring<F>, m: Move<F>): Ring<F>
    requires s.slots != [] && s.read <= s.write && Enabled(s, m)
  {
    var capacity := |s.slots|;
    match m
    case BeginWrite(offer) =>
      var t := s.(producer := Writing(Newest(capacity, offer), 0));
      if s.consumer.Reading? then
        t.(consumer := s.consumer.(clear := s.consumer.clear && InFlightEnd(t) <= s.consumer.start + capacity))
      else t
    case StoreFrame =>
      var k := s.producer.copied;
      s.(slots := s.slots[(s.write + k) % capacity := s.producer.source[k]], producer := s.producer.(copied := k + 1))
    case PublishWrite =>
      s.(write := s.write + |s.producer.source|, accepted := s.accepted + s.producer.source, producer := Resting)
    case BeginRead(wanted) =>
      var start := s.read + Less(s.write - s.read, capacity);
      var taken := Min(wanted, s.write - start);
      if taken == 0 then s
      else s.(consumer := Reading(start, taken, [], InFlightEnd(s) <= start + capacity))
    case LoadFrame =>
      var at := (s.consumer.start + |s.consumer.out|) % capacity;
      s.(consumer := s.consumer.(out := s.consumer.out + [s.slots[at]]))
    case PublishRead => s.(read := s.consumer.start + s.consumer.frames, consumer := Waiting)
  }

  lemma StoreKeeps<F>(s: Ring<F>)
    requires Inv(s) && Enabled(s, StoreFrame)
    ensures Inv(Step(s, StoreFrame))
  {
    var u, k, at := Step(s, StoreFrame), s.producer.copied, s.write + s.producer.copied;
    forall p | Less(InFlightEnd(u), |u.slots|) <= p < s.write
      ensures u.slots[p % |u.slots|] == u.accepted[p]
    {
      SlotsApart(p, at, |s.slots|);
    }
    forall i | 0 <= i < k
      ensures u.slots[(u.write + i) % |u.slots|] == u.producer.source[i]
    {
      SlotsApart(s.write + i, at, |s.slots|);
    }
  }

  lemma PublishKeeps<F>(s: Ring<F>)
    requires Inv(s) && Enabled(s, PublishWrite)
    ensures Inv(Step(s, PublishWrite))
  {
    var u := Step(s, PublishWrite);
    forall p | Less(InFlightEnd(u), |u.slots|) <= p < u.write
      ensures u.slots[p % |u.slots|] == u.accepted[p]
    {
      if p >= s.write {
        assert s.slots[(s.write + (p - s.write)) % |s.slots|] == s.producer.source[p - s.write];
      }
    }
    if u.consumer.Reading? {
      var c := u.consumer;
      assert u.accepted[c.start..c.start + |c.out|] == s.accepted[c.start..c.start + |c.out|];
    }
  }

  lemma LoadKeeps<F>(s: Ring<F>)
    requires Inv(s) && Enabled(s, LoadFrame)
    ensures Inv(Step(s, LoadFrame))
  {
    var p := s.consumer.start + |s.consumer.out|;
    if s.consumer.clear {
      assert s.slots[p % |s.slots|] == s.accepted[p];
    }
  }

  lemma StepKeeps<F>(s: Ring<F>, m: Move<F>)
    requires Inv(s) && Enabled(s, m)
    ensures Inv(Step(s, m))
  {
    match m
    case StoreFrame => StoreKeeps(s);
    case PublishWrite => PublishKeeps(s);
    case LoadFrame => LoadKeeps(s);
    case _ =>
  }

  ghost predicate Possible<F>(s: Ring<F>, moves: seq<Move<F>>)
    requires Inv(s)
    decreases |moves|
  {
    moves != [] ==>
      Enabled(s, moves[0]) && (StepKeeps(s, moves[0]); Possible(Step(s, moves[0]), moves[1..]))
  }

  ghost function After<F>(s: Ring<F>, moves: seq<Move<F>>): (u: Ring<F>)
    requires Inv(s) && Possible(s, moves)
    ensures Inv(u)
    decreases |moves|
  {
    if moves == [] then s else (StepKeeps(s, moves[0]); After(Step(s, moves[0]), moves[1..]))
  }

  /** Throughout the moves the producer stays within `limit`. */
  ghost predicate StaysWithin<F>(s: Ring<F>, moves: seq<Move<F>>, limit: nat)
    requires Inv(s) && Possible(s, moves)
    decreases |moves|
  {
    && InFlightEnd(s) <= limit
    && (moves != [] ==> (StepKeeps(s, moves[0]); StaysWithin(Step(s, moves[0]), moves[1..], limit)))
  }

  ghost predicate NoNewRead<F>(moves: seq<Move<F>>) {
    forall i :: 0 <= i < |moves| ==> !moves[i].BeginRead? && !moves[i].PublishRead?
  }

  /**
   * A read that has loaded its indices is exact when it is ready to publish, under every
   * interleaving in which the producer never reaches past its start plus a capacity.
   */
  lemma {:induction false} ReadExactIfWithin<F>(s: Ring<F>, moves: seq<Move<F>>)
    requires Inv(s) && Possible(s, moves) && NoNewRead(moves) && s.consumer.Reading? && s.consumer.clear
    requires StaysWithin(s, moves, s.consumer.start + |s.slots|)
    ensures var u, c := After(s, moves), After(s, moves).consumer;
      && c.Reading? && c.start == s.consumer.start && c.frames == s.consumer.frames
      && (Enabled(u, PublishRead) ==>
            c.start + c.frames <= |u.accepted| && c.out == u.accepted[c.start..c.start + c.frames])
    decreases |moves|
  {
    if moves != [] {
      ReadGoesOn(s, moves[0]);
      hide Inv, Step;
      ReadExactIfWithin(Step(s, moves[0]), moves[1..]);
    }
  }

  lemma ReadGoesOn<F>(s: Ring<F>, m: Move<F>)
    requires Inv(s) && Enabled(s, m) && !m.BeginRead? && !m.PublishRead? && s.consumer.Reading? && s.consumer.clear
    ensures Inv(Step(s, m))
    ensures var t := Step(s, m);
      && |t.slots| == |s.slots| && t.consumer.Reading?
      && t.consumer.start == s.consumer.start && t.consumer.frames == s.consumer.frames
      && (InFlightEnd(t) <= s.consumer.start + |s.slots| ==> t.consumer.clear)
  {
    StepKeeps(s, m);
    hide Inv;
  }

  lemma First<F>(s: Ring<F>, m: Move<F>, rest: seq<Move<F>>)
    requires Inv(s) && Enabled(s, m) && Inv(Step(s, m)) && Possible(Step(s, m), rest)
    ensures Possible(s, [m] + rest) && After(s, [m] + rest) == After(Step(s, m), rest)
  {
    hide Inv, Step, Enabled;
    assert ([m] + rest)[1..] == rest;
  }

  lemma {:induction false} Chained<F>(s: Ring<F>, a: seq<Move<F>>, b: seq<Move<F>>)
    requires Inv(s) && Possible(s, a) && Possible(After(s, a), b)
    ensures Possible(s, a + b) && After(s, a + b) == After(After(s, a), b)
    decreases |a|
  {
    if a == [] {
      assert a + b == b;
    } else {
      StepKeeps(s, a[0]);
      hide Inv, Step, Enabled;
      assert (a + b)[0] == a[0] && (a + b)[1..] == a[1..] + b;
      Chained(Step(s, a[0]), a[1..], b);
    }
  }

  /** The producer on its own stores `n` frames more. */
  lemma {:induction false} StoresOn<F>(s: Ring<F>, n: nat) returns (moves: seq<Move<F>>)
    requires Inv(s) && s.producer.Writing? && s.producer.copied + n <= |s.producer.source|
    ensures Possible(s, moves)
    ensures var u := After(s, moves);
      u == s.(slots := u.slots, producer := s.producer.(copied := s.producer.copied + n)) && |u.slots| == |s.slots|
    decreases n
  {
    if n == 0 {
      moves := [];
    } else {
      StepKeeps(s, StoreFrame);
      var t := Step(s, StoreFrame);
      var rest := StoresOn(t, n - 1);
      hide Inv, Step, Enabled;
      First(s, StoreFrame, rest);
      moves := [StoreFrame] + rest;
    }
  }

  /** The reader on its own loads `n` frames more. */
  lemma {:induction false} LoadsOn<F>(s: Ring<F>, n: nat) returns (moves: seq<Move<F>>)
    requires Inv(s) && s.consumer.Reading? && |s.consumer.out| + n <= s.consumer.frames
    ensures Possible(s, moves)
    ensures var u := After(s, moves);
      && u.consumer.Reading? && u == s.(consumer := s.consumer.(out := u.consumer.out))
      && |u.consumer.out| == |s.consumer.out| + n && s.consumer.out <= u.consumer.out
    ensures n > 0 ==>
      After(s, moves).consumer.out[|s.consumer.out|] == s.slots[(s.consumer.start + |s.consumer.out|) % |s.slots|]
    decreases n
  {
    if n == 0 {
      moves := [];
    } else {
      StepKeeps(s, LoadFrame);
      var t := Step(s, LoadFrame);
      var rest := LoadsOn(t, n - 1);
      hide Inv, Step, Enabled;
      First(s, LoadFrame, rest);
      moves := [LoadFrame] + rest;
    }
  }

  /** Where a write under way has passed, its frames are. */
  lemma StoredThere<F>(s: Ring<F>, j: nat, at: nat)
    requires Inv(s) && s.producer.Writing? && j < s.producer.copied && at + |s.slots| == s.write + j
    ensures s.slots[at % |s.slots|] == s.producer.source[j]
  {
    SameSlot(at, |s.slots|);
    assert s.slots[(s.write + j) % |s.slots|] == s.producer.source[j];
  }

  /**
   * The limit is exact: in any state in which a read has begun, nothing of it loaded, and the
   * write under way reaches past its start plus a capacity, some moves make the frame of that
   * write that falls on the read's start the first frame the read returns.
   */
  lemma OverrunTears<F>(s: Ring<F>) returns (moves: seq<Move<F>>)
    requires Inv(s) && s.consumer.Reading? && s.consumer.out == [] && s.consumer.frames > 0 && s.producer.Writing?
    requires s.write <= s.consumer.start + |s.slots| < InFlightEnd(s)
    ensures Possible(s, moves) && Enabled(After(s, moves), PublishRead)
    ensures var c := After(s, moves).consumer;
      && c.Reading? && c.start == s.consumer.start && |c.out| == c.frames == s.consumer.frames
      && c.out[0] == s.producer.source[s.consumer.start + |s.slots| - s.write]
  {
    var start, j := s.consumer.start, s.consumer.start + |s.slots| - s.write;
    var more := if s.producer.copied > j then 0 else j + 1 - s.producer.copied;
    assert s.producer.copied + more <= |s.producer.source|;
    var stores := StoresOn(s, more);
    var t := After(s, stores);
    StoredThere(t, j, start);
    hide Inv, Step, Possible, After;
    var loads := LoadsOn(t, t.consumer.frames);
    Chained(s, stores, loads);
    moves := stores + loads;
  }

  /**
   * Such a state is two moves from a ring just filled, for every capacity: a read of all of it
   * begins, and a write of one frame more.
   */
  lemma OverrunHappens<F>(filled: seq<F>, more: F)
    requires filled != []
    ensures var s := Ring(filled, |filled|, 0, Resting, Waiting, filled);
      && Inv(s)
      && var t := Step(s, BeginRead(|filled|)); t.slots == filled && t.read <= t.write && Enabled(t, BeginWrite([more]))
    ensures var s := Ring(filled, |filled|, 0, Resting, Waiting, filled);
      var u := Step(Step(s, BeginRead(|filled|)), BeginWrite([more]));
      && Inv(u) && u.consumer.Reading? && u.consumer.out == [] && u.consumer.frames > 0 && u.producer.Writing?
      && u.write <= u.consumer.start + |u.slots| < InFlightEnd(u)
  {
    var s := Ring(filled, |filled|, 0, Resting, Waiting, filled);
    forall p | 0 <= p < |filled|
      ensures filled[p % |filled|] == filled[p]
    {
    }
    StepKeeps(s, BeginRead(|filled|));
    var t := Step(s, BeginRead(|filled|));
    assert Newest(|filled|, [more]) == [more];
    StepKeeps(t, BeginWrite([more]));
  }

  // ---------------------------------------------------------------------------
  // The steps of a call, and the call.

  /** The stream of a ring between calls. */
  function StreamOf<F>(s: Ring<F>): Stream<F> {
    Stream(s.accepted, s.read, 0, 0, 0, 0, 0, 0)
  }

  lemma {:induction false} AcceptedGrows<F>(s: Ring<F>, moves: seq<Move<F>>)
    requires Inv(s) && Possible(s, moves)
    ensures s.accepted <= After(s, moves).accepted
    decreases |moves|
  {
    if moves != [] {
      StepKeeps(s, moves[0]);
      hide Inv;
      AcceptedGrows(Step(s, moves[0]), moves[1..]);
    }
  }

  /** What a read loads when it begins: from the oldest frame not overwritten, as much as is there and asked for. */
  lemma BegunRead<F>(s: Ring<F>, wanted: nat)
    requires Inv(s) && s.consumer.Waiting? && wanted > 0
    ensures var (t, start) := (Step(s, BeginRead(wanted)), Max(s.read, Less(s.write, |s.slots|)));
      if start >= s.write then start == s.write && t == s
      else
        && t == s.(consumer := t.consumer) && t.consumer.Reading? && t.consumer.start == start
        && t.consumer.frames == Min(wanted, s.write - start) > 0 && t.consumer.out == []
        && (InFlightEnd(s) <= start + |s.slots| ==> t.consumer.clear)
    ensures Inv(Step(s, BeginRead(wanted)))
  {
    StepKeeps(s, BeginRead(wanted));
  }

  lemma InBounds<F>(s: Ring<F>)
    requires Inv(s)
    ensures s.slots != [] && s.read <= s.write == |s.accepted|
  {
  }

  /**
   * A read is what the stream says it is when it begins, whatever the producer does until it is
   * done, so long as that stays within the read's start and a capacity.
   */
  lemma ReadIsTaken<F>(s: Ring<F>, wanted: nat, moves: seq<Move<F>>)
    requires Inv(s) && s.consumer.Waiting? && wanted > 0 && Inv(Step(s, BeginRead(wanted)))
    requires Possible(Step(s, BeginRead(wanted)), moves) && NoNewRead(moves)
    requires StaysWithin(Step(s, BeginRead(wanted)), moves, Max(s.read, Less(s.write, |s.slots|)) + |s.slots|)
    ensures var (u, taken) := (After(Step(s, BeginRead(wanted)), moves), Taken(|s.slots|, StreamOf(s), wanted));
      if taken.1 == [] then Step(s, BeginRead(wanted)) == s
      else u.consumer.Reading? && (Enabled(u, PublishRead) ==>
             u.consumer.out == taken.1 && Step(u, PublishRead).read == taken.0.read)
  {
    InBounds(s);
    hide *;
    BegunRead(s, wanted);
    var t := Step(s, BeginRead(wanted));
    if t.consumer.Reading? {
      AcceptedGrows(t, moves);
      WithinAtFirst(t, moves, t.consumer.start + |s.slots|);
      ReadExactIfWithin(t, moves);
      TakenAtLast(s, t, After(t, moves), wanted);
    } else {
      NothingTaken(s, wanted);
    }
  }

  lemma NothingTaken<F>(s: Ring<F>, wanted: nat)
    requires s.read <= s.write == |s.accepted| && Max(s.read, Less(s.write, |s.slots|)) == s.write
    ensures Taken(|s.slots|, StreamOf(s), wanted).1 == []
  {
    ReadReturns(|s.slots|, StreamOf(s), wanted);
  }

  lemma TakenAtLast<F>(s: Ring<F>, t: Ring<F>, u: Ring<F>, wanted: nat)
    requires s.slots != [] && s.read <= s.write == |s.accepted| && wanted > 0 && Inv(u)
    requires t.consumer.Reading? && t.consumer.start == Max(s.read, Less(s.write, |s.slots|)) <= s.write
    requires t.consumer.frames == Min(wanted, s.write - t.consumer.start) > 0
    requires u.consumer.Reading? && u.consumer.start == t.consumer.start && u.consumer.frames == t.consumer.frames
    requires s.accepted <= u.accepted
    requires var c := u.consumer; Enabled(u, PublishRead) ==>
      c.start + c.frames <= |u.accepted| && c.out == u.accepted[c.start..c.start + c.frames]
    ensures var taken := Taken(|s.slots|, StreamOf(s), wanted);
      && taken.1 != []
      && (Enabled(u, PublishRead) ==> u.consumer.out == taken.1 && Step(u, PublishRead).read == taken.0.read)
  {
    SamePart(s.accepted, u.accepted, t.consumer.start, t.consumer.start + t.consumer.frames);
    ReadReturns(|s.slots|, StreamOf(s), wanted);
    hide Inv;
  }

  lemma SamePart<F>(a: seq<F>, b: seq<F>, from: nat, to: nat)
    requires a <= b && from <= to <= |a|
    ensures a[from..to] == b[from..to]
  {
  }

  lemma WithinAtFirst<F>(s: Ring<F>, moves: seq<Move<F>>, limit: nat)
    requires Inv(s) && Possible(s, moves) && StaysWithin(s, moves, limit)
    ensures InFlightEnd(s) <= limit
  {
  }

  ghost predicate NoNewWrite<F>(moves: seq<Move<F>>) {
    forall i :: 0 <= i < |moves| ==> !moves[i].BeginWrite?
  }

  lemma {:induction false} WriteGoesOn<F>(s: Ring<F>, moves: seq<Move<F>>, before: seq<F>, source: seq<F>)
    requires Inv(s) && Possible(s, moves) && NoNewWrite(moves)
    requires if s.producer.Writing? then s.accepted == before && s.producer.source == source
             else s.accepted == before + source
    ensures var u := After(s, moves);
      if u.producer.Writing? then u.accepted == before && u.producer.source == source
      else u.accepted == before + source
    decreases |moves|
  {
    if moves != [] {
      StepKeeps(s, moves[0]);
      hide Inv;
      WriteGoesOn(Step(s, moves[0]), moves[1..], before, source);
    }
  }

  /** Whatever the reader does meanwhile, a write publishes what the stream says of its offer. */
  lemma WriteIsWritten<F>(s: Ring<F>, offer: seq<F>, moves: seq<Move<F>>)
    requires Inv(s) && s.producer.Resting? && offer != [] && Inv(Step(s, BeginWrite(offer)))
    requires Possible(Step(s, BeginWrite(offer)), moves) && NoNewWrite(moves)
    ensures var u := After(Step(s, BeginWrite(offer)), moves);
      u.accepted == if u.producer.Resting? then Written(|s.slots|, StreamOf(s), offer).accepted else s.accepted
  {
    WriteGoesOn(Step(s, BeginWrite(offer)), moves, s.accepted, Newest(|s.slots|, offer));
  }
}
