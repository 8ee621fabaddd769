/** Free-running frame counters, the slots of a ring they name, and copying in and out of it. */
module RingIndex {
  import opened Arithmetic

  const COUNTERS := 0x1_0000_0000_0000_0000

  /** The slot `i` frames on, without a second division. */
  lemma WrappedSlot(base: nat, capacity: nat, i: nat)
    requires i < capacity
    ensures (base + i) % capacity ==
      if base % capacity + i < capacity then base % capacity + i else base % capacity + i - capacity
  {
    var q, r := base / capacity, base % capacity;
    assert base == q * capacity + r;
    if r + i < capacity {
      DivideUnique(base + i, capacity, q, r + i);
    } else {
      assert (q + 1) * capacity == q * capacity + capacity;
      DivideUnique(base + i, capacity, q + 1, r + i - capacity);
    }
  }

  /** Frames of one window never share a slot. */
  lemma SlotsApart(p: nat, q: nat, capacity: nat)
    requires p < q < p + capacity
    ensures p % capacity != q % capacity
  {
    ApartModulo(p, q, capacity);
  }

  /** What a 64-bit counter holds after `n` frames. */
  function Wrapped(n: nat): nat {
    n % COUNTERS
  }

  /** How far apart two counters are, in 64-bit arithmetic. */
  function Apart(write: nat, read: nat): nat
    requires write < COUNTERS && read < COUNTERS
  {
    (write + COUNTERS - read) % COUNTERS
  }

  /** Fullness survives the wrap whatever the capacity. */
  lemma DistanceSurvivesWrap(write: nat, read: nat)
    requires read <= write < read + COUNTERS
    ensures Apart(Wrapped(write), Wrapped(read)) == write - read
  {
  }

  /**
   * Slots survive it exactly when the capacity divides two to the sixty-fourth; otherwise
   * the first frame after the wrap already lands in the wrong slot.
   */
  lemma SlotsSurviveWrapIff(capacity: nat)
    requires capacity > 0
    ensures (forall n: nat :: Wrapped(n) % capacity == n % capacity) <==> COUNTERS % capacity == 0
    ensures COUNTERS % capacity != 0 ==> Wrapped(COUNTERS) % capacity != COUNTERS % capacity
  {
    if COUNTERS % capacity == 0 {
      forall n: nat
        ensures Wrapped(n) % capacity == n % capacity
      {
        WholeTurns(n, capacity);
      }
    } else {
      assert Wrapped(COUNTERS) == 0;
      DivideUnique(0, capacity, 0, 0);
    }
  }

  lemma WholeTurns(n: nat, capacity: nat)
    requires capacity > 0 && COUNTERS % capacity == 0
    ensures Wrapped(n) % capacity == n % capacity
  {
    var turns, rest, each := n / COUNTERS, n % COUNTERS, COUNTERS / capacity;
    assert n == turns * COUNTERS + rest && COUNTERS == each * capacity;
    assert turns * (each * capacity) == turns * each * capacity;
    var q, r := rest / capacity, rest % capacity;
    assert rest == q * capacity + r;
    assert turns * each * capacity + q * capacity == (turns * each + q) * capacity;
    DivideUnique(n, capacity, turns * each + q, r);
  }

  // ---------------------------------------------------------------------------
  // A ring's storage.

  /** The difference, or zero. */
  function Less(a: nat, b: nat): nat {
    if a < b then 0 else a - b
  }

  function Min(a: nat, b: nat): nat {
    if a < b then a else b
  }

  /** The frames of a stream from `from` on, up to `to`, are where the counters say. */
  ghost predicate Stored<F>(slots: seq<F>, stream: seq<F>, from: nat, to: nat)
    requires slots != []
  {
    to <= |stream| && forall p :: from <= p < to ==> slots[p % |slots|] == stream[p]
  }

  /** Storing a run of frames in two pieces, the second at the start of the ring. */
  ghost predicate TwoPieces<F>(before: seq<F>, after: seq<F>, at: nat, source: seq<F>)
    requires before != []
  {
    var start, capacity := at % |before|, |before|;
    && |after| == capacity && |source| <= capacity
    && forall i :: 0 <= i < capacity ==>
         after[i] ==
           if start <= i < start + |source| then source[i - start]
           else if i + capacity < start + |source| then source[i + capacity - start]
           else before[i]
  }

  lemma PieceAt<F>(before: seq<F>, after: seq<F>, at: nat, source: seq<F>, i: nat)
    requires before != [] && TwoPieces(before, after, at, source) && i < |before|
    ensures after[(at + i) % |before|] == if i < |source| then source[i] else before[(at + i) % |before|]
  {
    WrappedSlot(at, |before|, i);
  }

  /** The stream grows by what was stored; what the new frames do not reach stays. */
  lemma StoredAppend<F>(before: seq<F>, after: seq<F>, stream: seq<F>, from: nat, source: seq<F>)
    requires before != [] && TwoPieces(before, after, |stream|, source)
    requires Stored(before, stream, from, |stream|) && |stream| + |source| <= from + |before|
    ensures Stored(after, stream + source, from, |stream| + |source|)
  {
    var capacity, grown := |before|, stream + source;
    forall p | from <= p < |grown|
      ensures after[p % capacity] == grown[p]
    {
      if p >= |stream| {
        PieceAt(before, after, |stream|, source, p - |stream|);
      } else {
        var i := p + capacity - |stream|;
        SameSlot(p, capacity);
        PieceAt(before, after, |stream|, source, i);
      }
    }
  }

  lemma SameSlot(p: nat, capacity: nat)
    requires capacity > 0
    ensures (p + capacity) % capacity == p % capacity
  {
    var q, r := p / capacity, p % capacity;
    assert p + capacity == (q + 1) * capacity + r;
    DivideUnique(p + capacity, capacity, q + 1, r);
  }

  /** Copy frames into the ring at `at`, in two pieces if they pass its end. */
  method CopyIn<F>(buffer: array<F>, at: nat, source: seq<F>)
    requires buffer.Length > 0 && |source| <= buffer.Length
    modifies buffer
    ensures TwoPieces(old(buffer[..]), buffer[..], at, source)
  {
    var start := at % buffer.Length;
    var first := Min(|source|, buffer.Length - start);
    forall i | 0 <= i < first {
      buffer[start + i] := source[i];
    }
    if |source| > first {
      forall i | 0 <= i < |source| - first {
        buffer[i] := source[first + i];
      }
    }
  }

  /** Copy frames out of the ring from `at`. */
  method CopyOut<F>(buffer: array<F>, at: nat, frames: nat) returns (out: seq<F>)
    requires buffer.Length > 0 && frames <= buffer.Length
    ensures |out| == frames
    ensures forall i :: 0 <= i < frames ==> out[i] == buffer[(at + i) % buffer.Length]
  {
    var start := at % buffer.Length;
    var first := Min(frames, buffer.Length - start);
    out := buffer[start..start + first];
    if frames > first {
      out := out + buffer[..frames - first];
    }
    forall i | 0 <= i < frames
      ensures out[i] == buffer[(at + i) % buffer.Length]
    {
      WrappedSlot(at, buffer.Length, i);
    }
  }

  lemma StoredLater<F>(slots: seq<F>, stream: seq<F>, from: nat, later: nat, to: nat)
    requires slots != [] && Stored(slots, stream, from, to) && from <= later
    ensures Stored(slots, stream, later, to)
  {
  }

  /** What is copied out of the readable window is the stream there. */
  lemma OutIsStream<F>(slots: seq<F>, stream: seq<F>, from: nat, to: nat, start: nat, out: seq<F>)
    requires slots != [] && Stored(slots, stream, from, to) && from <= start && start + |out| <= to
    requires forall i :: 0 <= i < |out| ==> out[i] == slots[(start + i) % |slots|]
    ensures start + |out| <= |stream| && out == stream[start..start + |out|]
  {
    forall i | 0 <= i < |out|
      ensures out[i] == stream[start + i]
    {
      assert slots[(start + i) % |slots|] == stream[start + i];
    }
  }
}
