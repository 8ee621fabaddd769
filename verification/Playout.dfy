/**
 * The playout buffer as a plain map from sample position to period: what a push, a take
 * and a discard mean, what every run of them keeps, and where the ledger does not balance.
 */
module Playout {
  import opened Arithmetic
  import opened Bytes

  datatype Geometry = Geometry(slots: nat, periodFrames: nat, periodBytes: nat)

  datatype PushStatus = Stored | Overrun | Duplicate | Late | Misaligned | Unusable

  /**
   * `held` is what the window holds; `end` is the end of the contiguous run the buffer
   * believes in. `skipped` counts held frames crossed as if they were a hole, which no
   * counter of the buffer does.
   */
  datatype Playout<T> = Playout(
    head: nat, end: nat, primed: bool, held: map<nat, T>,
    pushed: nat, played: nat, dropped: nat, late: nat, refused: nat, underruns: nat,
    concealed: nat, skipped: nat)

  function Empty<T>(): Playout<T> {
    Playout(0, 0, false, map[], 0, 0, 0, 0, 0, 0, 0, 0)
  }

  function Capacity(g: Geometry): nat {
    Frames(g, g.slots)
  }

  /** The frames in `n` periods. */
  function Frames(g: Geometry, n: nat): nat {
    n * g.periodFrames
  }

  /** On a period boundary. */
  predicate Aligned(g: Geometry, position: nat)
    requires g.periodFrames > 0
  {
    position % g.periodFrames == 0
  }

  // ---------------------------------------------------------------------------
  // The operations.

  function Below<T>(held: map<nat, T>, position: nat): set<nat> {
    set p | p in held && p < position
  }

  function From<T>(held: map<nat, T>, position: nat): map<nat, T> {
    map p | p in held && p >= position :: held[p]
  }

  /** The end of the run of held periods that starts at `from`. */
  function RunEnd<T>(g: Geometry, held: map<nat, T>, from: nat, limit: nat): (e: nat)
    requires g.periodFrames > 0
    ensures from <= e && (e == from || e < limit + g.periodFrames)
    decreases limit - from
  {
    if from < limit && from in held then RunEnd(g, held, from + g.periodFrames, limit) else from
  }

  /** The head is seated by whichever period comes first. */
  function Seated<T>(s: Playout<T>, position: nat): Playout<T> {
    if s.primed then s else s.(head := position, end := position, primed := true)
  }

  /** Where the head goes to make room for an arrival at or beyond the window's end. */
  function Surrendered<T>(g: Geometry, s: Playout<T>, position: nat): Playout<T>
    requires position >= s.head
  {
    if position < s.head + Capacity(g) then s
    else
      var head := if position - s.head > Capacity(g) then position else s.head + g.periodFrames;
      s.(head := head, end := if s.end < head then head else s.end, held := From(s.held, head),
         dropped := s.dropped + Frames(g, |Below(s.held, head)|))
  }

  /** Hold one period, and extend the run if it continues it. */
  function Store<T>(g: Geometry, t: Playout<T>, position: nat, period: T): Playout<T>
    requires g.periodFrames > 0
  {
    var held := t.held[position := period];
    var end := if position == t.end then RunEnd(g, held, t.end, t.head + Capacity(g)) else t.end;
    t.(held := held, end := end, pushed := t.pushed + g.periodFrames)
  }

  predicate Usable(g: Geometry, position: nat, bytes: nat) {
    && g.periodBytes > 0 && g.periodFrames > 0 && bytes == g.periodBytes
    && Aligned(g, position)
  }

  function Push<T>(g: Geometry, s: Playout<T>, position: nat, period: T, bytes: nat): (Playout<T>, PushStatus) {
    if g.periodBytes == 0 || g.periodFrames == 0 || bytes != g.periodBytes then
      (s.(refused := s.refused + 1), Unusable)
    else if !Aligned(g, position) then (s.(refused := s.refused + 1), Misaligned)
    else if g.slots == 0 then (s.(dropped := s.dropped + g.periodFrames), Overrun)
    else if s.primed && position < s.head then (s.(late := s.late + g.periodFrames), Late)
    else
      var t := Surrendered(g, Seated(s, position), position);
      if position in t.held then (t.(refused := t.refused + 1), Duplicate)
      else (Store(g, t, position, period), if t.dropped > s.dropped then Overrun else Stored)
  }

  datatype Played<T> = Played(position: nat, period: T)

  /** Cross one period of what the buffer takes for a hole. */
  function Crossed<T>(g: Geometry, s: Playout<T>): Playout<T>
    requires g.periodFrames > 0
  {
    var head := s.head + g.periodFrames;
    var held := From(s.held, head);
    s.(head := head, end := RunEnd(g, held, head, head + Capacity(g)), held := held,
       concealed := s.concealed + g.periodFrames, underruns := s.underruns + 1,
       skipped := s.skipped + Frames(g, |Below(s.held, head)|))
  }

  function Take<T>(g: Geometry, s: Playout<T>): (Playout<T>, Option<Played<T>>)
    requires s.primed ==> g.periodFrames > 0
    requires s.head < s.end ==> s.head in s.held
  {
    if !s.primed || (s.head >= s.end && |s.held| == 0) then
      (s.(underruns := s.underruns + 1), None)
    else if s.head >= s.end then (Crossed(g, s), None)
    else
      (s.(head := s.head + g.periodFrames, held := From(s.held, s.head + g.periodFrames),
          played := s.played + g.periodFrames),
       Some(Played(s.head, s.held[s.head])))
  }

  function WholePeriods(g: Geometry, frames: nat): nat
    requires g.periodFrames > 0
  {
    frames - frames % g.periodFrames
  }

  /** Keep at most `keep` frames of the contiguous run; the amount dropped. */
  function Discard<T>(g: Geometry, s: Playout<T>, keep: nat): (Playout<T>, nat)
    requires g.periodFrames > 0 && s.head <= s.end
  {
    var whole := WholePeriods(g, keep);
    if s.end - s.head <= whole then (s, 0)
    else
      var drop := s.end - s.head - whole;
      var head := s.head + drop;
      var held := From(s.held, head);
      (s.(head := head, held := held, dropped := s.dropped + drop,
          end := RunEnd(g, held, s.end, head + Capacity(g))),
       drop)
  }

  // ---------------------------------------------------------------------------
  // What every operation keeps.

  /** The run is as long as what is held allows. */
  ghost predicate Maximal<T>(s: Playout<T>) {
    s.end !in s.held
  }

  ghost predicate Inv<T>(g: Geometry, s: Playout<T>) {
    && (!s.primed ==> s.held == map[] && s.head == s.end == 0)
    && (s.primed ==> g.periodFrames > 0 && g.slots > 0 && Window(g, s) && (s.end > s.head ==> Maximal(s)))
  }

  /** Everything held is an aligned period in the window, and the run before `end` is held. */
  ghost predicate Window<T>(g: Geometry, s: Playout<T>)
    requires g.periodFrames > 0
  {
    && Aligned(g, s.head) && Aligned(g, s.end)
    && s.head <= s.end <= s.head + Capacity(g)
    && (forall p :: p in s.held ==> s.head <= p < s.head + Capacity(g))
    && (forall p :: p in s.held ==> Aligned(g, p))
    && (forall p :: s.head <= p < s.end && Aligned(g, p) ==> p in s.held)
  }

  ghost predicate Balanced<T>(g: Geometry, s: Playout<T>) {
    s.pushed == s.played + s.dropped + Frames(g, |s.held|) + s.skipped
  }

  // Facts about alignment; the lemmas after them do not look inside it.

  lemma NextAligned(g: Geometry, p: nat)
    requires g.periodFrames > 0 && Aligned(g, p)
    ensures Aligned(g, p + g.periodFrames)
    ensures forall q :: p < q < p + g.periodFrames ==> !Aligned(g, q)
  {
    var k := p / g.periodFrames;
    assert p == k * g.periodFrames;
    DivideUnique(p + g.periodFrames, g.periodFrames, k + 1, 0);
    forall q | p < q < p + g.periodFrames
      ensures !Aligned(g, q)
    {
      DivideUnique(q, g.periodFrames, k, q - p);
    }
  }

  lemma CapacityAligned(g: Geometry, p: nat)
    requires g.periodFrames > 0 && Aligned(g, p)
    ensures Aligned(g, p + Capacity(g))
  {
    var k := p / g.periodFrames;
    assert p + Capacity(g) == (k + g.slots) * g.periodFrames;
    DivideUnique(p + Capacity(g), g.periodFrames, k + g.slots, 0);
  }

  lemma CapacityHoldsOne(g: Geometry)
    requires g.slots > 0
    ensures Capacity(g) >= g.periodFrames
  {
    MultiplyOrdered(1, g.slots, g.periodFrames);
  }

  lemma FramesAdd(g: Geometry, m: nat, n: nat)
    ensures Frames(g, m + n) == Frames(g, m) + Frames(g, n)
    ensures Frames(g, 1) == g.periodFrames && Frames(g, 0) == 0
  {
  }

  lemma {:induction false} RunEndExtends<T>(g: Geometry, held: map<nat, T>, from: nat, limit: nat)
    requires g.periodFrames > 0 && Aligned(g, from) && Aligned(g, limit) && from <= limit
    requires forall p :: p in held ==> p < limit
    ensures var e := RunEnd(g, held, from, limit);
      && Aligned(g, e) && from <= e <= limit && e !in held
      && (forall p :: from <= p < e && Aligned(g, p) ==> p in held)
    decreases limit - from
  {
    if from < limit && from in held {
      hide Aligned;
      NextAligned(g, from);
      RunEndExtends(g, held, from + g.periodFrames, limit);
    }
  }

  lemma SplitHeld<T>(held: map<nat, T>, position: nat)
    ensures |held| == |Below(held, position)| + |From(held, position)|
  {
    var below, from := Below(held, position), From(held, position);
    assert held.Keys == below + from.Keys && below !! from.Keys;
  }

  // ---------------------------------------------------------------------------
  // Push.

  /** Making room: the arrival is in the new window, and what stays is still a run. */
  lemma SurrenderKeepsWindow<T>(g: Geometry, s: Playout<T>, position: nat)
    requires s.primed && Inv(g, s) && position >= s.head && Aligned(g, position)
    ensures var t := Surrendered(g, s, position);
      && Window(g, t) && t.primed
      && t.head <= position < t.head + Capacity(g)
      && (t.end > t.head && t.end != position ==> Maximal(t))
      && (t != s ==> position !in t.held)
  {
    hide Aligned, Frames;
    CapacityHoldsOne(g);
    hide Capacity;
    NextAligned(g, s.head);
    if position >= s.head + Capacity(g) {
      NextAligned(g, s.end);
      if s.end > s.head {
        assert s.end >= s.head + g.periodFrames;
      }
    }
  }

  lemma SurrenderBalances<T>(g: Geometry, s: Playout<T>, position: nat)
    requires position >= s.head && Balanced(g, s)
    requires forall p :: p in s.held ==> s.head <= p
    ensures Balanced(g, Surrendered(g, s, position))
    ensures Surrendered(g, s, position).dropped >= s.dropped
  {
    var t := Surrendered(g, s, position);
    SplitHeld(s.held, t.head);
    FramesAdd(g, |Below(s.held, t.head)|, |t.held|);
  }

  lemma SeatedKeeps<T>(g: Geometry, s: Playout<T>, position: nat)
    requires Inv(g, s) && g.periodFrames > 0 && g.slots > 0 && Aligned(g, position)
    requires s.primed ==> s.head <= position
    ensures Inv(g, Seated(s, position)) && Seated(s, position).primed
    ensures Balanced(g, s) ==> Balanced(g, Seated(s, position))
  {
  }

  lemma OneMoreHeld<T>(held: map<nat, T>, position: nat, period: T)
    requires position !in held
    ensures |held[position := period]| == |held| + 1
  {
    assert held[position := period].Keys == held.Keys + {position};
  }

  lemma StoreKeeps<T>(g: Geometry, t: Playout<T>, position: nat, period: T)
    requires g.periodFrames > 0 && g.slots > 0 && Window(g, t) && t.primed
    requires t.head <= position < t.head + Capacity(g) && Aligned(g, position)
    requires t.end > t.head && t.end != position ==> Maximal(t)
    requires position !in t.held
    ensures Inv(g, Store(g, t, position, period))
    ensures position == t.end ==> Maximal(Store(g, t, position, period))
  {
    hide Aligned, Capacity;
    CapacityAligned(g, t.head);
    if position == t.end {
      RunEndExtends(g, t.held[position := period], t.end, t.head + Capacity(g));
    }
    hide RunEnd;
  }

  lemma StoreBalances<T>(g: Geometry, t: Playout<T>, position: nat, period: T)
    requires g.periodFrames > 0 && position !in t.held && Balanced(g, t)
    ensures Balanced(g, Store(g, t, position, period))
  {
    OneMoreHeld(t.held, position, period);
    FramesAdd(g, |t.held|, 1);
  }

  /** The arrivals a push finds a place for. */
  predicate Places<T>(g: Geometry, s: Playout<T>, position: nat, bytes: nat) {
    Usable(g, position, bytes) && g.slots > 0 && (s.primed ==> s.head <= position)
  }

  lemma PlacingKeeps<T>(g: Geometry, s: Playout<T>, position: nat, period: T, bytes: nat)
    requires Inv(g, s) && Places(g, s, position, bytes)
    ensures Inv(g, Push(g, s, position, period, bytes).0)
    ensures Balanced(g, s) ==> Balanced(g, Push(g, s, position, period, bytes).0)
  {
    hide Aligned, Capacity, Frames, RunEnd;
    var seated := Seated(s, position);
    SeatedKeeps(g, s, position);
    SurrenderKeepsWindow(g, seated, position);
    if Balanced(g, s) {
      SurrenderBalances(g, seated, position);
    }
    var t := Surrendered(g, seated, position);
    if position in t.held {
      assert t == seated;
    } else {
      StoreKeeps(g, t, position, period);
      if Balanced(g, s) {
        StoreBalances(g, t, position, period);
      }
      hide *;
      assert Push(g, s, position, period, bytes).0 == Store(g, t, position, period) by {
        PushStores(g, s, position, period, bytes);
      }
    }
  }

  lemma PushStores<T>(g: Geometry, s: Playout<T>, position: nat, period: T, bytes: nat)
    requires Places(g, s, position, bytes)
    requires position !in Surrendered(g, Seated(s, position), position).held
    ensures Push(g, s, position, period, bytes).0
         == Store(g, Surrendered(g, Seated(s, position), position), position, period)
  {
  }

  lemma PushKeeps<T>(g: Geometry, s: Playout<T>, position: nat, period: T, bytes: nat)
    requires Inv(g, s)
    ensures Inv(g, Push(g, s, position, period, bytes).0)
    ensures g.slots > 0 && Balanced(g, s) ==> Balanced(g, Push(g, s, position, period, bytes).0)
  {
    if Places(g, s, position, bytes) {
      PlacingKeeps(g, s, position, period, bytes);
    } else {
      hide Surrendered, Capacity, Frames, RunEnd, Seated;
    }
  }

  // ---------------------------------------------------------------------------
  // Take.

  /** Below the next period there is at most the head's own. */
  lemma BelowNext<T>(g: Geometry, s: Playout<T>)
    requires s.primed && Inv(g, s)
    ensures Below(s.held, s.head + g.periodFrames) == if s.head in s.held then {s.head} else {}
    ensures |Below(s.held, s.head + g.periodFrames)| == if s.head in s.held then 1 else 0
  {
    hide Aligned, Capacity;
    NextAligned(g, s.head);
  }

  lemma CrossedKeeps<T>(g: Geometry, s: Playout<T>)
    requires s.primed && Inv(g, s) && s.head >= s.end
    ensures Inv(g, Crossed(g, s)) && Maximal(Crossed(g, s))
  {
    hide Aligned, Capacity;
    NextAligned(g, s.head);
    var head := s.head + g.periodFrames;
    CapacityAligned(g, head);
    RunEndExtends(g, From(s.held, head), head, head + Capacity(g));
  }

  lemma TakeKeeps<T>(g: Geometry, s: Playout<T>)
    requires Inv(g, s)
    ensures s.head < s.end ==> s.head in s.held
    ensures Inv(g, Take(g, s).0)
    ensures s.primed && s.held != map[] ==> Take(g, s).0.head == s.head + g.periodFrames
    ensures s.primed && s.held != map[] && (Maximal(s) || Take(g, s).1.None?) ==> Maximal(Take(g, s).0)
  {
    if s.primed {
      assert s.held != map[] <==> |s.held| != 0;
      if s.head < s.end {
        hide Aligned, Capacity;
        NextAligned(g, s.head);
      } else if s.held != map[] {
        CrossedKeeps(g, s);
        hide Inv, Window, Crossed;
        assert Take(g, s) == (Crossed(g, s), None);
        assert Crossed(g, s).head == s.head + g.periodFrames by { CrossedHead(g, s); }
      }
    }
  }

  lemma CrossedHead<T>(g: Geometry, s: Playout<T>)
    requires g.periodFrames > 0
    ensures Crossed(g, s).head == s.head + g.periodFrames
  {
  }

  lemma TakeBalances<T>(g: Geometry, s: Playout<T>)
    requires Inv(g, s) && (s.head < s.end ==> s.head in s.held) && Balanced(g, s)
    ensures Balanced(g, Take(g, s).0)
  {
    if s.primed {
      BelowNext(g, s);
      SplitHeld(s.held, s.head + g.periodFrames);
      FramesAdd(g, |Below(s.held, s.head + g.periodFrames)|, |From(s.held, s.head + g.periodFrames)|);
      FramesAdd(g, 0, 0);
      hide Inv, Window, RunEnd, Capacity, Frames, Below, From;
      assert s.head >= s.end && |s.held| != 0 ==> Take(g, s).0 == Crossed(g, s);
    }
  }

  /** A take crosses audio it holds exactly when the run it believes in is too short. */
  lemma TakeSkipsIffNotMaximal<T>(g: Geometry, s: Playout<T>)
    requires Inv(g, s) && (s.head < s.end ==> s.head in s.held)
    ensures Take(g, s).0.skipped == s.skipped + (if Maximal(s) then 0 else g.periodFrames)
    ensures !Maximal(s) ==> Take(g, s).1.None?
  {
    if s.primed {
      BelowNext(g, s);
      FramesAdd(g, 0, 0);
      hide Aligned, Capacity, RunEnd;
      assert !Maximal(s) ==> s.end == s.head && |s.held| != 0 by {
        assert !Maximal(s) ==> s.held != map[];
      }
    }
  }

  /**
   * What a take does: it plays the head of the run; or crosses a period of a hole if anything is
   * held; or nothing but count. With the run as long as what is held allows, it plays exactly
   * when the head is held.
   */
  lemma TakeExactly<T>(g: Geometry, s: Playout<T>)
    requires Inv(g, s)
    ensures s.head < s.end ==> s.head in s.held
    ensures var (t, out) := Take(g, s);
      if s.head < s.end then
        && out == Some(Played(s.head, s.held[s.head]))
        && t == s.(head := s.head + g.periodFrames, held := s.held - {s.head}, played := s.played + g.periodFrames)
      else if s.held == map[] then out == None && t == s.(underruns := s.underruns + 1)
      else
        && out == None
        && t == s.(head := s.head + g.periodFrames, end := t.end, held := s.held - {s.head},
                   concealed := s.concealed + g.periodFrames, underruns := s.underruns + 1, skipped := t.skipped)
    ensures Maximal(s) ==> (s.head < s.end <==> s.head in s.held)
  {
    TakeKeeps(g, s);
    HeldFromHead(g, s);
    assert s.held == map[] <==> |s.held| == 0;
    if s.primed {
      BelowNext(g, s);
      HeldPastHead(s, s.head + g.periodFrames);
    }
    hide Aligned, Capacity, RunEnd, Frames, From, Below;
  }

  /** With nothing but the head below a position, what is held from there on is all but the head. */
  lemma HeldPastHead<T>(s: Playout<T>, position: nat)
    requires forall p :: p in s.held ==> p >= s.head
    requires s.head < position && Below(s.held, position) == if s.head in s.held then {s.head} else {}
    ensures From(s.held, position) == s.held - {s.head}
  {
    assert forall p :: p in s.held && p < position ==> p in Below(s.held, position);
  }

  // ---------------------------------------------------------------------------
  // Discard.

  function AlignedRun(g: Geometry, from: nat, to: nat): set<nat>
    requires g.periodFrames > 0
  {
    set p | from <= p < to && Aligned(g, p)
  }

  lemma {:induction false} AlignedRunFrames(g: Geometry, from: nat, to: nat)
    requires g.periodFrames > 0 && Aligned(g, from) && Aligned(g, to) && from <= to
    ensures from + Frames(g, |AlignedRun(g, from, to)|) == to
    decreases if from <= to then to - from else 0
  {
    if from < to {
      hide Aligned;
      NextAligned(g, from);
      var rest := AlignedRun(g, from + g.periodFrames, to);
      AlignedRunFrames(g, from + g.periodFrames, to);
      assert AlignedRun(g, from, to) == {from} + rest;
      FramesAdd(g, 1, |rest|);
    } else {
      assert AlignedRun(g, from, to) == {};
    }
  }

  lemma DropAligned(g: Geometry, e: nat, keep: nat)
    requires g.periodFrames > 0 && Aligned(g, e) && WholePeriods(g, keep) <= e
    ensures Aligned(g, e - WholePeriods(g, keep))
  {
    var a, b := e / g.periodFrames, keep / g.periodFrames;
    assert e == a * g.periodFrames && WholePeriods(g, keep) == b * g.periodFrames;
    if a < b {
      MultiplyOrdered(a + 1, b, g.periodFrames);
    }
    var rest := (a - b) * g.periodFrames;
    assert e - WholePeriods(g, keep) == rest;
    DivideUnique(rest, g.periodFrames, a - b, 0);
  }

  lemma DiscardKeeps<T>(g: Geometry, s: Playout<T>, keep: nat)
    requires g.periodFrames > 0 && Inv(g, s)
    ensures s.head <= s.end
    ensures Inv(g, Discard(g, s, keep).0)
    ensures Maximal(s) ==> Maximal(Discard(g, s, keep).0)
  {
    var (t, drop) := Discard(g, s, keep);
    if drop > 0 {
      hide Aligned, Capacity;
      DropAligned(g, s.end, keep);
      CapacityAligned(g, t.head);
      RunEndExtends(g, From(s.held, t.head), s.end, t.head + Capacity(g));
    }
  }

  lemma DiscardBalances<T>(g: Geometry, s: Playout<T>, keep: nat)
    requires g.periodFrames > 0 && Inv(g, s) && s.head <= s.end && Balanced(g, s)
    ensures Balanced(g, Discard(g, s, keep).0)
  {
    var (t, drop) := Discard(g, s, keep);
    if drop > 0 {
      hide Aligned, Capacity, Frames;
      DropAligned(g, s.end, keep);
      assert Below(s.held, t.head) == AlignedRun(g, s.head, t.head);
      AlignedRunFrames(g, s.head, t.head);
      SplitHeld(s.held, t.head);
      FramesAdd(g, |Below(s.held, t.head)|, |t.held|);
    }
  }

  /**
   * A discard leaves the newest of the run, as many whole periods as `keep` frames have room for,
   * and touches nothing else.
   */
  lemma DiscardLeavesNewest<T>(g: Geometry, s: Playout<T>, keep: nat)
    requires g.periodFrames > 0 && Inv(g, s) && Maximal(s) && s.head <= s.end
    ensures var (t, drop) := Discard(g, s, keep);
      && t == s.(head := s.head + drop, held := t.held, dropped := s.dropped + drop)
      && (if s.end - s.head <= keep then drop == 0 else t.end - t.head <= keep < t.end - t.head + g.periodFrames)
      && t.held == map p | p in s.held && p >= t.head :: s.held[p]
  {
    hide Capacity;
    HeldFromHead(g, s);
    WholeRun(g, s.end - s.head, keep) by {
      if s.primed {
        RunIsWhole(g, s);
      }
    }
    hide Window, Aligned;
  }

  lemma RunIsWhole<T>(g: Geometry, s: Playout<T>)
    requires g.periodFrames > 0 && Aligned(g, s.head) && Aligned(g, s.end) && s.head <= s.end
    ensures (s.end - s.head) % g.periodFrames == 0
  {
    var a, b := s.end / g.periodFrames, s.head / g.periodFrames;
    assert s.end == a * g.periodFrames && s.head == b * g.periodFrames;
    assert s.end - s.head == (a - b) * g.periodFrames;
    DivideUnique(s.end - s.head, g.periodFrames, a - b, 0);
  }

  /** A run of whole periods is longer than the whole periods of `keep` exactly when it is longer than `keep`. */
  lemma WholeRun(g: Geometry, run: nat, keep: nat)
    requires g.periodFrames > 0 && run % g.periodFrames == 0
    ensures run <= WholePeriods(g, keep) <==> run <= keep
    ensures WholePeriods(g, keep) <= keep < WholePeriods(g, keep) + g.periodFrames
  {
    var a, b := run / g.periodFrames, keep / g.periodFrames;
    assert run == a * g.periodFrames && WholePeriods(g, keep) == b * g.periodFrames;
    if a > b {
      MultiplyOrdered(b + 1, a, g.periodFrames);
    }
  }

  lemma HeldFromHead<T>(g: Geometry, s: Playout<T>)
    requires Inv(g, s)
    ensures forall p :: p in s.held ==> p >= s.head
  {
  }

  // ---------------------------------------------------------------------------
  // Every arrival is named and counted.

  /**
   * An arrival is held exactly when it is reported stored or overrun, and overrun exactly when
   * held audio was surrendered for it; every other report counts the arrival and changes
   * nothing else. A buffer without slots counts what it could have held as dropped.
   */
  lemma PushIsNamedAndCounted<T>(g: Geometry, s: Playout<T>, position: nat, period: T, bytes: nat)
    requires Inv(g, s)
    ensures g.slots == 0 && Usable(g, position, bytes) ==>
      Push(g, s, position, period, bytes) == (s.(dropped := s.dropped + g.periodFrames), Overrun)
    ensures var (t, status) := Push(g, s, position, period, bytes);
      g.slots > 0 || !Usable(g, position, bytes) ==>
        && ((status.Stored? || status.Overrun?) <==> t.pushed > s.pushed)
        && ((status.Stored? || status.Overrun?) ==>
              position !in s.held && position in t.held && t.held[position] == period
              && t.refused == s.refused && t.late == s.late)
        && (status.Overrun? <==> t.dropped > s.dropped)
        && (status.Late? <==> t.late > s.late)
        && ((status.Duplicate? || status.Misaligned? || status.Unusable?) <==> t.refused > s.refused)
        && (t.pushed == s.pushed ==> t == s.(late := t.late, refused := t.refused))
        && t.played == s.played && t.concealed == s.concealed && t.underruns == s.underruns
  {
    if Places(g, s, position, bytes) {
      hide Aligned, Capacity, Frames, RunEnd;
      var seated := Seated(s, position);
      SeatedKeeps(g, s, position);
      SurrenderKeepsWindow(g, seated, position);
      SurrenderOnlyDrops(g, seated, position);
      hide Surrendered, Inv, Window;
    } else {
      hide Surrendered, Capacity, Frames, RunEnd, Window;
    }
  }

  /**
   * The head once an arrival is in: seated by the first, where it was while the arrival is in the
   * window, one period on for the next past it, and at the arrival for any further.
   */
  ghost function HeadFor<T>(g: Geometry, s: Playout<T>, position: nat): nat {
    if !s.primed then position
    else if position < s.head + g.slots * g.periodFrames then s.head
    else if position == s.head + g.slots * g.periodFrames then s.head + g.periodFrames
    else position
  }

  /** An arrival that is neither refused nor late nor held already is held, and what is before the head goes. */
  ghost predicate Held<T>(g: Geometry, s: Playout<T>, t: Playout<T>, position: nat, period: T) {
    var head := HeadFor(g, s, position);
    var lost := set p | p in s.held && p < head;
    && t == s.(head := head, end := t.end, primed := true, held := t.held,
               pushed := s.pushed + g.periodFrames, dropped := s.dropped + |lost| * g.periodFrames)
    && t.held == (map p | p in s.held && p >= head :: s.held[p])[position := period]
  }

  /** What a push does with an arrival, whatever it finds. */
  lemma PushExactly<T>(g: Geometry, s: Playout<T>, position: nat, period: T, bytes: nat)
    requires Inv(g, s)
    ensures var (t, status) := Push(g, s, position, period, bytes);
      if g.periodBytes == 0 || g.periodFrames == 0 || bytes != g.periodBytes then
        status == Unusable && t == s.(refused := s.refused + 1)
      else if position % g.periodFrames != 0 then status == Misaligned && t == s.(refused := s.refused + 1)
      else if g.slots == 0 then status == Overrun && t == s.(dropped := s.dropped + g.periodFrames)
      else if s.primed && position < s.head then status == Late && t == s.(late := s.late + g.periodFrames)
      else if position in s.held then status == Duplicate && t == s.(refused := s.refused + 1)
      else
        && Held(g, s, t, position, period)
        && status == if exists p :: p in s.held && p < t.head then Overrun else Stored
  {
    if Places(g, s, position, bytes) {
      hide Aligned, RunEnd, Held;
      var seated := Seated(s, position);
      SeatedKeeps(g, s, position);
      SurrenderKeepsWindow(g, seated, position);
      SurrendersTo(g, s, position);
      if position !in Surrendered(g, seated, position).held {
        PushStores(g, s, position, period, bytes);
        StoredIsHeld(g, s, position, period);
        LostIsCounted(g, s, position);
      }
      hide Surrendered, Inv, Window, Store;
    } else {
      hide Surrendered, Capacity, Frames, RunEnd, Window, Held;
    }
  }

  /** Room is made up to the head for the arrival, at the cost of what is held before that. */
  lemma SurrendersTo<T>(g: Geometry, s: Playout<T>, position: nat)
    requires Inv(g, s) && g.periodFrames > 0 && g.slots > 0 && Aligned(g, position)
    requires s.primed ==> s.head <= position
    ensures position >= Seated(s, position).head
    ensures var t := Surrendered(g, Seated(s, position), position);
      && t == s.(head := HeadFor(g, s, position), end := t.end, primed := true, held := t.held, dropped := t.dropped)
      && t.held == From(s.held, t.head) && t.dropped == s.dropped + Frames(g, |Below(s.held, t.head)|)
      && (position in s.held <==> position in t.held) && (position in s.held ==> t == s)
  {
    HeldFromHead(g, s);
    FramesAdd(g, 0, 0);
    hide Aligned;
    if position < Seated(s, position).head + Capacity(g) {
      assert From(s.held, s.head) == s.held && Below(s.held, s.head) == {};
      if !s.primed {
        assert From(s.held, position) == s.held && Below(s.held, position) == {};
      }
    } else if position in s.held {
      assert false;
    }
  }

  lemma StoredIsHeld<T>(g: Geometry, s: Playout<T>, position: nat, period: T)
    requires Inv(g, s) && g.periodFrames > 0 && g.slots > 0 && Aligned(g, position)
    requires s.primed ==> s.head <= position
    ensures position >= Seated(s, position).head
    ensures Held(g, s, Store(g, Surrendered(g, Seated(s, position), position), position, period), position, period)
  {
    SurrendersTo(g, s, position);
    hide Surrendered, Seated, Inv, Aligned, RunEnd, HeadFor;
    var t := Surrendered(g, Seated(s, position), position);
    assert Below(s.held, t.head) == set p | p in s.held && p < t.head;
    assert From(s.held, t.head) == map p | p in s.held && p >= t.head :: s.held[p];
  }

  /** Something is dropped exactly when something held is before the new head. */
  lemma LostIsCounted<T>(g: Geometry, s: Playout<T>, position: nat)
    requires Inv(g, s) && g.periodFrames > 0 && g.slots > 0 && Aligned(g, position)
    requires s.primed ==> s.head <= position
    ensures position >= Seated(s, position).head
    ensures var t := Surrendered(g, Seated(s, position), position);
      t.dropped > s.dropped <==> exists p :: p in s.held && p < t.head
  {
    SurrendersTo(g, s, position);
    hide Surrendered, Seated, Inv, Aligned, HeadFor;
    var t := Surrendered(g, Seated(s, position), position);
    var lost := Below(s.held, t.head);
    if exists p :: p in s.held && p < t.head {
      var p :| p in s.held && p < t.head;
      assert p in lost;
      PeriodsAhead(g, |lost|);
    } else {
      assert lost == {};
      FramesAdd(g, 0, 0);
    }
  }

  lemma SurrenderOnlyDrops<T>(g: Geometry, s: Playout<T>, position: nat)
    requires position >= s.head
    ensures var t := Surrendered(g, s, position);
      && t == s.(head := t.head, end := t.end, held := t.held, dropped := t.dropped) && t.dropped >= s.dropped
      && (forall p :: p in t.held ==> p in s.held)
  {
  }

  // ---------------------------------------------------------------------------
  // When the run stays maximal.

  /**
   * The arrival is exactly one period past a full window whose head is at a hole, and the
   * period after the hole is held.
   */
  ghost predicate SlidesOntoHeld<T>(g: Geometry, s: Playout<T>, position: nat, bytes: nat) {
    && Places(g, s, position, bytes) && s.primed
    && position == s.head + Capacity(g) && s.end == s.head && s.head + g.periodFrames in s.held
  }

  /** A push leaves the run maximal exactly when it does not slide the head onto a held period. */
  lemma PushStaysMaximal<T>(g: Geometry, s: Playout<T>, position: nat, period: T, bytes: nat)
    requires Inv(g, s) && Maximal(s)
    ensures Maximal(Push(g, s, position, period, bytes).0) <==> !SlidesOntoHeld(g, s, position, bytes)
    ensures Push(g, s, position, period, bytes).0.skipped == s.skipped
  {
    if Places(g, s, position, bytes) {
      hide Aligned, Capacity, Frames, RunEnd;
      CapacityHoldsOne(g);
      var seated := Seated(s, position);
      SeatedKeeps(g, s, position);
      SurrenderKeepsWindow(g, seated, position);
      var t := Surrendered(g, seated, position);
      NextAligned(g, seated.head);
      if position !in t.held {
        PushStores(g, s, position, period, bytes);
        StoreKeeps(g, t, position, period);
      } else {
        assert t == seated;
      }
    } else {
      hide Surrendered, Capacity, Frames, RunEnd, Seated;
    }
  }

  // ---------------------------------------------------------------------------
  // Every run.

  datatype Op<T> = PushOp(position: nat, period: T, bytes: nat) | TakeOp | DiscardOp(keep: nat)

  function Apply<T>(g: Geometry, s: Playout<T>, op: Op<T>): (r: (Playout<T>, Option<Played<T>>))
    requires g.periodFrames > 0 && Inv(g, s)
    ensures Inv(g, r.0)
  {
    match op
    case PushOp(position, period, bytes) =>
      PushKeeps(g, s, position, period, bytes);
      (Push(g, s, position, period, bytes).0, None)
    case TakeOp =>
      TakeKeeps(g, s);
      Take(g, s)
    case DiscardOp(keep) =>
      DiscardKeeps(g, s, keep);
      (Discard(g, s, keep).0, None)
  }

  function Run<T>(g: Geometry, s: Playout<T>, ops: seq<Op<T>>): (r: (Playout<T>, seq<Played<T>>))
    requires g.periodFrames > 0 && Inv(g, s)
    ensures Inv(g, r.0)
    decreases |ops|
  {
    if ops == [] then (s, [])
    else
      var (t, out) := Apply(g, s, ops[0]);
      var (u, rest) := Run(g, t, ops[1..]);
      (u, if out.Some? then [out.value] + rest else rest)
  }

  lemma {:induction false} RunAppend<T>(g: Geometry, s: Playout<T>, a: seq<Op<T>>, b: seq<Op<T>>)
    requires g.periodFrames > 0 && Inv(g, s)
    ensures var (t, x) := Run(g, s, a);
      Run(g, s, a + b) == (Run(g, t, b).0, x + Run(g, t, b).1)
    decreases |a|
  {
    hide Inv, Apply;
    if a == [] {
      assert a + b == b;
      assert [] + Run(g, s, b).1 == Run(g, s, b).1;
    } else {
      assert (a + b)[0] == a[0] && (a + b)[1..] == a[1..] + b;
      var (t, out) := Apply(g, s, a[0]);
      RunAppend(g, t, a[1..], b);
      var (u, x) := Run(g, t, a[1..]);
      var y := Run(g, u, b).1;
      if out.Some? {
        assert [out.value] + (x + y) == [out.value] + x + y;
      }
    }
  }

  lemma {:induction false} OnlyPushesPlayNothing<T>(g: Geometry, s: Playout<T>, ops: seq<Op<T>>)
    requires g.periodFrames > 0 && Inv(g, s)
    requires forall i :: 0 <= i < |ops| ==> ops[i].PushOp?
    ensures Run(g, s, ops).1 == []
    decreases |ops|
  {
    hide Inv, Push, Take, Discard;
    if ops != [] {
      OnlyPushesPlayNothing(g, Apply(g, s, ops[0]).0, ops[1..]);
    }
  }

  lemma ApplyBalances<T>(g: Geometry, s: Playout<T>, op: Op<T>)
    requires g.periodFrames > 0 && g.slots > 0 && Inv(g, s) && Balanced(g, s)
    ensures Balanced(g, Apply(g, s, op).0)
  {
    hide Balanced, Inv;
    match op
    case PushOp(position, period, bytes) => PushKeeps(g, s, position, period, bytes);
    case TakeOp => TakeKeeps(g, s); TakeBalances(g, s);
    case DiscardOp(keep) => DiscardKeeps(g, s, keep); DiscardBalances(g, s, keep);
  }

  /** Every frame pushed is played, dropped, still held, or was crossed while held. */
  lemma {:induction false} LedgerBalances<T>(g: Geometry, s: Playout<T>, ops: seq<Op<T>>)
    requires g.periodFrames > 0 && g.slots > 0 && Inv(g, s) && Balanced(g, s)
    ensures Balanced(g, Run(g, s, ops).0)
    decreases |ops|
  {
    if ops != [] {
      hide Balanced, Inv;
      ApplyBalances(g, s, ops[0]);
      LedgerBalances(g, Apply(g, s, ops[0]).0, ops[1..]);
    }
  }

  /** No push of the run slides the head off a hole onto a held period. */
  ghost predicate NeverSlides<T>(g: Geometry, s: Playout<T>, ops: seq<Op<T>>)
    requires g.periodFrames > 0 && Inv(g, s)
    decreases |ops|
  {
    ops != [] ==>
      && (ops[0].PushOp? ==> !SlidesOntoHeld(g, s, ops[0].position, ops[0].bytes))
      && NeverSlides(g, Apply(g, s, ops[0]).0, ops[1..])
  }

  lemma ApplyStaysMaximal<T>(g: Geometry, s: Playout<T>, op: Op<T>)
    requires g.periodFrames > 0 && Inv(g, s) && Maximal(s)
    requires op.PushOp? ==> !SlidesOntoHeld(g, s, op.position, op.bytes)
    ensures Maximal(Apply(g, s, op).0) && Apply(g, s, op).0.skipped == s.skipped
  {
    hide Inv, SlidesOntoHeld;
    match op
    case PushOp(position, period, bytes) => PushStaysMaximal(g, s, position, period, bytes);
    case TakeOp =>
      TakeKeeps(g, s);
      TakeSkipsIffNotMaximal(g, s);
      if !(s.primed && s.held != map[]) {
        assert Apply(g, s, op).0.held == s.held && Apply(g, s, op).0.end == s.end;
      }
    case DiscardOp(keep) => DiscardKeeps(g, s, keep);
  }

  /** Under the proviso the run is always as long as can be, and the plain ledger is exact. */
  lemma {:induction false} WithoutSlidesNothingIsSkipped<T>(g: Geometry, s: Playout<T>, ops: seq<Op<T>>)
    requires g.periodFrames > 0 && Inv(g, s) && Maximal(s) && NeverSlides(g, s, ops)
    ensures Maximal(Run(g, s, ops).0) && Run(g, s, ops).0.skipped == s.skipped
    decreases |ops|
  {
    if ops != [] {
      hide Inv, SlidesOntoHeld, Maximal;
      ApplyStaysMaximal(g, s, ops[0]);
      WithoutSlidesNothingIsSkipped(g, Apply(g, s, ops[0]).0, ops[1..]);
    }
  }

  /** And a slide costs: the next take crosses a period the buffer is holding. */
  lemma SlideLosesHeldAudio<T>(g: Geometry, s: Playout<T>, position: nat, period: T, bytes: nat)
    requires Inv(g, s) && Maximal(s) && SlidesOntoHeld(g, s, position, bytes)
    ensures var t := Push(g, s, position, period, bytes).0;
      && Inv(g, t) && (t.head < t.end ==> t.head in t.held)
      && t.head == s.head + g.periodFrames && t.head in t.held
      && Take(g, t).1.None? && t.head !in Take(g, t).0.held
      && Take(g, t).0.skipped == s.skipped + g.periodFrames && Take(g, t).0.dropped == s.dropped
  {
    PushStaysMaximal(g, s, position, period, bytes);
    PushKeeps(g, s, position, period, bytes);
    var t := Push(g, s, position, period, bytes).0;
    TakeKeeps(g, t);
    TakeSkipsIffNotMaximal(g, t);
    SlideMovesHead(g, s, position, period, bytes);
    hide Inv;
    assert t.head !in From(t.held, t.head + g.periodFrames);
  }

  lemma SlideMovesHead<T>(g: Geometry, s: Playout<T>, position: nat, period: T, bytes: nat)
    requires Inv(g, s) && Maximal(s) && SlidesOntoHeld(g, s, position, bytes)
    ensures var t := Push(g, s, position, period, bytes).0;
      t.head == t.end == s.head + g.periodFrames && t.head in t.held && t.dropped == s.dropped && t.primed
  {
    hide Aligned, Capacity, RunEnd;
    CapacityHoldsOne(g);
    BelowNext(g, s);
    FramesAdd(g, 0, 0);
    assert Seated(s, position) == s;
    SurrenderKeepsWindow(g, s, position);
    PushStores(g, s, position, period, bytes);
  }

  /**
   * It happens: from empty, three slots, the period at one missing. The period at two is
   * held, never dropped, and never played.
   */
  lemma SlideHappens(period: nat)
    ensures var g := Geometry(3, 1, 1);
      var ops := [PushOp(0, period, 1), TakeOp, PushOp(2, period, 1)];
      var (s, played) := Run(g, Empty(), ops);
      Maximal(s) && SlidesOntoHeld(g, s, 4, 1)
  {
    var g := Geometry(3, 1, 1);
    var s0: Playout<nat> := Empty();
    var s1 := Apply(g, s0, PushOp(0, period, 1)).0;
    assert s1.head == 0 && s1.end == 1 && s1.held == map[0 := period];
    var s2 := Apply(g, s1, TakeOp).0;
    assert s2.head == 1 && s2.end == 1 && s2.held == map[];
    var s3 := Apply(g, s2, PushOp(2, period, 1)).0;
    assert s3.head == 1 && s3.end == 1 && s3.held == map[2 := period];
    var o1: Op<nat>, o2: Op<nat>, o3 := PushOp(0, period, 1), TakeOp, PushOp(2, period, 1);
    assert Run(g, s2, [o3]).0 == s3 by { assert [o3][1..] == []; }
    assert Run(g, s1, [o2, o3]).0 == s3 by { assert [o2, o3][1..] == [o3]; }
    assert Run(g, s0, [o1, o2, o3]).0 == s3 by { assert [o1, o2, o3][1..] == [o2, o3]; }
  }

  // ---------------------------------------------------------------------------
  // What is played.

  ghost predicate WasPushed<T>(ops: seq<Op<T>>, bytes: nat, p: Played<T>) {
    PushOp(p.position, p.period, bytes) in ops
  }

  /** Whatever the window holds was held before or pushed, at that position, by this very operation. */
  lemma HeldComesFrom<T>(g: Geometry, s: Playout<T>, op: Op<T>, p: nat)
    requires g.periodFrames > 0 && Inv(g, s) && p in Apply(g, s, op).0.held
    ensures (p in s.held && Apply(g, s, op).0.held[p] == s.held[p])
      || op == PushOp(p, Apply(g, s, op).0.held[p], g.periodBytes)
  {
    hide Inv, RunEnd, Frames, Capacity;
  }

  /** A push never replaces a period that is held. */
  lemma PushNeverOverwrites<T>(g: Geometry, s: Playout<T>, position: nat, period: T, bytes: nat, p: nat)
    requires Inv(g, s) && p in s.held && p in Push(g, s, position, period, bytes).0.held
    ensures Push(g, s, position, period, bytes).0.held[p] == s.held[p]
  {
    hide Window, RunEnd, Frames, Capacity;
    if Places(g, s, position, bytes) {
      SurrenderKeepsWindow(g, s, position);
    }
  }

  lemma PlayedAtHead<T>(g: Geometry, s: Playout<T>, op: Op<T>)
    requires g.periodFrames > 0 && Inv(g, s)
    ensures var (t, out) := Apply(g, s, op);
      && (s.primed ==> t.primed && s.head <= t.head)
      && (out.Some? ==> s.primed && s.head in s.held && s.head < t.head)
      && (out.Some? ==> out.value == Played(s.head, s.held[s.head]))
  {
    hide RunEnd, Frames, Capacity, Aligned;
  }

  ghost predicate Sourced<T>(g: Geometry, s: Playout<T>, ops: seq<Op<T>>, p: Played<T>) {
    WasPushed(ops, g.periodBytes, p) || (p.position in s.held && s.held[p.position] == p.period)
  }

  lemma SourcedEarlier<T>(g: Geometry, s: Playout<T>, ops: seq<Op<T>>, p: Played<T>)
    requires g.periodFrames > 0 && Inv(g, s) && ops != []
    requires Sourced(g, Apply(g, s, ops[0]).0, ops[1..], p)
    ensures Sourced(g, s, ops, p)
  {
    hide Inv, Apply;
    if !WasPushed(ops[1..], g.periodBytes, p) {
      HeldComesFrom(g, s, ops[0], p.position);
    }
  }

  ghost predicate Increasing<T>(played: seq<Played<T>>) {
    forall i, j :: 0 <= i < j < |played| ==> played[i].position < played[j].position
  }

  ghost predicate AllFrom<T>(played: seq<Played<T>>, head: nat) {
    forall i :: 0 <= i < |played| ==> head <= played[i].position
  }

  /**
   * Over any run: positions play in strictly increasing order, from the head on, and what
   * plays at a position is what the window held there or what was pushed there.
   */
  lemma {:induction false} PlaysWhatWasPushed<T>(g: Geometry, s: Playout<T>, ops: seq<Op<T>>)
    requires g.periodFrames > 0 && Inv(g, s)
    ensures var played := Run(g, s, ops).1;
      && Increasing(played)
      && (s.primed ==> AllFrom(played, s.head))
      && (forall i :: 0 <= i < |played| ==> Sourced(g, s, ops, played[i]))
    decreases |ops|
  {
    if ops != [] {
      hide Inv, Apply;
      var (t, out) := Apply(g, s, ops[0]);
      var rest := Run(g, t, ops[1..]).1;
      PlayedAtHead(g, s, ops[0]);
      PlaysWhatWasPushed(g, t, ops[1..]);
      assert Run(g, s, ops).1 == if out.Some? then [out.value] + rest else rest;
      forall i | 0 <= i < |rest|
        ensures Sourced(g, s, ops, rest[i])
      {
        SourcedEarlier(g, s, ops, rest[i]);
      }
    }
  }

  // ---------------------------------------------------------------------------
  // Arrivals in order.

  /** Every push is of a usable period at `from` or after it, and a period or more after the push before it. */
  ghost predicate Ascending<T>(g: Geometry, ops: seq<Op<T>>, from: nat) {
    ops != [] ==>
      if ops[0].PushOp? then
        && Usable(g, ops[0].position, ops[0].bytes) && ops[0].position >= from
        && Ascending(g, ops[1..], ops[0].position + g.periodFrames)
      else Ascending(g, ops[1..], from)
  }

  function PushCount<T>(ops: seq<Op<T>>): nat {
    if ops == [] then 0 else (if ops[0].PushOp? then 1 else 0) + PushCount(ops[1..])
  }

  /** Nothing is held, or has been played or crossed, from `next` on. */
  ghost predicate Behind<T>(g: Geometry, s: Playout<T>, next: nat) {
    && (s.primed ==> s.head <= next)
    && forall p :: p in s.held ==> p + g.periodFrames <= next
  }

  lemma BeforeAligned(g: Geometry, p: nat)
    requires g.periodFrames > 0 && Aligned(g, p) && p >= g.periodFrames
    ensures Aligned(g, p - g.periodFrames)
  {
    var k := p / g.periodFrames;
    assert p == k * g.periodFrames;
    DivideUnique(p - g.periodFrames, g.periodFrames, k - 1, 0);
  }

  lemma RunEndsHeld<T>(g: Geometry, s: Playout<T>)
    requires Inv(g, s) && s.end > s.head
    ensures s.end >= g.periodFrames && s.end - g.periodFrames in s.held
  {
    hide Capacity, Aligned;
    NextAligned(g, s.head);
    assert s.end >= s.head + g.periodFrames;
    BeforeAligned(g, s.end);
  }

  /** The next push of such a run is neither late nor refused. */
  lemma NextIsPlaced<T>(g: Geometry, s: Playout<T>, position: nat, period: T, bytes: nat, next: nat)
    requires Inv(g, s) && Behind(g, s, next) && Usable(g, position, bytes) && position >= next
    ensures var t := Push(g, s, position, period, bytes).0;
      && Behind(g, t, position + g.periodFrames) && t.late == s.late && t.refused == s.refused
      && t.pushed == s.pushed + (if g.slots > 0 then g.periodFrames else 0)
  {
    if g.slots > 0 {
      hide Aligned, Capacity, Frames, RunEnd;
      var seated := Seated(s, position);
      SeatedKeeps(g, s, position);
      SurrenderKeepsWindow(g, seated, position);
      SurrenderOnlyDrops(g, seated, position);
      hide Surrendered, Inv, Window;
    }
  }

  lemma TakeStaysBehind<T>(g: Geometry, s: Playout<T>, next: nat)
    requires Inv(g, s) && Behind(g, s, next) && g.periodFrames > 0
    ensures s.head < s.end ==> s.head in s.held
    ensures var t := Take(g, s).0;
      Behind(g, t, next) && t.late == s.late && t.refused == s.refused && t.pushed == s.pushed
  {
    TakeKeeps(g, s);
    HeldFromHead(g, s);
    hide Inv, Capacity, Frames, RunEnd;
    if s.primed && s.head >= s.end && |s.held| > 0 {
      var p :| p in s.held;
    }
  }

  lemma DiscardStaysBehind<T>(g: Geometry, s: Playout<T>, keep: nat, next: nat)
    requires Inv(g, s) && Behind(g, s, next) && g.periodFrames > 0
    ensures s.head <= s.end
    ensures var t := Discard(g, s, keep).0;
      Behind(g, t, next) && t.late == s.late && t.refused == s.refused && t.pushed == s.pushed
  {
    DiscardKeeps(g, s, keep);
    if s.end > s.head {
      RunEndsHeld(g, s);
    }
    hide Inv, Capacity, RunEnd;
  }

  /** Every period a run plays is counted. */
  lemma {:induction false} PlayedIsCounted<T>(g: Geometry, s: Playout<T>, ops: seq<Op<T>>)
    requires g.periodFrames > 0 && Inv(g, s)
    ensures Run(g, s, ops).0.played == s.played + Frames(g, |Run(g, s, ops).1|)
    decreases |ops|
  {
    hide Inv, RunEnd, Aligned, Capacity;
    if ops == [] {
      FramesAdd(g, 0, 0);
    } else {
      var (t, out) := Apply(g, s, ops[0]);
      PlayedIsCounted(g, t, ops[1..]);
      FramesAdd(g, 1, |Run(g, t, ops[1..]).1|);
      hide Frames;
    }
  }

  function TakeCount<T>(ops: seq<Op<T>>): nat {
    if ops == [] then 0 else (if ops[0].TakeOp? then 1 else 0) + TakeCount(ops[1..])
  }

  /** Every take of a run either plays a period or is counted an underrun. */
  lemma {:induction false} EveryTakeIsCounted<T>(g: Geometry, s: Playout<T>, ops: seq<Op<T>>)
    requires g.periodFrames > 0 && Inv(g, s)
    ensures var (t, out) := Run(g, s, ops); TakeCount(ops) + s.underruns == |out| + t.underruns
    decreases |ops|
  {
    if ops != [] {
      var (t, out) := Apply(g, s, ops[0]);
      EveryTakeIsCounted(g, t, ops[1..]);
      match ops[0]
      case PushOp(position, period, bytes) => PushExactly(g, s, position, period, bytes); hide *;
      case TakeOp => TakeExactly(g, s); hide Inv, Take;
      case DiscardOp(keep) => DiscardKeeps(g, s, keep); hide Inv, RunEnd, From;
    }
  }

  /**
   * Periods that arrive in order are never late and never refused, whatever holes the takes
   * between them have crossed; each is held, for a while at least.
   */
  lemma {:induction false} InOrderIsNeverLate<T>(g: Geometry, s: Playout<T>, ops: seq<Op<T>>, next: nat)
    requires g.periodFrames > 0 && Inv(g, s) && Behind(g, s, next) && Ascending(g, ops, next)
    ensures var t := Run(g, s, ops).0;
      && t.late == s.late && t.refused == s.refused
      && t.pushed == s.pushed + (if g.slots > 0 then Frames(g, PushCount(ops)) else 0)
    decreases |ops|
  {
    if ops == [] {
      FramesAdd(g, 0, 0);
    } else {
      FramesAdd(g, 1, PushCount(ops[1..]));
      hide Inv, Behind, Push, Take, Discard, Usable, Frames;
      match ops[0] {
        case PushOp(position, period, bytes) =>
          NextIsPlaced(g, s, position, period, bytes, next);
          InOrderIsNeverLate(g, Apply(g, s, ops[0]).0, ops[1..], position + g.periodFrames);
        case TakeOp =>
          TakeStaysBehind(g, s, next);
          InOrderIsNeverLate(g, Apply(g, s, ops[0]).0, ops[1..], next);
        case DiscardOp(keep) =>
          DiscardStaysBehind(g, s, keep, next);
          InOrderIsNeverLate(g, Apply(g, s, ops[0]).0, ops[1..], next);
      }
    }
  }

  // ---------------------------------------------------------------------------
  // Crossing a hole.

  function Takes<T>(g: Geometry, s: Playout<T>, n: nat): (t: Playout<T>)
    requires g.periodFrames > 0 && Inv(g, s)
    ensures Inv(g, t)
    decreases n
  {
    if n == 0 then s else Takes(g, Apply(g, s, TakeOp).0, n - 1)
  }

  lemma TakeLeavesLater<T>(g: Geometry, s: Playout<T>, p: nat)
    requires g.periodFrames > 0 && Inv(g, s) && p in s.held && p > s.head
    ensures var t := Apply(g, s, TakeOp).0;
      t.head == s.head + g.periodFrames <= p && p in t.held && t.held[p] == s.held[p] && Maximal(t)
  {
    TakeKeeps(g, s);
    hide Capacity, RunEnd, Frames;
    NextAligned(g, s.head);
    hide Aligned;
    assert s.held != map[];
    if s.end > s.head {
      assert Maximal(s);
    }
  }

  lemma TakePlaysHead<T>(g: Geometry, s: Playout<T>)
    requires g.periodFrames > 0 && Inv(g, s) && s.head in s.held && Maximal(s)
    ensures Apply(g, s, TakeOp).1 == Some(Played(s.head, s.held[s.head]))
  {
    hide Aligned, Capacity, RunEnd, Frames;
    assert |s.held| != 0 by { assert s.held != map[]; }
  }

  lemma PeriodsAhead(g: Geometry, d: nat)
    requires d > 0 && g.periodFrames > 0
    ensures Frames(g, d) > 0
  {
    MultiplyOrdered(1, d, g.periodFrames);
  }

  /**
   * A hole never stalls playout and is crossed in real time: a period held d periods ahead
   * of the head is at the head after d takes, and the next take plays it.
   */
  lemma {:induction false} ReachedInRealTime<T>(g: Geometry, s: Playout<T>, p: nat, d: nat)
    requires g.periodFrames > 0 && Inv(g, s) && p in s.held
    requires p == s.head + Frames(g, d)
    requires d == 0 ==> Maximal(s)
    ensures var t := Takes(g, s, d);
      t.head == p && Apply(g, t, TakeOp).1 == Some(Played(p, s.held[p]))
    decreases d
  {
    hide Inv, Apply, Frames, Maximal;
    if d == 0 {
      FramesAdd(g, 0, 0);
      TakePlaysHead(g, s);
    } else {
      FramesAdd(g, d - 1, 1);
      PeriodsAhead(g, d);
      TakeLeavesLater(g, s, p);
      ReachedInRealTime(g, Apply(g, s, TakeOp).0, p, d - 1);
    }
  }

  /** With nothing held a take is an underrun and nothing else. */
  lemma NothingHeldNothingMoves<T>(g: Geometry, s: Playout<T>)
    requires g.periodFrames > 0 && Inv(g, s) && s.held == map[]
    ensures Apply(g, s, TakeOp) == (s.(underruns := s.underruns + 1), None)
  {
  }
}
