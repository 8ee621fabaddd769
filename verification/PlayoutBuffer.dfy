/**
 * The playout buffer as it is built: a ring of slots addressed by sample position, with no
 * mark on a slot that has gone stale. Every method is shown to do what the plain map of
 * module Playout does.
 */
module PlayoutBuffer {
  import opened Arithmetic
  import opened Bytes
  import opened Plain = Playout

  function Slot(g: Geometry, position: nat): (i: nat)
    requires g.periodFrames > 0 && g.slots > 0
    ensures i < g.slots
  {
    position / g.periodFrames % g.slots
  }

  /** Two aligned positions of one window never share a slot. */
  lemma SlotIsUnique(g: Geometry, head: nat, p: nat, q: nat)
    requires g.periodFrames > 0 && g.slots > 0
    requires head <= p < head + Capacity(g) && head <= q < head + Capacity(g)
    requires Aligned(g, p) && Aligned(g, q) && Slot(g, p) == Slot(g, q)
    ensures p == q
  {
    var a, b := p / g.periodFrames, q / g.periodFrames;
    assert p == a * g.periodFrames && q == b * g.periodFrames;
    if a < b {
      SlotIsUniqueBelow(g, head, a, b);
    } else if b < a {
      SlotIsUniqueBelow(g, head, b, a);
    }
  }

  lemma SlotIsUniqueBelow(g: Geometry, head: nat, a: nat, b: nat)
    requires g.periodFrames > 0 && g.slots > 0 && a < b
    requires head <= a * g.periodFrames && b * g.periodFrames < head + Capacity(g)
    ensures a % g.slots != b % g.slots
  {
    assert (a + g.slots) * g.periodFrames == a * g.periodFrames + Capacity(g);
    if a + g.slots <= b {
      MultiplyOrdered(a + g.slots, b, g.periodFrames);
    }
    if a % g.slots == b % g.slots {
      var m, n := a / g.slots, b / g.slots;
      assert a == m * g.slots + a % g.slots && b == n * g.slots + b % g.slots;
      if m < n {
        MultiplyOrdered(m + 1, n, g.slots);
      } else {
        MultiplyOrdered(n, m, g.slots);
      }
    }
  }

  /**
   * The slots stand for the map: a stored position at or past the head is held, a stored
   * position behind it is stale, and everything held is in the slot of its position.
   */
  ghost predicate Represents<T>(g: Geometry, positions: seq<Option<nat>>, audio: seq<T>, held: map<nat, T>, head: nat)
    requires g.periodFrames > 0 && g.slots > 0
  {
    && |positions| == |audio| == g.slots
    && (forall i :: 0 <= i < g.slots && positions[i].Some? ==> Slot(g, positions[i].value) == i)
    && (forall i :: 0 <= i < g.slots && positions[i].Some? && positions[i].value >= head ==> positions[i].value in held)
    && (forall p :: p in held ==> head <= p && positions[Slot(g, p)] == Some(p) && audio[Slot(g, p)] == held[p])
  }

  /** What looking at the slot of a position from the head on tells. */
  lemma SlotTells<T>(
    g: Geometry, positions: seq<Option<nat>>, audio: seq<T>, held: map<nat, T>, head: nat, position: nat)
    requires g.periodFrames > 0 && g.slots > 0 && Represents(g, positions, audio, held, head) && head <= position
    ensures |positions| == |audio| == g.slots
    ensures positions[Slot(g, position)] == Some(position) <==> position in held
    ensures position in held ==> audio[Slot(g, position)] == held[position]
  {
    hide Slot;
  }

  /** Moving the head makes slots stale and changes nothing else. */
  lemma RepresentsPastHead<T>(
    g: Geometry, positions: seq<Option<nat>>, audio: seq<T>, held: map<nat, T>, head: nat, later: nat)
    requires g.periodFrames > 0 && g.slots > 0 && Represents(g, positions, audio, held, head) && head <= later
    ensures Represents(g, positions, audio, From(held, later), later)
  {
    hide Slot;
  }

  /** The slot an arrival is put in holds nothing: what it stores, if anything, is stale. */
  lemma RepresentsStored<T>(
    g: Geometry, positions: seq<Option<nat>>, audio: seq<T>, held: map<nat, T>, head: nat, position: nat, period: T)
    requires g.periodFrames > 0 && g.slots > 0 && Represents(g, positions, audio, held, head)
    requires forall p :: p in held ==> p < head + Capacity(g) && Aligned(g, p)
    requires head <= position < head + Capacity(g) && Aligned(g, position) && position !in held
    ensures var i := Slot(g, position);
      Represents(g, positions[i := Some(position)], audio[i := period], held[position := period], head)
  {
    forall p | p in held
      ensures Slot(g, p) != Slot(g, position)
    {
      if Slot(g, p) == Slot(g, position) {
        SlotIsUnique(g, head, p, position);
      }
    }
    hide Slot, Aligned, Capacity;
  }

  lemma RepresentsTaken<T>(g: Geometry, positions: seq<Option<nat>>, audio: seq<T>, held: map<nat, T>, head: nat)
    requires g.periodFrames > 0 && g.slots > 0 && Represents(g, positions, audio, held, head)
    requires head in held
    ensures Represents(g, positions[Slot(g, head) := None], audio,
                       From(held, head + g.periodFrames), head + g.periodFrames)
  {
    hide Slot;
  }

  lemma Standing<T>(g: Geometry, s: Playout<T>)
    requires Inv(g, s)
    ensures s.head <= s.end
    ensures if s.primed then g.periodFrames > 0 && g.slots > 0 else s.held == map[] && s.head == s.end == 0
  {
  }

  /** The three things a take can find. */
  lemma TakeFinds<T>(g: Geometry, s: Playout<T>)
    requires Inv(g, s)
    ensures s.primed ==> g.periodFrames > 0 && g.slots > 0 && Window(g, s) && Aligned(g, s.head)
    ensures forall p :: p in s.held ==> p >= s.head
    ensures (s.head < s.end ==> s.head in s.held) && Inv(g, Plain.Take(g, s).0)
    ensures s.head < s.end ==> s.head in s.held
    ensures !s.primed || (s.head >= s.end && s.held == map[]) ==>
              Plain.Take(g, s) == (s.(underruns := s.underruns + 1), None)
    ensures s.primed && s.head >= s.end && s.held != map[] ==> Plain.Take(g, s) == (Crossed(g, s), None)
    ensures s.primed && s.head < s.end ==>
              Plain.Take(g, s) ==
              (s.(head := s.head + g.periodFrames, held := From(s.held, s.head + g.periodFrames),
                  played := s.played + g.periodFrames),
               Some(Played(s.head, s.held[s.head])))
  {
    TakeKeeps(g, s);
    hide From, Crossed, RunEnd, Capacity;
    assert s.held == map[] <==> |s.held| == 0;
  }

  /** What a push does with an arrival it has a place for. */
  lemma PushPlaces<T>(g: Geometry, s: Playout<T>, position: nat, period: T, bytes: nat)
    requires Inv(g, s) && Places(g, s, position, bytes)
    ensures !s.primed ==> s.held == map[] && s.head == 0
    ensures var t := Surrendered(g, Seated(s, position), position);
      && Window(g, t) && t.head <= position < t.head + Capacity(g)
      && Inv(g, Plain.Push(g, s, position, period, bytes).0)
      && Plain.Push(g, s, position, period, bytes)
         == if position in t.held then (t.(refused := t.refused + 1), Duplicate)
            else (Store(g, t, position, period), if t.dropped > s.dropped then Overrun else PushStatus.Stored)
  {
    PushKeeps(g, s, position, period, bytes);
    SeatedKeeps(g, s, position);
    SurrenderKeepsWindow(g, Seated(s, position), position);
    hide Window, Store, Surrendered, Capacity;
  }

  /** And with one it has not. */
  lemma PushRefuses<T>(g: Geometry, s: Playout<T>, position: nat, period: T, bytes: nat)
    requires Inv(g, s) && !Places(g, s, position, bytes)
    ensures Inv(g, Plain.Push(g, s, position, period, bytes).0)
    ensures Plain.Push(g, s, position, period, bytes) ==
            if g.periodBytes == 0 || g.periodFrames == 0 || bytes != g.periodBytes then
              (s.(refused := s.refused + 1), Unusable)
            else if !Aligned(g, position) then (s.(refused := s.refused + 1), Misaligned)
            else if g.slots == 0 then (s.(dropped := s.dropped + g.periodFrames), Overrun)
            else (s.(late := s.late + g.periodFrames), Late)
  {
    PushKeeps(g, s, position, period, bytes);
  }

  class PlayoutBuffer {
    const g: Geometry
    const sampleRate: nat
    const positions: array<Option<nat>>
    const audio: array<seq<byte>>

    var head: nat
    var contiguousEnd: nat
    var primed: bool
    var pushed: nat
    var played: nat
    var dropped: nat
    var late: nat
    var refused: nat
    var underruns: nat
    var concealed: nat

    ghost var held: map<nat, seq<byte>>
    ghost var skipped: nat

    /** What the buffer stands for. */
    ghost function Model(): Playout<seq<byte>>
      reads this
    {
      Plain.Playout.Playout(head, contiguousEnd, primed, held, pushed, played, dropped, late, refused, underruns,
                      concealed, skipped)
    }

    ghost predicate Slots()
      reads this, positions, audio
    {
      && positions.Length == audio.Length == g.slots
      && (g.periodFrames > 0 && g.slots > 0 ==> Represents(g, positions[..], audio[..], held, head))
    }

    ghost predicate Valid()
      reads this, positions, audio
    {
      Slots() && Inv(g, Model())
    }

    constructor (g: Geometry, sampleRate: nat)
      ensures Valid() && fresh(positions) && fresh(audio)
      ensures this.g == g && this.sampleRate == sampleRate && Model() == Empty()
    {
      this.g := g;
      this.sampleRate := sampleRate;
      positions := new Option<nat>[g.slots](_ => None);
      audio := new seq<byte>[g.slots](_ => seq(g.periodBytes, _ => 0));
      head, contiguousEnd, primed := 0, 0, false;
      pushed, played, dropped, late, refused, underruns, concealed := 0, 0, 0, 0, 0, 0, 0;
      held, skipped := map[], 0;
    }

    /** The frames the slots hold below `position`, counted by looking at every slot. */
    method FramesHeldBelow(position: nat) returns (count: nat)
      requires Slots() && g.periodFrames > 0 && g.slots > 0
      ensures count == Frames(g, |Below(held, position)|)
    {
      hide Capacity, Aligned, Slot;
      count := 0;
      ghost var seen: set<nat> := {};
      for slot := 0 to g.slots
        invariant count == Frames(g, |seen|)
        invariant forall p :: p in seen <==> p in held && p < position && Slot(g, p) < slot
      {
        var stored := positions[slot];
        assert stored == positions[..][slot];
        if stored.Some? && stored.value >= head && stored.value < position {
          count := count + g.periodFrames;
          FramesAdd(g, |seen|, 1);
          seen := seen + {stored.value};
        }
        hide Frames;
      }
      assert seen == Below(held, position);
    }

    /** The first held position from `position` on. */
    method NextHeldAtOrAfter(position: nat) returns (next: Option<nat>)
      requires Slots() && g.periodFrames > 0 && g.slots > 0 && Window(g, Model())
      requires head <= position && Aligned(g, position)
      ensures next.None? <==> forall p :: p in held ==> p < position
      ensures next.Some? ==> next.value in held && next.value >= position
      ensures next.Some? ==> forall p :: p in held && p >= position ==> p >= next.value
    {
      hide Aligned, Slot, Capacity;
      var candidate := position;
      while candidate < head + Capacity(g)
        invariant position <= candidate && Aligned(g, candidate)
        invariant forall p :: p in held && p >= position ==> p >= candidate
      {
        assert positions[Slot(g, candidate)] == positions[..][Slot(g, candidate)];
        if positions[Slot(g, candidate)] == Some(candidate) {
          return Some(candidate);
        }
        NextAligned(g, candidate);
        candidate := candidate + g.periodFrames;
      }
      next := None;
    }

    /** Extend the run over every period held in sequence. */
    method AdvanceContiguous()
      requires Slots() && g.periodFrames > 0 && g.slots > 0 && head <= contiguousEnd
      modifies this`contiguousEnd
      ensures contiguousEnd == RunEnd(g, held, old(contiguousEnd), head + Capacity(g))
    {
      hide Slot, Capacity;
      while contiguousEnd < head + Capacity(g) && positions[Slot(g, contiguousEnd)] == Some(contiguousEnd)
        invariant head <= contiguousEnd
        invariant RunEnd(g, held, contiguousEnd, head + Capacity(g))
               == RunEnd(g, held, old(contiguousEnd), head + Capacity(g))
        decreases head + Capacity(g) - contiguousEnd
      {
        assert positions[..][Slot(g, contiguousEnd)] == Some(contiguousEnd);
        contiguousEnd := contiguousEnd + g.periodFrames;
      }
      assert contiguousEnd in held ==> positions[..][Slot(g, contiguousEnd)] == Some(contiguousEnd);
    }

    /** At capacity the head moves to make room for the arrival. */
    method MakeRoom(position: nat) returns (lost: nat)
      requires Slots() && g.periodFrames > 0 && g.slots > 0 && head <= position
      modifies this`head, this`contiguousEnd, this`dropped, this`held
      ensures Slots() && Model() == Surrendered(g, old(Model()), position)
      ensures lost == dropped - old(dropped)
    {
      hide Represents, Slot, Capacity, Frames, RunEnd, Below, From;
      lost := 0;
      if position >= head + Capacity(g) {
        var newHead := head + g.periodFrames;
        if position - head > Capacity(g) {
          newHead := position;
        }
        lost := FramesHeldBelow(newHead);
        dropped := dropped + lost;
        RepresentsPastHead(g, positions[..], audio[..], held, head, newHead);
        head, held := newHead, From(held, newHead);
        if contiguousEnd < head {
          contiguousEnd := head;
        }
      }
    }

    /** Hold a period in the free slot of its position. */
    method Hold(position: nat, period: seq<byte>)
      requires Slots() && g.periodFrames > 0 && g.slots > 0 && Window(g, Model())
      requires head <= position < head + Capacity(g) && Aligned(g, position) && position !in held
      modifies this`held, this`contiguousEnd, this`pushed, positions, audio
      ensures Slots() && Model() == Store(g, old(Model()), position, period)
    {
      hide Represents, Slot, Capacity, RunEnd, Aligned;
      ghost var before := Model();
      RepresentsStored(g, positions[..], audio[..], held, head, position, period);
      var slot := Slot(g, position);
      audio[slot] := period;
      positions[slot] := Some(position);
      held := held[position := period];
      assert positions[..] == old(positions[..])[slot := Some(position)];
      assert audio[..] == old(audio[..])[slot := period];
      if position == contiguousEnd {
        AdvanceContiguous();
      }
      pushed := pushed + g.periodFrames;
    }

    method Push(position: nat, period: seq<byte>) returns (status: PushStatus)
      requires Valid()
      modifies this, positions, audio
      ensures Valid()
      ensures (Model(), status) == Plain.Push(g, old(Model()), position, period, |period|)
    {
      hide Represents, Slot, Capacity, Frames, RunEnd, Below, From, Inv, Store, Window, Seated, Surrendered;
      hide Plain.Push;
      if Places(g, Model(), position, |period|) {
        PushPlaces(g, Model(), position, period, |period|);
      } else {
        PushRefuses(g, Model(), position, period, |period|);
      }
      if g.periodBytes == 0 || g.periodFrames == 0 || |period| != g.periodBytes {
        refused := refused + 1;
        status := Unusable;
      } else if position % g.periodFrames != 0 {
        refused := refused + 1;
        status := Misaligned;
      } else if g.slots == 0 {
        dropped := dropped + g.periodFrames;
        status := Overrun;
      } else if primed && position < head {
        late := late + g.periodFrames;
        status := Late;
      } else {
        status := PlaceInWindow(position, period);
      }
    }

    /** The rest of a push, once the position is known to be acceptable. */
    method PlaceInWindow(position: nat, period: seq<byte>) returns (status: PushStatus)
      requires Slots() && g.periodFrames > 0 && g.slots > 0 && Aligned(g, position)
      requires primed ==> head <= position
      requires !primed ==> held == map[] && head == 0
      requires var t := Surrendered(g, Seated(Model(), position), position);
        Window(g, t) && t.head <= position < t.head + Capacity(g)
      modifies this, positions, audio
      ensures Slots()
      ensures var t := Surrendered(g, Seated(old(Model()), position), position);
        && Model() == (if position in t.held then t.(refused := t.refused + 1) else Store(g, t, position, period))
        && status == (if position in t.held then Duplicate
                      else if t.dropped > old(dropped) then Overrun else Stored)
    {
      hide Represents, Slot, Capacity, Frames, RunEnd, Below, From, Aligned, Window, Store, Surrendered;
      ghost var before := Model();
      Seat(position);
      var lost := MakeRoom(position);
      status := Stored;
      if lost > 0 {
        status := Overrun;
      }
      var slot := Slot(g, position);
      SlotTells(g, positions[..], audio[..], held, head, position);
      assert positions[slot] == positions[..][slot];
      if positions[slot] == Some(position) {
        refused := refused + 1;
        return Duplicate;
      }
      Hold(position, period);
    }

    /** The first period to arrive decides where the head is. */
    method Seat(position: nat)
      requires Slots() && g.periodFrames > 0 && g.slots > 0
      requires !primed ==> held == map[] && head == 0
      modifies this`head, this`contiguousEnd, this`primed
      ensures Slots() && Model() == Seated(old(Model()), position)
    {
      hide Represents;
      if !primed {
        RepresentsPastHead(g, positions[..], audio[..], held, head, position);
        assert From(held, position) == held;
        head, contiguousEnd, primed := position, position, true;
      }
    }

    /** Cross one period of a hole. */
    method CrossHole()
      requires Slots() && g.periodFrames > 0 && g.slots > 0
      modifies this
      ensures Slots() && Model() == Crossed(g, old(Model()))
    {
      hide Represents, Capacity, Frames, RunEnd, Below, From;
      RepresentsPastHead(g, positions[..], audio[..], held, head, head + g.periodFrames);
      skipped := skipped + Frames(g, |Below(held, head + g.periodFrames)|);
      head, held := head + g.periodFrames, From(held, head + g.periodFrames);
      concealed := concealed + g.periodFrames;
      contiguousEnd := head;
      AdvanceContiguous();
      underruns := underruns + 1;
    }

    method Take() returns (out: Option<Played<seq<byte>>>)
      requires Valid()
      modifies this, positions
      ensures Valid()
      ensures old(head) < old(contiguousEnd) ==> old(head) in old(held)
      ensures (Model(), out) == Plain.Take(g, old(Model()))
    {
      hide Inv, Window, Represents, Slot, Capacity, Frames, RunEnd, Below, From, Aligned, Crossed, Plain.Take;
      TakeFinds(g, Model());
      if !primed {
        out := None;
        Underrun();
      } else if head >= contiguousEnd {
        out := None;
        var next := NextHeldAtOrAfter(head);
        if next.None? {
          assert held == map[];
          Underrun();
        } else {
          CrossHole();
        }
      } else {
        out := PlayHead();
      }
    }

    method Underrun()
      requires Slots()
      modifies this`underruns
      ensures Slots() && Model() == old(Model()).(underruns := old(underruns) + 1)
    {
      hide Represents;
      underruns := underruns + 1;
    }

    /** Take the period at the head. */
    method PlayHead() returns (out: Option<Played<seq<byte>>>)
      requires Slots() && g.periodFrames > 0 && g.slots > 0 && head in held
      modifies this`head, this`held, this`played, positions
      ensures Slots()
      ensures out == Some(Played(old(head), old(held[head])))
      ensures var s := old(Model());
        Model() == s.(head := s.head + g.periodFrames, held := From(s.held, s.head + g.periodFrames),
                      played := s.played + g.periodFrames)
    {
      hide Represents, Slot, From;
      var slot := Slot(g, head);
      SlotTells(g, positions[..], audio[..], held, head, head);
      assert audio[slot] == audio[..][slot];
      out := Some(Played(head, audio[slot]));
      RepresentsTaken(g, positions[..], audio[..], held, head);
      positions[slot] := None;
      assert positions[..] == old(positions[..])[slot := None];
      head, held := head + g.periodFrames, From(held, head + g.periodFrames);
      played := played + g.periodFrames;
    }

    /** The frames of `keepMs` milliseconds, none when it is negative. */
    function KeepFrames(keepMs: real): nat {
      var ms := if keepMs < 0.0 then 0.0 else keepMs;
      FloorOfFraction(ms, sampleRate);
      (ms * sampleRate as real / 1000.0).Floor
    }

    static lemma FloorOfFraction(ms: real, rate: nat)
      requires ms >= 0.0
      ensures (ms * rate as real / 1000.0).Floor >= 0
    {
      assert ms * rate as real >= 0.0;
    }

    /** So many frames last no longer than that, which is no time at all when it is negative. */
    ghost predicate Lasts(frames: int, ms: real) {
      frames as real * 1000.0 <= if ms < 0.0 then 0.0 else ms * sampleRate as real
    }

    lemma KeepLasts(keepMs: real, frames: nat)
      ensures frames <= KeepFrames(keepMs) <==> Lasts(frames, keepMs)
    {
      var ms := if keepMs < 0.0 then 0.0 else keepMs;
      var x := ms * sampleRate as real / 1000.0;
      assert x * 1000.0 == ms * sampleRate as real;
      assert KeepFrames(keepMs) == x.Floor;
      FloorAtLeast(x, frames);
    }

    static lemma FloorAtLeast(x: real, n: nat)
      ensures n <= x.Floor <==> n as real <= x
    {
    }

    /**
     * Keep no more of the run than lasts `keepMs` milliseconds, and no whole period less.
     */
    method DiscardToLevelMs(keepMs: real) returns (drop: nat)
      requires Valid() && g.periodFrames > 0
      modifies this`head, this`contiguousEnd, this`dropped, this`held
      ensures Valid() && old(head) <= old(contiguousEnd) && head <= contiguousEnd
      ensures (Model(), drop) == Discard(g, old(Model()), KeepFrames(keepMs))
      ensures old(Maximal(Model())) ==>
        if old(Lasts(contiguousEnd - head, keepMs)) then drop == 0
        else Lasts(contiguousEnd - head, keepMs) && !Lasts(contiguousEnd - head + g.periodFrames, keepMs)
    {
      hide Inv, Window, Represents, Slot, Capacity, Frames, RunEnd, From, Aligned, KeepFrames, Lasts;
      var keep := KeepFrames(keepMs);
      Standing(g, Model());
      DiscardKeeps(g, Model(), keep);
      KeepsByTime(keepMs);
      keep := keep - keep % g.periodFrames;
      if contiguousEnd - head <= keep {
        return 0;
      }
      drop := contiguousEnd - head - keep;
      Surrender(drop);
      Standing(g, Model());
    }

    lemma KeepsByTime(keepMs: real)
      requires Inv(g, Model()) && g.periodFrames > 0 && head <= contiguousEnd
      ensures var t, drop := Discard(g, Model(), KeepFrames(keepMs)).0, Discard(g, Model(), KeepFrames(keepMs)).1;
        Maximal(Model()) ==>
          if Lasts(contiguousEnd - head, keepMs) then drop == 0
          else Lasts(t.end - t.head, keepMs) && !Lasts(t.end - t.head + g.periodFrames, keepMs)
    {
      hide Inv, Lasts, KeepFrames, RunEnd, From, Capacity;
      var (t, drop) := Discard(g, Model(), KeepFrames(keepMs));
      KeepLasts(keepMs, contiguousEnd - head);
      if Maximal(Model()) {
        DiscardLeavesNewest(g, Model(), KeepFrames(keepMs));
        if drop > 0 {
          KeepLasts(keepMs, t.end - t.head);
          KeepLasts(keepMs, t.end - t.head + g.periodFrames);
        }
      }
    }

    /** Drop frames at the head, and let the run grow over what is held after it. */
    method Surrender(drop: nat)
      requires Slots() && g.periodFrames > 0 && g.slots > 0
      modifies this`head, this`contiguousEnd, this`dropped, this`held
      ensures Slots()
      ensures var s, held := old(Model()), From(old(held), old(head) + drop);
        Model() == s.(head := s.head + drop, held := held, dropped := s.dropped + drop,
                      end := RunEnd(g, held, if s.end < s.head + drop then s.head + drop else s.end,
                                    s.head + drop + Capacity(g)))
    {
      hide Represents, Capacity, RunEnd, From;
      RepresentsPastHead(g, positions[..], audio[..], held, head, head + drop);
      head, held := head + drop, From(held, head + drop);
      if contiguousEnd < head {
        contiguousEnd := head;
      }
      dropped := dropped + drop;
      AdvanceContiguous();
    }
  }
}
