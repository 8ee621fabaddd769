/**
 * How far a receiving turn gets. Its two nested loops and their budgets come to a rule over the
 * messages it hears: on until all are heard, eight frames are complete, twenty-four messages in a
 * row have completed none, or a complete frame is empty.
 */
module Turns {
  import opened Arithmetic
  import opened Bytes
  import opened EndToEnd
  import opened Packing
  import opened SenderRuns
  import opened Transport
  import Fragments
  import Playout
  import WireFrame

  /** The frames complete once these messages are heard. */
  function Completed(s: Fragments.Assembly, heard: seq<seq<byte>>): seq<seq<byte>> {
    Fragments.Received(s, heard).1
  }

  /** A turn that has heard these hears no more; `frames` is how many it may complete. */
  ghost predicate Stops(s: Fragments.Assembly, heard: seq<seq<byte>>, frames: nat) {
    || |Completed(s, heard)| == frames
    || (|heard| >= 24 && Completed(s, heard) == Completed(s, heard[..|heard| - 24]))
    || [] in Completed(s, heard)
  }

  /** A drain completes nothing before its last message, and stops short of the inbox only there or out of budget. */
  lemma {:induction false} DrainCompletes(r: Receiver, inbox: seq<seq<byte>>, budget: nat)
    requires !r.assembly.ready
    ensures var n := Drained(r, inbox, budget); var t := FedAll(r, inbox[..n]);
      && (forall j :: 0 <= j < n ==> Completed(r.assembly, inbox[..j]) == [])
      && (if t.assembly.ready then
            && n > 0 && Completed(r.assembly, inbox[..n]) == [t.assembly.buffer]
            && Fragments.Received(r.assembly, inbox[..n]).0 == Fragments.Taken(t.assembly).0
          else
            && Completed(r.assembly, inbox[..n]) == [] && (n == |inbox| || n == budget)
            && Fragments.Received(r.assembly, inbox[..n]).0 == t.assembly)
      && (Dry(r, inbox, budget) <==> !t.assembly.ready && n < budget)
    decreases |inbox|
  {
    var n := Drained(r, inbox, budget);
    assert inbox[..0] == [];
    NothingCompleted(r.assembly);
    hide Fed, Completed, Fragments.Received;
    if budget > 0 && inbox != [] {
      var t := Fed(r, inbox[0]);
      assert inbox[..n][0] == inbox[0] && inbox[..n][1..] == inbox[1..][..n - 1];
      ReceivedFirst(r, inbox[..n]);
      if t.assembly.ready {
        assert inbox[..1][1..] == [];
        NothingCompleted(Fragments.Taken(t.assembly).0);
      } else {
        DrainCompletes(t, inbox[1..], budget - 1);
        hide Drained, FedAll, Dry;
        assert [] + Completed(t.assembly, inbox[1..][..n - 1]) == Completed(t.assembly, inbox[1..][..n - 1]);
        forall j | 0 <= j < n
          ensures Completed(r.assembly, inbox[..j]) == []
        {
          if j > 0 {
            assert inbox[..j][0] == inbox[0] && inbox[..j][1..] == inbox[1..][..j - 1];
            ReceivedFirst(r, inbox[..j]);
          }
        }
      }
    }
  }

  lemma NothingCompleted(s: Fragments.Assembly)
    ensures Completed(s, []) == [] && Fragments.Received(s, []).0 == s
  {
  }

  lemma ReceivedFirst(r: Receiver, heard: seq<seq<byte>>)
    requires heard != []
    ensures var (s, frame) := Fragments.Taken(Fed(r, heard[0]).assembly);
      && Fragments.Received(r.assembly, heard).0 == Fragments.Received(s, heard[1..]).0
      && Completed(r.assembly, heard)
         == (if frame.Some? then [frame.value] else []) + Completed(s, heard[1..])
  {
    hide Fragments.Fed;
  }

  lemma CompletedAppend(s: Fragments.Assembly, a: seq<seq<byte>>, b: seq<seq<byte>>)
    ensures Completed(s, a + b) == Completed(s, a) + Completed(Fragments.Received(s, a).0, b)
  {
    Fragments.ReceivedAppend(s, a, b);
    hide Fragments.Received;
  }

  lemma OneMore<T>(x: T, a: seq<T>, b: seq<T>)
    ensures |[x] + a| == |a| + 1 && ([x] + a == [x] + b <==> a == b)
  {
    assert ([x] + a)[1..] == a && ([x] + b)[1..] == b;
  }

  /** Past its first complete frame the rule starts again, with a frame less to complete. */
  lemma StopsLater(s: Fragments.Assembly, a: seq<seq<byte>>, b: seq<seq<byte>>, frame: seq<byte>, frames: nat)
    requires Completed(s, a) == [frame] && frame != [] && frames > 0
    requires forall j :: 0 <= j < |a| ==> Completed(s, a[..j]) == []
    ensures Stops(s, a + b, frames) <==> Stops(Fragments.Received(s, a).0, b, frames - 1)
  {
    hide Completed;
    var t, n := Fragments.Received(s, a).0, |a + b|;
    hide Fragments.Received;
    var more := Completed(t, b);
    CompletedAppend(s, a, b);
    if |b| >= 24 {
      assert (a + b)[..n - 24] == a + b[..|b| - 24];
      CompletedAppend(s, a, b[..|b| - 24]);
      OneMore(frame, more, Completed(t, b[..|b| - 24]));
    } else if n >= 24 {
      assert (a + b)[..n - 24] == a[..n - 24];
    }
    OneMore(frame, more, []);
    assert [] in [frame] + more <==> [] in more;
  }

  /** The rule, with `frames` left to complete. */
  ghost predicate ByTheRule(e: Setup, r: Receiver, inbox: seq<seq<byte>>, frames: nat) {
    var (t, rest) := Turn(e, r, inbox, frames);
    var k := |inbox| - |rest|;
    && 0 <= k && rest == inbox[k..] && t == Heard(e, r, inbox[..k]) && !t.assembly.ready
    && (forall j :: 0 <= j < k ==> !Stops(r.assembly, inbox[..j], frames))
    && (rest != [] ==> Stops(r.assembly, inbox[..k], frames))
    && (Asks(e, r, inbox, frames) <==> rest == [] && !Stops(r.assembly, inbox[..k], frames))
  }

  /** One drain of a turn, and what follows it. */
  lemma TurnTurns(e: Setup, r: Receiver, inbox: seq<seq<byte>>, frames: nat)
    requires frames > 0
    ensures var n := Drained(r, inbox, 24); var t := FedAll(r, inbox[..n]);
      var more := t.assembly.ready && t.assembly.buffer != [];
      && Turn(e, r, inbox, frames)
         == (if more then Turn(e, Settled(e, t), inbox[n..], frames - 1) else (Settled(e, t), inbox[n..]))
      && (Asks(e, r, inbox, frames) <==>
            Dry(r, inbox, 24) || (more && Asks(e, Settled(e, t), inbox[n..], frames - 1)))
  {
    hide Drained, FedAll, Settled, Dry;
  }

  lemma SettledTakes(e: Setup, r: Receiver)
    ensures Settled(e, r).assembly == Fragments.Taken(r.assembly).0 && !Settled(e, r).assembly.ready
  {
    hide Read;
  }

  lemma EndsHere(e: Setup, r: Receiver, inbox: seq<seq<byte>>, frames: nat)
    requires frames > 0 && !r.assembly.ready
    requires var t := FedAll(r, inbox[..Drained(r, inbox, 24)]); !(t.assembly.ready && t.assembly.buffer != [])
    ensures ByTheRule(e, r, inbox, frames)
  {
    var n := Drained(r, inbox, 24);
    var t := FedAll(r, inbox[..n]);
    TurnTurns(e, r, inbox, frames);
    DrainHears(e, r, inbox, 24);
    DrainCompletes(r, inbox, 24);
    hide Turn, Asks, Drained, FedAll, Settled, Dry, Heard, Completed;
    forall j | 0 <= j < n
      ensures !Stops(r.assembly, inbox[..j], frames)
    {
      assert |inbox[..j]| < 24;
    }
    if n == 24 && !t.assembly.ready {
      assert inbox[..n][..|inbox[..n]| - 24] == inbox[..0];
      assert Stops(r.assembly, inbox[..n], frames);
    }
    assert |inbox[n..]| == 0 <==> inbox[n..] == [];
  }

  lemma GoesOn(e: Setup, r: Receiver, inbox: seq<seq<byte>>, frames: nat)
    requires frames > 0 && !r.assembly.ready
    requires var t := FedAll(r, inbox[..Drained(r, inbox, 24)]);
      && t.assembly.ready && t.assembly.buffer != []
      && ByTheRule(e, Settled(e, t), inbox[Drained(r, inbox, 24)..], frames - 1)
    ensures ByTheRule(e, r, inbox, frames)
  {
    var n := Drained(r, inbox, 24);
    var t := FedAll(r, inbox[..n]);
    TurnTurns(e, r, inbox, frames);
    DrainHears(e, r, inbox, 24);
    DrainCompletes(r, inbox, 24);
    SettledTakes(e, t);
    var u := Settled(e, t);
    StopsOn(r.assembly, u.assembly, inbox, n, t.assembly.buffer, frames);
    hide *;
    RuleMoves(e, r, u, inbox, n, frames);
  }

  /** The rule from `n` messages on is the rule from the start, if none of those stops. */
  lemma RuleMoves(e: Setup, r: Receiver, u: Receiver, inbox: seq<seq<byte>>, n: nat, frames: nat)
    requires frames > 0 && n <= |inbox| && Heard(e, r, inbox[..n]) == u
    requires Turn(e, r, inbox, frames) == Turn(e, u, inbox[n..], frames - 1)
    requires Asks(e, r, inbox, frames) == Asks(e, u, inbox[n..], frames - 1)
    requires forall j :: 0 <= j < n ==> !Stops(r.assembly, inbox[..j], frames)
    requires forall j :: 0 <= j <= |inbox| - n ==>
      (Stops(r.assembly, inbox[..n + j], frames) <==> Stops(u.assembly, inbox[n..][..j], frames - 1))
    requires ByTheRule(e, u, inbox[n..], frames - 1)
    ensures ByTheRule(e, r, inbox, frames)
  {
    hide Turn, Asks, Heard, Stops;
    var (v, rest) := Turn(e, u, inbox[n..], frames - 1);
    var k := |inbox[n..]| - |rest|;
    assert inbox[n..][k..] == inbox[n + k..] && inbox[..n + k] == inbox[..n] + inbox[n..][..k];
    HeardAppend(e, r, inbox[..n], inbox[n..][..k]);
    forall j | 0 <= j < n + k
      ensures !Stops(r.assembly, inbox[..j], frames)
    {
      if j >= n {
        assert !Stops(u.assembly, inbox[n..][..j - n], frames - 1);
        assert Stops(r.assembly, inbox[..n + (j - n)], frames) <==>
               Stops(u.assembly, inbox[n..][..j - n], frames - 1);
      }
    }
    assert Stops(r.assembly, inbox[..n + k], frames) <==> Stops(u.assembly, inbox[n..][..k], frames - 1);
  }

  lemma StopsOn(s: Fragments.Assembly, u: Fragments.Assembly, inbox: seq<seq<byte>>, n: nat, frame: seq<byte>,
                frames: nat)
    requires frames > 0 && n <= |inbox| && n <= 24 && frame != []
    requires forall j :: 0 <= j < n ==> Completed(s, inbox[..j]) == []
    requires Completed(s, inbox[..n]) == [frame] && u == Fragments.Received(s, inbox[..n]).0
    ensures forall j :: 0 <= j < n ==> !Stops(s, inbox[..j], frames)
    ensures forall j :: 0 <= j <= |inbox| - n ==>
      (Stops(s, inbox[..n + j], frames) <==> Stops(u, inbox[n..][..j], frames - 1))
  {
    hide Completed, Stops, Fragments.Received;
    forall j | 0 <= j < n
      ensures !Stops(s, inbox[..j], frames)
    {
      StopsNotYet(s, inbox[..j], frames);
    }
    forall j | 0 <= j <= |inbox| - n
      ensures Stops(s, inbox[..n + j], frames) <==> Stops(u, inbox[n..][..j], frames - 1)
    {
      assert inbox[..n + j] == inbox[..n] + inbox[n..][..j];
      assert forall i :: 0 <= i < n ==> inbox[..n][..i] == inbox[..i];
      StopsLater(s, inbox[..n], inbox[n..][..j], frame, frames);
    }
  }

  lemma StopsNotYet(s: Fragments.Assembly, heard: seq<seq<byte>>, frames: nat)
    requires |heard| < 24 && frames > 0 && Completed(s, heard) == []
    ensures !Stops(s, heard, frames)
  {
  }

  lemma {:induction false} TurnFollows(e: Setup, r: Receiver, inbox: seq<seq<byte>>, frames: nat)
    requires !r.assembly.ready
    ensures ByTheRule(e, r, inbox, frames)
    decreases frames
  {
    if frames == 0 {
      assert inbox[..0] == [] && inbox[0..] == inbox;
    } else {
      hide ByTheRule, Drained, FedAll, Settled;
      var t := FedAll(r, inbox[..Drained(r, inbox, 24)]);
      if t.assembly.ready && t.assembly.buffer != [] {
        SettledTakes(e, t);
        TurnFollows(e, Settled(e, t), inbox[Drained(r, inbox, 24)..], frames - 1);
        GoesOn(e, r, inbox, frames);
      } else {
        EndsHere(e, r, inbox, frames);
      }
    }
  }

  /**
   * A turn hears messages one by one until all are heard, eight frames are complete, twenty-four
   * in a row have completed none, or a complete frame is empty: whichever is first. A link that
   * has failed is asked, and fails the turn, exactly when all is heard and none of the others
   * is so.
   */
  lemma TurnStopsFirst(e: Setup, r: Receiver, inbox: seq<seq<byte>>)
    requires !r.assembly.ready
    ensures ByTheRule(e, r, inbox, 8)
    ensures Turn(e, r, inbox, MAX_FRAMES_PER_TURN) == Turn(e, r, inbox, 8)
    ensures Asks(e, r, inbox, MAX_FRAMES_PER_TURN) == Asks(e, r, inbox, 8)
  {
    TurnFollows(e, r, inbox, 8);
  }

  // ---------------------------------------------------------------------------
  // A frame that waits whole.

  /** The frames these engines write are eight messages at most. */
  lemma FewMessages(e: Setup)
    requires Ready(e)
    ensures 0 < Fragments.FragmentCount(FrameBytes(e)) <= 8
  {
    ReadyPeriod(e);
    ReadyFits(e);
    assert Known(e.fmt);
    var each := WireFrame.BLOCK_HEADER_BYTES + BlockDataBytes(e);
    assert each <= 1160;
    MultiplyOrdered(|e.config.blocks|, 8, each);
    hide Ready;
  }

  /** Of a frame's messages in a row nothing is complete before the last, and it with the last. */
  lemma CompletesLast(s: Fragments.Assembly, f: Fragments.Sent, j: nat)
    requires Fragments.Sendable(f) && Fragments.Midway(s) && j <= Fragments.FragmentCount(|f.frame|)
    ensures Completed(s, Fragments.Messages(f.frame, f.sequence)[..j])
         == if j == Fragments.FragmentCount(|f.frame|) then [f.frame] else []
  {
    hide Fragments.FragmentCount;
    var messages := Fragments.Messages(f.frame, f.sequence);
    if j > 0 {
      var arrives := seq(|messages|, m => m < j);
      Fragments.StartHeard(s, f, arrives);
      Fragments.KeptBefore(messages, arrives, j);
      hide Fragments.Messages, Fragments.Received;
      if j < |messages| {
        assert !arrives[j];
      }
    }
  }

  lemma {:induction false} AllArePushes(ops: seq<Op>)
    requires forall i :: 0 <= i < |ops| ==> ops[i].PushOp?
    ensures Pushes(ops) == ops
  {
    if ops != [] {
      AllArePushes(ops[1..]);
    }
  }

  /** Hearing all of one frame does to the buffer what the frame asks, and nothing else. */
  lemma HeardFramePushes(e: Setup, r: Receiver, f: Fragments.Sent, op: Op)
    requires e.fmt.periodFrames > 0 && Fragments.Midway(r.assembly) && Playout.Inv(Ring(e), r.playout)
    requires Fragments.Sendable(f) && Asked(e, f.frame) == [op] && op.PushOp?
    ensures Heard(e, r, Fragments.Messages(f.frame, f.sequence)).playout
         == Playout.Push(Ring(e), r.playout, op.position, op.period, op.bytes).0
  {
    hide Asked, Heard, Playout.Inv, Playout.Push, Ring, Live, Fragments.Received, Pushes, Completed, OnlyPlaying;
    var messages := Fragments.Messages(f.frame, f.sequence);
    hide Fragments.Messages, Fragments.FragmentCount;
    CompletesLast(r.assembly, f, |messages|);
    assert messages[..|messages|] == messages;
    CompletedIs(r, messages);
    HeardIsLive(e, r, messages);
    HearsOnlyPush(e, r.assembly, messages);
    var live := Live(e, r.assembly, Hears(messages));
    AllArePushes(live);
    HearsAll(messages);
    LiveHands(e, r.assembly, Hears(messages));
    OneHanded(e, f.frame);
    assert live == [op];
    OneRun(e, r.playout, op);
  }

  lemma CompletedIs(r: Receiver, messages: seq<seq<byte>>)
    ensures Completed(r.assembly, messages) == Fragments.Received(r.assembly, messages).1
  {
  }

  lemma HearsAll(messages: seq<seq<byte>>)
    ensures OnlyPlaying(Hears(messages))
  {
  }

  lemma OneRun(e: Setup, p: Playout.Playout<seq<byte>>, op: Op)
    requires e.fmt.periodFrames > 0 && Playout.Inv(Ring(e), p) && op.PushOp?
    ensures Playout.Run(Ring(e), p, [op]).0 == Playout.Push(Ring(e), p, op.position, op.period, op.bytes).0
  {
    hide Playout.Push, Playout.Inv;
    assert [op][1..] == [];
  }

  /** What the link is given for period `i`. */
  ghost function SentFor(e: Setup, s: Sender, i: nat, period: seq<Sample>): Fragments.Sent
    requires IsPeriod(e.fmt, period)
  {
    SentOne(e, After(e, s, i), period)
  }

  lemma SentForFacts(e: Setup, s: Sender, i: nat, period: seq<Sample>)
    requires Ready(e) && IsPeriod(e.fmt, period) && s.position + i * e.fmt.periodFrames < POSITIONS
    ensures e.fmt.periodFrames > 0
    ensures var f := SentFor(e, s, i, period);
      && 0 < Fragments.FragmentCount(|f.frame|) <= 8 && Fragments.Sendable(f)
      && Asked(e, f.frame) == [PeriodPush(e, s, i, period)]
  {
    hide Ready, Framed, Asked, Flatten;
    ReadyPeriod(e);
    FewMessages(e);
    FramedPeriod(e, After(e, s, i), period);
    ReadsBack(e, s, i, period);
    hide FrameBytes, Fragments.FragmentCount, After;
  }

  /** A turn hears at least as many messages as do not stop it. */
  lemma TurnGetsThere(e: Setup, r: Receiver, a: seq<seq<byte>>, b: seq<seq<byte>>, t: Receiver, rest: seq<seq<byte>>)
    requires !r.assembly.ready && Turn(e, r, a + b, 8) == (t, rest)
    requires forall j :: 0 <= j < |a| ==> !Stops(r.assembly, (a + b)[..j], 8)
    ensures |rest| <= |b| && rest == b[|b| - |rest|..] && t == Heard(e, Heard(e, r, a), b[..|b| - |rest|])
  {
    hide Heard, Turn, Asks, Stops;
    TurnFollows(e, r, a + b, 8);
    assert |a + b| - |rest| >= |a|;
    HeardPast(e, r, a, b, |b| - |rest|);
  }

  lemma HeardPast(e: Setup, r: Receiver, a: seq<seq<byte>>, b: seq<seq<byte>>, n: nat)
    requires n <= |b|
    ensures Heard(e, r, (a + b)[..|a| + n]) == Heard(e, Heard(e, r, a), b[..n])
    ensures (a + b)[|a| + n..] == b[n..]
  {
    hide Heard;
    assert (a + b)[..|a| + n] == a + b[..n];
    HeardAppend(e, r, a, b[..n]);
  }

  lemma TurnPassesFrame(e: Setup, r: Receiver, f: Fragments.Sent, more: seq<seq<byte>>,
                        t: Receiver, rest: seq<seq<byte>>)
    requires 0 < Fragments.FragmentCount(|f.frame|) <= 8 && Fragments.Midway(r.assembly)
    requires Turn(e, r, Fragments.Messages(f.frame, f.sequence) + more, 8) == (t, rest)
    ensures |rest| <= |more| && rest == more[|more| - |rest|..]
    ensures t == Heard(e, Heard(e, r, Fragments.Messages(f.frame, f.sequence)), more[..|more| - |rest|])
  {
    assert !r.assembly.ready;
    hide *;
    FrameStopsNothing(r.assembly, f, more);
    TurnGetsThere(e, r, Fragments.Messages(f.frame, f.sequence), more, t, rest);
  }

  lemma FrameStopsNothing(s: Fragments.Assembly, f: Fragments.Sent, more: seq<seq<byte>>)
    requires 0 < Fragments.FragmentCount(|f.frame|) <= 8 && Fragments.Midway(s)
    ensures var messages := Fragments.Messages(f.frame, f.sequence);
      forall j :: 0 <= j < |messages| ==> !Stops(s, (messages + more)[..j], 8)
  {
    assert Fragments.Sendable(f);
    hide *;
    var messages := Fragments.Messages(f.frame, f.sequence);
    forall j | 0 <= j < |messages|
      ensures !Stops(s, (messages + more)[..j], 8)
    {
      assert (messages + more)[..j] == messages[..j];
      CompletesLast(s, f, j);
      StopsNotYet(s, messages[..j], 8);
    }
  }

  /** A turn over the frame's messages, and more behind them, pushes that, and then hears on. */
  ghost predicate PushedInATurn(e: Setup, r: Receiver, f: Fragments.Sent, more: seq<seq<byte>>,
                                position: nat, period: seq<byte>) {
    var messages := Fragments.Messages(f.frame, f.sequence);
    var (t, rest) := Turn(e, r, messages + more, MAX_FRAMES_PER_TURN);
    var u := Heard(e, r, messages);
    && u.playout == Playout.Push(Ring(e), r.playout, position, period, PeriodBytes(e.fmt)).0
    && |rest| <= |more| && rest == more[|more| - |rest|..] && t == Heard(e, u, more[..|more| - |rest|])
  }

  /**
   * A frame all of whose messages wait is handled in the turn that comes to it: whatever the
   * receiver was in the middle of, and whatever waits behind, the turn pushes the frame's period
   * at its position, and then hears on.
   */
  lemma WholeFrameInATurn(e: Setup, r: Receiver, s: Sender, i: nat, period: seq<Sample>, more: seq<seq<byte>>)
    requires IsPeriod(e.fmt, period) && s.position + i * e.fmt.periodFrames < POSITIONS
    requires Fragments.Midway(r.assembly) && Playout.Inv(Ring(e), r.playout) && Ready(e)
    ensures PushedInATurn(e, r, SentFor(e, s, i, period), more, s.position + i * e.fmt.periodFrames, Flatten(period))
  {
    hide *;
    var f := SentFor(e, s, i, period);
    SentForFacts(e, s, i, period);
    PeriodPushIs(e, s, i, period);
    HeardFramePushes(e, r, f, PeriodPush(e, s, i, period));
    var (t, rest) := Turn(e, r, Fragments.Messages(f.frame, f.sequence) + more, 8);
    TurnPassesFrame(e, r, f, more, t, rest);
    PushedBy(e, r, f, more, PeriodPush(e, s, i, period), t, rest);
  }

  lemma PeriodPushIs(e: Setup, s: Sender, i: nat, period: seq<Sample>)
    ensures PeriodPush(e, s, i, period)
         == Playout.PushOp(s.position + i * e.fmt.periodFrames, Flatten(period), PeriodBytes(e.fmt))
  {
  }

  lemma PushedBy(e: Setup, r: Receiver, f: Fragments.Sent, more: seq<seq<byte>>, op: Op,
                 t: Receiver, rest: seq<seq<byte>>)
    requires op.PushOp? && op.bytes == PeriodBytes(e.fmt)
    requires Heard(e, r, Fragments.Messages(f.frame, f.sequence)).playout
          == Playout.Push(Ring(e), r.playout, op.position, op.period, op.bytes).0
    requires Turn(e, r, Fragments.Messages(f.frame, f.sequence) + more, 8) == (t, rest)
    requires |rest| <= |more| && rest == more[|more| - |rest|..]
    requires t == Heard(e, Heard(e, r, Fragments.Messages(f.frame, f.sequence)), more[..|more| - |rest|])
    ensures PushedInATurn(e, r, f, more, op.position, op.period)
  {
    hide Heard, Turn, Playout.Push, Ring, Fragments.Messages;
  }

  // ---------------------------------------------------------------------------
  // What a receiver counts.

  /** Messages the reassembler does not take for its own. */
  function Foreign(s: Fragments.Assembly, heard: seq<seq<byte>>): nat
    decreases |heard|
  {
    if heard == [] then 0
    else
      var (t, ours) := Fragments.Fed(s, heard[0]);
      (if ours then 0 else 1) + Foreign(Fragments.Taken(t).0, heard[1..])
  }

  function NotEmpty(frames: seq<seq<byte>>): nat {
    if frames == [] then 0 else (if frames[0] != [] then 1 else 0) + NotEmpty(frames[1..])
  }

  /** The books between two states of a receiver: `frames` frames were handled and `foreign` messages refused. */
  ghost predicate Booked(e: Setup, r: Receiver, u: Receiver, frames: nat, foreign: nat) {
    var g := Ring(e);
    && u.received + u.refused == r.received + r.refused + frames + foreign && u.received >= r.received
    && (if e.slots > 0 then u.playout.pushed == r.playout.pushed + Playout.Frames(g, u.received - r.received)
        else u.playout.dropped == r.playout.dropped + Playout.Frames(g, u.received - r.received))
  }

  lemma BookedOn(e: Setup, a: Receiver, b: Receiver, c: Receiver, m: nat, n: nat, x: nat, y: nat)
    requires Booked(e, a, b, m, x) && Booked(e, b, c, n, y)
    ensures Booked(e, a, c, m + n, x + y)
  {
    Playout.FramesAdd(Ring(e), b.received - a.received, c.received - b.received);
    hide Playout.Frames;
  }

  lemma PushBooks(e: Setup, r: Receiver, position: nat, period: seq<byte>)
    requires e.fmt.periodFrames > 0 && Playout.Inv(Ring(e), r.playout)
    ensures var (playout, status) := Playout.Push(Ring(e), r.playout, position, period, |period|);
      && Playout.Inv(Ring(e), playout)
      && Booked(e, r,
                (if status.Stored? || status.Overrun? then r.(playout := playout, received := r.received + 1)
                 else r.(playout := playout, refused := r.refused + 1)), 1, 0)
  {
    var g := Ring(e);
    Playout.FramesAdd(g, 0, 0);
    Playout.PushKeeps(g, r.playout, position, period, |period|);
    Playout.PushExactly(g, r.playout, position, period, |period|);
    hide Playout.Inv, Playout.Push, Playout.HeadFor, Playout.Frames;
  }

  lemma HandlingBooks(e: Setup, r: Receiver, bytes: seq<byte>)
    requires e.fmt.periodFrames > 0 && Playout.Inv(Ring(e), r.playout)
    ensures Booked(e, r, Handled(e, r, bytes), if bytes == [] then 0 else 1, 0)
    ensures Playout.Inv(Ring(e), Handled(e, r, bytes).playout)
  {
    assert bytes == [] <==> Read(e, bytes).Nothing? by {
      hide WireFrame.Parse, Unpack, Flatten;
    }
    hide Read, Playout.Push, Playout.Inv, Ring;
    match Read(e, bytes) {
      case Push(position, period) => PushBooks(e, r, position, period);
      case _ => NothingPushedBooks(e, r);
    }
  }

  lemma NothingPushedBooks(e: Setup, r: Receiver)
    ensures Booked(e, r, r, 0, 0) && Booked(e, r, r.(refused := r.refused + 1), 1, 0)
    ensures Booked(e, r, r.(refused := r.refused + 1), 0, 1)
  {
    Playout.FramesAdd(Ring(e), 0, 0);
    hide Playout.Frames;
  }

  lemma MessageBooks(e: Setup, r: Receiver, message: seq<byte>)
    requires e.fmt.periodFrames > 0 && Playout.Inv(Ring(e), r.playout)
    ensures var (s, ours) := Fragments.Fed(r.assembly, message);
      var frame := Fragments.Taken(s).1;
      var u := Settled(e, Fed(r, message));
      && Booked(e, r, u, if frame.Some? && frame.value != [] then 1 else 0, if ours then 0 else 1)
      && Playout.Inv(Ring(e), u.playout) && u.assembly == Fragments.Taken(s).0
  {
    hide Fragments.Fed, Handled, Playout.Inv, Ring;
    var t := Fed(r, message);
    SettledTakes(e, t);
    var (s, frame) := Fragments.Taken(t.assembly);
    var u := Settled(e, t);
    NothingPushedBooks(e, r);
    if frame.Some? {
      HandlingBooks(e, t.(assembly := s), frame.value);
    } else {
      NothingPushedBooks(e, t);
    }
    hide Fragments.Taken, Settled;
    var foreign := if Fragments.Fed(r.assembly, message).1 then 0 else 1;
    assert Booked(e, r, t, 0, foreign);
    var frames := if frame.Some? && frame.value != [] then 1 else 0;
    assert Booked(e, t, u, frames, 0);
    BookedOn(e, r, t, u, 0, frames, foreign, 0);
  }

  lemma HeardFirst(e: Setup, r: Receiver, heard: seq<seq<byte>>)
    requires heard != []
    ensures Heard(e, r, heard) == Heard(e, Settled(e, Fed(r, heard[0])), heard[1..])
    ensures var (s, ours) := Fragments.Fed(r.assembly, heard[0]);
      && Fed(r, heard[0]).assembly == s
      && Foreign(r.assembly, heard) == (if ours then 0 else 1) + Foreign(Fragments.Taken(s).0, heard[1..])
  {
    hide Settled, Fragments.Fed;
  }

  lemma NotEmptyFirst(frame: Option<seq<byte>>, later: seq<seq<byte>>)
    ensures NotEmpty((if frame.Some? then [frame.value] else []) + later)
         == (if frame.Some? && frame.value != [] then 1 else 0) + NotEmpty(later)
  {
    if frame.Some? {
      assert ([frame.value] + later)[1..] == later;
    } else {
      assert [] + later == later;
    }
  }

  /**
   * Over any messages: each frame they complete that has octets is received or refused, and each
   * message that is not ours is refused; what is received is what the buffer took in, counted
   * dropped by one that has no slots.
   */
  lemma {:induction false} HeardIsBooked(e: Setup, r: Receiver, heard: seq<seq<byte>>)
    requires e.fmt.periodFrames > 0 && Playout.Inv(Ring(e), r.playout)
    ensures Booked(e, r, Heard(e, r, heard), NotEmpty(Completed(r.assembly, heard)), Foreign(r.assembly, heard))
    decreases |heard|
  {
    if heard == [] {
      Playout.FramesAdd(Ring(e), 0, 0);
    } else {
      var u := Settled(e, Fed(r, heard[0]));
      ReceivedFirst(r, heard);
      HeardFirst(e, r, heard);
      hide *;
      MessageBooks(e, r, heard[0]);
      HeardIsBooked(e, u, heard[1..]);
      var (s, ours) := Fragments.Fed(r.assembly, heard[0]);
      var frame := Fragments.Taken(s).1;
      var later := Completed(u.assembly, heard[1..]);
      NotEmptyFirst(frame, later);
      BookedOn(e, r, u, Heard(e, u, heard[1..]), if frame.Some? && frame.value != [] then 1 else 0, NotEmpty(later),
               if ours then 0 else 1, Foreign(u.assembly, heard[1..]));
    }
  }
}
