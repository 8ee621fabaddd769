/** The end-to-end result over the receiver's own turns, its inbox and its device. */
module Lifetime {
  import opened Bytes
  import opened EndToEnd
  import opened Packing
  import opened SenderRuns
  import opened Transport
  import Fragments
  import Playout

  datatype Act = Arrive(messages: seq<seq<byte>>) | Receive | Device(op: Op)

  datatype World = World(receiver: Receiver, inbox: seq<seq<byte>>, played: seq<Playout.Played<seq<byte>>>)

  ghost predicate Working(e: Setup, w: World) {
    e.fmt.periodFrames > 0 && Playout.Inv(Ring(e), w.receiver.playout) && Fragments.Midway(w.receiver.assembly)
  }

  /** Messages arrive, the receive loop takes a turn, or the device takes or discards. */
  ghost function Acted(e: Setup, w: World, act: Act): (u: World)
    requires Working(e, w)
    ensures Working(e, u)
  {
    match act
    case Arrive(messages) => w.(inbox := w.inbox + messages)
    case Receive =>
      ReceiveWorks(e, w);
      var (r, rest) := Turn(e, w.receiver, w.inbox, MAX_FRAMES_PER_TURN);
      w.(receiver := r, inbox := rest)
    case Device(op) =>
      var (p, out) := Playout.Apply(Ring(e), w.receiver.playout, op);
      w.(receiver := w.receiver.(playout := p), played := w.played + if out.Some? then [out.value] else [])
  }

  ghost function Lived(e: Setup, w: World, acts: seq<Act>): (u: World)
    requires Working(e, w)
    ensures Working(e, u)
    decreases |acts|
  {
    if acts == [] then w else Lived(e, Acted(e, w, acts[0]), acts[1..])
  }

  ghost predicate DevicePlays(acts: seq<Act>) {
    forall i :: 0 <= i < |acts| && acts[i].Device? ==> !acts[i].op.PushOp?
  }

  function Arrived(acts: seq<Act>): seq<seq<byte>> {
    if acts == [] then [] else (if acts[0].Arrive? then acts[0].messages else []) + Arrived(acts[1..])
  }

  /** What a turn hears, or the device does. */
  function EventsOfOne(e: Setup, w: World, act: Act): seq<Event> {
    match act
    case Arrive(_) => []
    case Receive => Hears(w.inbox[..TurnLength(e, w.receiver, w.inbox, MAX_FRAMES_PER_TURN)])
    case Device(op) => [Play(op)]
  }

  ghost function EventsOf(e: Setup, w: World, acts: seq<Act>): seq<Event>
    requires Working(e, w)
    decreases |acts|
  {
    if acts == [] then [] else EventsOfOne(e, w, acts[0]) + EventsOf(e, Acted(e, w, acts[0]), acts[1..])
  }

  lemma ReceiveWorks(e: Setup, w: World)
    requires Working(e, w)
    ensures Working(e, w.(receiver := Turn(e, w.receiver, w.inbox, MAX_FRAMES_PER_TURN).0))
  {
    var n := TurnLength(e, w.receiver, w.inbox, MAX_FRAMES_PER_TURN);
    hide Playout.Inv, Turn, TurnLength, Live, Fragments.Received;
    TurnHearsAPrefix(e, w.receiver, w.inbox, MAX_FRAMES_PER_TURN);
    HeardIsLive(e, w.receiver, w.inbox[..n]);
    Fragments.ReceivedStaysMidway(w.receiver.assembly, w.inbox[..n]);
  }

  lemma PlayFirst(e: Setup, s: Fragments.Assembly, events: seq<Event>)
    requires events != [] && events[0].Play?
    ensures Live(e, s, events) == [events[0].op] + Live(e, s, events[1..])
    ensures HeardMessages(events) == HeardMessages(events[1..])
  {
  }

  lemma MessageFirst(e: Setup, s: Fragments.Assembly, events: seq<Event>)
    requires events != [] && events[0].Hear?
    ensures var (t, frame) := Fragments.Taken(Fragments.Fed(s, events[0].message).0);
      && Live(e, s, events) == (if frame.Some? then Asked(e, frame.value) else []) + Live(e, t, events[1..])
      && Fragments.Received(s, HeardMessages(events)).0 == Fragments.Received(t, HeardMessages(events[1..])).0
    ensures HeardMessages(events) == [events[0].message] + HeardMessages(events[1..])
  {
    hide Fragments.Fed, Fragments.Taken, Asked;
    HearFirst(e, s, events);
    assert HeardMessages(events)[0] == events[0].message;
    assert HeardMessages(events)[1..] == HeardMessages(events[1..]);
    hide Live;
  }

  lemma {:induction false} LiveAppend(e: Setup, s: Fragments.Assembly, a: seq<Event>, b: seq<Event>)
    ensures HeardMessages(a + b) == HeardMessages(a) + HeardMessages(b)
    ensures Live(e, s, a + b) == Live(e, s, a) + Live(e, Fragments.Received(s, HeardMessages(a)).0, b)
    decreases |a|
  {
    if a == [] {
      assert a + b == b;
    } else {
      hide Fragments.Fed, Fragments.Taken, Fragments.Received, Asked, Live, HeardMessages;
      assert (a + b)[0] == a[0] && (a + b)[1..] == a[1..] + b;
      var rest, later := a[1..], Fragments.Received(s, HeardMessages(a)).0;
      if a[0].Play? {
        PlayFirst(e, s, a + b);
        PlayFirst(e, s, a);
        LiveAppend(e, s, rest, b);
        Associates([a[0].op], Live(e, s, rest), Live(e, later, b));
      } else {
        var (t, frame) := Fragments.Taken(Fragments.Fed(s, a[0].message).0);
        MessageFirst(e, s, a + b);
        MessageFirst(e, s, a);
        LiveAppend(e, t, rest, b);
        Associates(if frame.Some? then Asked(e, frame.value) else [], Live(e, t, rest), Live(e, later, b));
        Associates([a[0].message], HeardMessages(rest), HeardMessages(b));
      }
    }
  }

  lemma Associates<T>(a: seq<T>, b: seq<T>, c: seq<T>)
    ensures a + (b + c) == a + b + c
  {
  }

  /** One act is its events, run on the buffer. */
  ghost predicate Follows(e: Setup, w: World, events: seq<Event>, u: World)
    requires Working(e, w)
  {
    var ops := Live(e, w.receiver.assembly, events);
    && u.receiver.assembly == Fragments.Received(w.receiver.assembly, HeardMessages(events)).0
    && u.receiver.playout == Playout.Run(Ring(e), w.receiver.playout, ops).0
    && u.played == w.played + Playout.Run(Ring(e), w.receiver.playout, ops).1
  }

  lemma ReceiveFollows(e: Setup, w: World)
    requires Working(e, w)
    ensures var n := TurnLength(e, w.receiver, w.inbox, MAX_FRAMES_PER_TURN);
      Follows(e, w, Hears(w.inbox[..n]), Acted(e, w, Receive)) && Acted(e, w, Receive).inbox == w.inbox[n..]
  {
    var n := TurnLength(e, w.receiver, w.inbox, MAX_FRAMES_PER_TURN);
    hide Playout.Inv, Turn, TurnLength, Live, Fragments.Received, Hears, Playout.Run;
    TurnHearsAPrefix(e, w.receiver, w.inbox, MAX_FRAMES_PER_TURN);
    HeardIsLive(e, w.receiver, w.inbox[..n]);
    HearsOnlyPush(e, w.receiver.assembly, w.inbox[..n]);
    Playout.OnlyPushesPlayNothing(Ring(e), w.receiver.playout, Live(e, w.receiver.assembly, Hears(w.inbox[..n])));
    assert w.played + [] == w.played;
  }

  lemma DeviceFollows(e: Setup, w: World, op: Op)
    requires Working(e, w)
    ensures Follows(e, w, [Play(op)], Acted(e, w, Device(op)))
  {
    hide Playout.Inv, Playout.Apply;
    var events, ops := [Play(op)], [op];
    assert events[1..] == [] && ops[1..] == [];
    assert Live(e, w.receiver.assembly, events) == ops;
    assert HeardMessages(events) == [];
    var (p, out) := Playout.Apply(Ring(e), w.receiver.playout, op);
    assert Playout.Run(Ring(e), p, []) == (p, []);
    if out.Some? {
      assert [out.value] + [] == [out.value];
    }
  }

  lemma FollowsOn(e: Setup, w: World, a: seq<Event>, u: World, b: seq<Event>, v: World)
    requires Working(e, w) && Working(e, u) && Follows(e, w, a, u) && Follows(e, u, b, v)
    ensures Follows(e, w, a + b, v)
  {
    hide Playout.Inv, Live, Fragments.Received, Playout.Run, HeardMessages;
    LiveAppend(e, w.receiver.assembly, a, b);
    Fragments.ReceivedAppend(w.receiver.assembly, HeardMessages(a), HeardMessages(b));
    Playout.RunAppend(Ring(e), w.receiver.playout, Live(e, w.receiver.assembly, a), Live(e, u.receiver.assembly, b));
  }

  lemma NothingFollows(e: Setup, w: World)
    requires Working(e, w)
    ensures Follows(e, w, [], w)
  {
    assert w.played + [] == w.played;
  }

  /** The events of an act lead from one world to the next, and take their messages off the inbox. */
  ghost predicate Leads(e: Setup, w: World, act: Act, first: seq<Event>, u: World)
    requires Working(e, w)
  {
    && Follows(e, w, first, u) && OnlyPlaying(first)
    && HeardMessages(first) + u.inbox == w.inbox + (if act.Arrive? then act.messages else [])
  }

  lemma ArriveLeads(e: Setup, w: World, messages: seq<seq<byte>>)
    requires Working(e, w)
    ensures Leads(e, w, Arrive(messages), [], Acted(e, w, Arrive(messages)))
  {
    hide Working, Follows;
    NothingFollows(e, w);
    ArriveFollows(e, w, messages);
    assert [] + (w.inbox + messages) == w.inbox + messages;
  }

  lemma ReceiveLeads(e: Setup, w: World)
    requires Working(e, w)
    ensures Leads(e, w, Receive, EventsOfOne(e, w, Receive), Acted(e, w, Receive))
  {
    hide Working, Follows, Turn, TurnLength;
    var n := TurnLength(e, w.receiver, w.inbox, MAX_FRAMES_PER_TURN);
    ReceiveFollows(e, w);
    HearsOnlyPush(e, w.receiver.assembly, w.inbox[..n]);
    hide Live;
    assert w.inbox[..n] + w.inbox[n..] == w.inbox + [];
  }

  lemma DeviceLeads(e: Setup, w: World, op: Op)
    requires Working(e, w) && !op.PushOp?
    ensures Leads(e, w, Device(op), [Play(op)], Acted(e, w, Device(op)))
  {
    hide Working, Follows;
    DeviceFollows(e, w, op);
    NothingHeardPlaying(op);
    assert [] + w.inbox == w.inbox + [];
  }

  /** One act: its events run on the buffer, and the messages they take off the inbox. */
  lemma ActFollows(e: Setup, w: World, act: Act)
    requires Working(e, w) && (act.Device? ==> !act.op.PushOp?)
    ensures Leads(e, w, act, EventsOfOne(e, w, act), Acted(e, w, act))
  {
    EventsByAct(e, w, act);
    hide *;
    match act {
      case Arrive(messages) => ArriveLeads(e, w, messages);
      case Receive => ReceiveLeads(e, w);
      case Device(op) => DeviceLeads(e, w, op);
    }
  }

  lemma EventsByAct(e: Setup, w: World, act: Act)
    ensures act.Arrive? ==> EventsOfOne(e, w, act) == []
    ensures act.Device? ==> EventsOfOne(e, w, act) == [Play(act.op)]
  {
  }

  lemma NothingHeardPlaying(op: Op)
    ensures HeardMessages([Play(op)]) == []
  {
    var events := [Play(op)];
    assert events[1..] == [];
  }

  lemma ArriveFollows(e: Setup, w: World, messages: seq<seq<byte>>)
    requires Working(e, w) && Follows(e, w, [], w)
    ensures Follows(e, w, [], Acted(e, w, Arrive(messages)))
  {
    hide Playout.Inv, Live, Fragments.Received, Playout.Run;
  }

  /** A whole life of the receiver is one run of events, and what still waits is the rest of what arrived. */
  lemma {:induction false} LivedIsLive(e: Setup, w: World, acts: seq<Act>)
    requires Working(e, w) && DevicePlays(acts)
    ensures var (events, u) := (EventsOf(e, w, acts), Lived(e, w, acts));
      && Follows(e, w, events, u) && HeardMessages(events) + u.inbox == w.inbox + Arrived(acts)
      && OnlyPlaying(events)
    decreases |acts|
  {
    hide Acted, Working, Follows, Live;
    if acts == [] {
      NothingFollows(e, w);
      assert [] + w.inbox == w.inbox + [];
    } else {
      var t := Acted(e, w, acts[0]);
      var u := Lived(e, w, acts);
      LivedIsLive(e, t, acts[1..]);
      ActFollows(e, w, acts[0]);
      var first, rest := EventsOfOne(e, w, acts[0]), EventsOf(e, t, acts[1..]);
      FollowsOn(e, w, first, t, rest, u);
      LiveAppend(e, w.receiver.assembly, first, rest);
      Regrouped(HeardMessages(first), HeardMessages(rest), u.inbox, t.inbox, w.inbox,
                if acts[0].Arrive? then acts[0].messages else [], Arrived(acts[1..]));
    }
  }

  lemma Regrouped<T>(a: seq<T>, b: seq<T>, c: seq<T>, d: seq<T>, x: seq<T>, y: seq<T>, z: seq<T>)
    requires b + c == d + z && a + d == x + y
    ensures a + b + c == x + (y + z)
  {
    assert a + b + c == a + (b + c);
    assert a + (d + z) == a + d + z;
    assert x + y + z == x + (y + z);
  }

  lemma HearingRest(e: Setup, w: World, events: seq<Event>, rest: seq<seq<byte>>)
    requires Working(e, w) && OnlyPlaying(events)
    ensures OnlyPlaying(events + Hears(rest)) && HeardMessages(events + Hears(rest)) == HeardMessages(events) + rest
    ensures var a, p := w.receiver.assembly, w.receiver.playout;
      Playout.Run(Ring(e), p, Live(e, a, events)).1 <= Playout.Run(Ring(e), p, Live(e, a, events + Hears(rest))).1
  {
    var a, p := w.receiver.assembly, w.receiver.playout;
    HearsOnlyPush(e, a, rest);
    hide Live, Playout.Run, HeardMessages, Playout.Inv, Fragments.Received;
    LiveAppend(e, a, events, Hears(rest));
    var t := Fragments.Received(a, HeardMessages(events)).0;
    Playout.RunAppend(Ring(e), p, Live(e, a, events), Live(e, t, Hears(rest)));
  }

  /** A receiver that has held nothing yet, inside the frame `a` says, if any. */
  function Began(a: Fragments.Assembly): World {
    World(Receiver(a, Playout.Empty(), 0, 0), [], [])
  }

  /** Periods sent one after another, and messages of theirs that get through to a receiver inside none of them. */
  ghost predicate Course(e: Setup, s: Sender, periods: seq<seq<Sample>>, arrives: seq<seq<bool>>,
                         a: Fragments.Assembly, arrived: seq<seq<byte>>) {
    && Ready(e) && AllPeriods(e, periods) && Masks(e, periods, arrives)
    && |periods| <= SEQUENCES && s.position + |periods| * e.fmt.periodFrames <= POSITIONS
    && Fragments.Midway(a) && Fragments.HoldsNone(a, SentFrames(e, s, periods))
    && (SentFramesMasked(e, s, periods, arrives);
        arrived <= Fragments.Arrivals(SentFrames(e, s, periods), arrives))
  }

  lemma CourseTransfers(e: Setup, s: Sender, periods: seq<seq<Sample>>, arrives: seq<seq<bool>>,
                        a: Fragments.Assembly, arrived: seq<seq<byte>>, events: seq<Event>)
    returns (rest: seq<seq<byte>>)
    requires Course(e, s, periods, arrives, a, arrived) && OnlyPlaying(events) && HeardMessages(events) <= arrived
    ensures Transfer(e, s, periods, arrives, a, events + Hears(rest))
  {
    hide Ready, Masks, AllPeriods, Fragments.HoldsNone, SentFrames, Fragments.Arrivals, HeardMessages, Live;
    SentFramesMasked(e, s, periods, arrives);
    var through := Fragments.Arrivals(SentFrames(e, s, periods), arrives);
    rest := through[|HeardMessages(events)|..];
    LiveAppend(e, a, events, Hears(rest));
    HearsOnlyPush(e, a, rest);
    assert HeardMessages(events) + rest == through;
    hide OnlyPlaying;
    assert OnlyPlaying(events + Hears(rest)) by { StillOnlyPlaying(events, rest); }
  }

  lemma StillOnlyPlaying(events: seq<Event>, rest: seq<seq<byte>>)
    requires OnlyPlaying(events)
    ensures OnlyPlaying(events + Hears(rest))
  {
  }

  lemma BeganWorks(e: Setup, s: Sender, periods: seq<seq<Sample>>, arrives: seq<seq<bool>>,
                   a: Fragments.Assembly, arrived: seq<seq<byte>>)
    requires Course(e, s, periods, arrives, a, arrived)
    ensures Working(e, Began(a)) && |periods| == |arrives|
  {
    ReadyPeriod(e);
  }

  /**
   * The whole path over the engine's own steps: whatever the receive turns, the takes and the
   * discards, and however the messages that get through come in between, everything played is
   * a period captured at that position, octet for octet, in increasing order of position.
   */
  lemma LivedAsCaptured(e: Setup, s: Sender, periods: seq<seq<Sample>>, arrives: seq<seq<bool>>,
                        a: Fragments.Assembly, acts: seq<Act>)
    requires Course(e, s, periods, arrives, a, Arrived(acts)) && DevicePlays(acts)
    ensures Working(e, Began(a)) && |periods| == |arrives|
    ensures var played := Lived(e, Began(a), acts).played;
      && Playout.Increasing(played)
      && forall k :: 0 <= k < |played| ==> AsCaptured(e, s, periods, arrives, played[k])
  {
    hide Course, Lived, EventsOf, Live, Playout.Run, AsCaptured, Transfer, Arrived, HeardMessages, Hears, Playout.Inv;
    BeganWorks(e, s, periods, arrives, a, Arrived(acts));
    var w := Began(a);
    var events, u := EventsOf(e, w, acts), Lived(e, w, acts);
    LivedIsLive(e, w, acts);
    assert [] + Arrived(acts) == Arrived(acts);
    var rest := CourseTransfers(e, s, periods, arrives, a, Arrived(acts), events);
    HearingRest(e, w, events, rest);
    PlayedAsCaptured(e, s, periods, arrives, a, events + Hears(rest));
    assert [] + Playout.Run(Ring(e), w.receiver.playout, Live(e, a, events)).1
        == Playout.Run(Ring(e), w.receiver.playout, Live(e, a, events)).1;
  }

  /** The pushes for the frames completed by then. */
  ghost function HandedBy(e: Setup, a: Fragments.Assembly, acts: seq<Act>): seq<Op>
    requires Working(e, Began(a))
  {
    Handed(e, Fragments.Received(a, HeardMessages(EventsOf(e, Began(a), acts))).1)
  }

  /** Nothing late, nothing refused; every frame handed over is played, dropped, held, or skipped while held. */
  ghost predicate Accounted(e: Setup, w: World, handed: nat) {
    var (g, p) := (Ring(e), w.receiver.playout);
    && p.late == 0 && p.refused == 0 && p.played == Playout.Frames(g, |w.played|)
    && (e.slots > 0 ==>
          Playout.Frames(g, handed) == p.played + p.dropped + Playout.Frames(g, |p.held|) + p.skipped)
  }

  lemma HandsAPrefix(e: Setup, s: Sender, periods: seq<seq<Sample>>, arrives: seq<seq<bool>>,
                     a: Fragments.Assembly, events: seq<Event>, rest: seq<seq<byte>>)
    requires Transfer(e, s, periods, arrives, a, events + Hears(rest)) && OnlyPlaying(events)
    ensures |periods| == |arrives|
    ensures Pushes(Live(e, a, events)) == Handed(e, Fragments.Received(a, HeardMessages(events)).1)
    ensures Pushes(Live(e, a, events)) <= Whole(e, s, periods, arrives, 0)
    ensures rest == [] ==> Pushes(Live(e, a, events)) == Whole(e, s, periods, arrives, 0)
  {
    hide Transfer, Live, Handed, Whole, Fragments.Received, Pushes;
    HandedExactly(e, s, periods, arrives, a, events + Hears(rest));
    LiveHands(e, a, events);
    LiveAppend(e, a, events, Hears(rest));
    PushesAppend(Live(e, a, events), Live(e, Fragments.Received(a, HeardMessages(events)).0, Hears(rest)));
    if rest == [] {
      assert events + Hears(rest) == events;
    }
  }

  lemma {:induction false} PushesAppend(a: seq<Op>, b: seq<Op>)
    ensures Pushes(a + b) == Pushes(a) + Pushes(b)
    decreases |a|
  {
    if a == [] {
      assert a + b == b;
    } else {
      assert (a + b)[0] == a[0] && (a + b)[1..] == a[1..] + b;
      PushesAppend(a[1..], b);
    }
  }

  lemma AscendsAccounted(e: Setup, ops: seq<Op>)
    requires e.fmt.periodFrames > 0 && PushesAscend(Ring(e), Pushes(ops), 0)
    ensures var (p, out) := Playout.Run(Ring(e), Playout.Empty(), ops);
      && p.late == 0 && p.refused == 0 && p.played == Playout.Frames(Ring(e), |out|)
      && (e.slots > 0 ==> Playout.Frames(Ring(e), |Pushes(ops)|)
                          == p.played + p.dropped + Playout.Frames(Ring(e), |p.held|) + p.skipped)
  {
    var g := Ring(e);
    var empty: Playout.Playout<seq<byte>> := Playout.Empty();
    AscendingByPushes(g, ops, 0);
    Playout.PlayedIsCounted(g, empty, ops);
    Playout.InOrderIsNeverLate(g, empty, ops, 0);
    if e.slots > 0 {
      Playout.LedgerBalances(g, empty, ops);
    }
  }

  lemma AscendsBefore(g: Playout.Geometry, some: seq<Op>, all: seq<Op>, from: nat)
    requires some <= all && PushesAscend(g, all, from)
    ensures PushesAscend(g, some, from)
  {
    hide Playout.Usable;
    assert forall k :: 0 <= k < |some| ==> some[k] == all[k];
  }

  /**
   * Nothing a sender sent in order comes too late, whatever was lost and whatever the takes
   * have crossed: each period that arrives whole is handed over, none is late or refused, and
   * each is played, dropped, still held, or skipped while held.
   */
  lemma InOrderIsAccounted(e: Setup, s: Sender, periods: seq<seq<Sample>>, arrives: seq<seq<bool>>,
                           a: Fragments.Assembly, acts: seq<Act>)
    requires Course(e, s, periods, arrives, a, Arrived(acts)) && DevicePlays(acts)
    requires s.position % e.fmt.periodFrames == 0
    ensures Working(e, Began(a)) && |periods| == |arrives|
    ensures var (u, handed) := (Lived(e, Began(a), acts), HandedBy(e, a, acts));
      && Accounted(e, u, |handed|) && handed <= Whole(e, s, periods, arrives, 0)
      && (u.inbox == [] && CourseOver(e, s, periods, arrives, acts) ==> handed == Whole(e, s, periods, arrives, 0))
  {
    BeganWorks(e, s, periods, arrives, a, Arrived(acts));
    var w := Began(a);
    var events := EventsOf(e, w, acts);
    CourseReady(e, s, periods, arrives, a, Arrived(acts));
    hide Course, Lived, EventsOf, Live, Playout.Run, Transfer, Arrived, HeardMessages, Hears, Playout.Inv, Ready;
    hide Pushes, Whole, PushesAscend, Handed, Fragments.Received, CourseOver, Working;
    LivedIsLive(e, w, acts);
    assert [] + Arrived(acts) == Arrived(acts);
    var rest := CourseTransfers(e, s, periods, arrives, a, Arrived(acts), events);
    HandsAPrefix(e, s, periods, arrives, a, events, rest);
    WholeAscends(e, s, periods, arrives);
    AscendsBefore(Ring(e), Pushes(Live(e, a, events)), Whole(e, s, periods, arrives, 0), 0);
    AscendsAccounted(e, Live(e, a, events));
    var out := Playout.Run(Ring(e), w.receiver.playout, Live(e, a, events)).1;
    assert [] + out == out;
    if Lived(e, w, acts).inbox == [] && CourseOver(e, s, periods, arrives, acts) {
      assert HeardMessages(events) + [] == HeardMessages(events);
      NothingRests(e, s, periods, arrives, a, acts, events, rest);
    }
  }

  /** All that gets through has arrived. */
  ghost predicate CourseOver(e: Setup, s: Sender, periods: seq<seq<Sample>>, arrives: seq<seq<bool>>, acts: seq<Act>)
  {
    && AllPeriods(e, periods) && Fragments.Masked(SentFrames(e, s, periods), arrives)
    && Arrived(acts) == Fragments.Arrivals(SentFrames(e, s, periods), arrives)
  }

  lemma CourseReady(e: Setup, s: Sender, periods: seq<seq<Sample>>, arrives: seq<seq<bool>>,
                    a: Fragments.Assembly, arrived: seq<seq<byte>>)
    requires Course(e, s, periods, arrives, a, arrived)
    ensures Ready(e) && e.fmt.periodFrames > 0
  {
    ReadyPeriod(e);
  }

  lemma NothingRests(e: Setup, s: Sender, periods: seq<seq<Sample>>, arrives: seq<seq<bool>>,
                     a: Fragments.Assembly, acts: seq<Act>, events: seq<Event>, rest: seq<seq<byte>>)
    requires Transfer(e, s, periods, arrives, a, events + Hears(rest)) && CourseOver(e, s, periods, arrives, acts)
    requires HeardMessages(events) == Arrived(acts)
    ensures rest == []
  {
    hide Ready, SentFrames, Fragments.Arrivals, Hears;
    LiveAppend(e, a, events, Hears(rest));
    HearsOnlyPush(e, a, rest);
    assert |HeardMessages(events) + rest| == |HeardMessages(events)|;
  }

  /** What the steps put on the link, some of it lost, and no more than that so far. */
  ghost predicate Through(e: Setup, s: Sender, periods: seq<seq<Sample>>, accepts: seq<nat>, keep: seq<bool>,
                          arrived: seq<seq<byte>>) {
    && |periods| == |accepts| && AllOfSize(e.fmt, periods)
    && |keep| == |Transmitted(e, s, periods, accepts).1|
    && arrived <= Fragments.Kept(Transmitted(e, s, periods, accepts).1, keep)
  }

  /**
   * From capture to playback: the transmit loop sends the periods, the link keeps any of its
   * messages in order, and a receiver that starts fresh lives on what has got through so far.
   * What it plays was captured, octet for octet, at that position, in increasing order.
   */
  lemma CapturedToPlayed(e: Setup, s: Sender, periods: seq<seq<Sample>>, accepts: seq<nat>, keep: seq<bool>,
                         acts: seq<Act>)
    requires Ready(e) && AllPeriods(e, periods) && |accepts| == |periods| <= SEQUENCES
    requires s.position + |periods| * e.fmt.periodFrames <= POSITIONS
    requires forall i :: 0 <= i < |accepts| ==> accepts[i] >= Fragments.MAX_FRAGMENTS
    requires Through(e, s, periods, accepts, keep, Arrived(acts)) && DevicePlays(acts)
    ensures var arrives := PerFrame(SentFrames(e, s, periods), keep);
      && |arrives| == |periods| && Working(e, Began(Fragments.FRESH))
      && var played := Lived(e, Began(Fragments.FRESH), acts).played;
         Playout.Increasing(played) && forall k :: 0 <= k < |played| ==> AsCaptured(e, s, periods, arrives, played[k])
  {
    hide SentFrames, FrameBytes, Ready, After, Transmitted, Lived, AsCaptured, Arrived, Working, OnWire, PerFrame,
         AllPeriods, AllOfSize, Fragments.Arrivals, Fragments.Kept;
    TransmittedIsOnWire(e, s, periods, accepts);
    var frames := SentFrames(e, s, periods);
    ReadyFits(e);
    SentFrameFacts(e, s, periods);
    EveryLossIsMasked(frames, keep);
    LivedAsCaptured(e, s, periods, PerFrame(frames, keep), Fragments.FRESH, acts);
  }
}
