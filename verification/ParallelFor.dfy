/**
 * The worker pool as threads that interleave: a step is one lock region or one access to a
 * shared variable, and the caller's five writes that start a run are five steps, because
 * the workers read three of those variables without the lock.
 *
 * A worker that wakes after its run returned takes an index from the old counter and
 * compares it with whatever count is there by then. What that needs of the caller is exact:
 * a run may have at most one job more than the pooled run before it.
 */
module ParallelFor {
  import opened Bytes

  /** Where a thread is; the caller is thread 0. Compare, Call, Exec and Dec hold an index. */
  datatype Pc =
    | Idle | SetJob | SetCount | SetNext | SetRemaining | SetGeneration | NotifyWork
    | Wait | Asleep
    | Checking | Parked | Leave
    | Fetch | Compare(index: nat) | Call(index: nat) | Exec(index: nat, job: Option<nat>) | Dec(index: nat)

  datatype Thread = Thread(pc: Pc, seen: nat)

  /**
   * `asked` is the count the caller was given and `run` numbers its calls; a job is known by
   * the number of its call. The last three fields are history: how often each index has
   * been run, the indexes accounted for, and who holds the others.
   */
  datatype State = State(
    threads: seq<Thread>, job: Option<nat>, count: nat, next: nat, remaining: int, active: int,
    generation: nat, asked: nat, run: nat,
    ran: multiset<nat>, finished: set<nat>, holder: map<nat, nat>)

  datatype Action =
    | Begin(count: nat)
    | Restart(workers: nat)
    | Move(thread: nat)
    | Wake(thread: nat)

  function Started(): State {
    State([Thread(Idle, 0)], None, 0, 0, 0, 0, 0, 0, 0, multiset{}, {}, map[])
  }

  // ---------------------------------------------------------------------------
  // The steps.

  predicate CallerPc(pc: Pc) {
    !pc.Checking? && !pc.Parked? && !pc.Leave? && !pc.Call?
  }

  predicate WorkerPc(pc: Pc) {
    pc.Checking? || pc.Parked? || InLoop(pc)
  }

  predicate InLoop(pc: Pc) {
    pc.Fetch? || pc.Compare? || pc.Call? || pc.Exec? || pc.Dec? || pc.Leave?
  }

  predicate Holds(pc: Pc) {
    pc.Compare? || pc.Call? || pc.Exec? || pc.Dec?
  }

  /** The mutex is held across steps only while the caller sets up a run. */
  predicate Locked(s: State)
    requires s.threads != []
  {
    var pc := s.threads[0].pc;
    pc.SetCount? || pc.SetNext? || pc.SetRemaining? || pc.SetGeneration?
  }

  predicate Enabled(s: State, a: Action)
    requires s.threads != []
  {
    match a
    case Begin(_) => s.threads[0].pc.Idle?
    case Restart(_) => s.threads[0].pc.Idle? && s.active == 0
    case Move(t) =>
      && t < |s.threads|
      && var pc := s.threads[t].pc;
         && !pc.Idle? && !pc.Asleep? && !pc.Parked?
         && (t > 0 && (pc.Checking? || pc.Dec? || pc.Leave?) ==> !Locked(s))
    case Wake(t) => t < |s.threads| && (s.threads[t].pc.Asleep? || s.threads[t].pc.Parked?)
  }

  function Goto(s: State, t: nat, pc: Pc): State
    requires t < |s.threads|
  {
    s.(threads := s.threads[t := s.threads[t].(pc := pc)])
  }

  /** done_cv_ wakes the caller, if it sleeps. */
  function NotifyDone(s: State): State
    requires s.threads != []
  {
    if s.threads[0].pc.Asleep? then Goto(s, 0, Wait) else s
  }

  function Awake(x: Thread): Thread {
    if x.pc.Parked? then x.(pc := Checking) else x
  }

  /** work_cv_ wakes every parked worker. */
  function NotifyWorkers(s: State): State {
    s.(threads := seq(|s.threads|, t requires 0 <= t < |s.threads| => Awake(s.threads[t])))
  }

  /** Each index below `n`, once. */
  function OnceEach(n: nat): (m: multiset<nat>)
    ensures forall i: nat :: m[i] == if i < n then 1 else 0
  {
    if n == 0 then multiset{} else OnceEach(n - 1) + multiset{n - 1}
  }

  /** A call of run: none and one are run inline, and so is everything without workers. */
  function Called(s: State, count: nat): State
    requires s.threads != []
  {
    var t := s.(asked := count, run := s.run + 1);
    if |s.threads| == 1 || count <= 1 then t.(ran := OnceEach(count))
    else Goto(t, 0, SetJob).(ran := multiset{}, finished := {}, holder := map[])
  }

  /** stop joins workers that have left their loops; start makes new ones that have seen nothing. */
  function Restarted(s: State, workers: nat): State
    requires s.threads != []
  {
    s.(threads := [s.threads[0]] + if workers <= 1 then [] else seq(workers, i => Thread(Checking, 0)))
  }

  function Fetched(s: State, t: nat): State
    requires t < |s.threads|
  {
    Goto(s, t, Compare(s.next)).(next := s.next + 1,
      holder := if s.next < s.count then s.holder[s.next := t] else s.holder)
  }

  function Compared(s: State, t: nat, index: nat): State
    requires t < |s.threads|
  {
    if index < s.count then Goto(s, t, if t == 0 then Exec(index, Some(s.run)) else Call(index))
    else Goto(s, t, if t == 0 then Wait else Leave)
  }

  /** The decrement, before anybody is notified. */
  function Reported(s: State, t: nat, index: nat): State
    requires t < |s.threads|
  {
    Goto(s, t, Fetch).(remaining := s.remaining - 1, finished := s.finished + {index}, holder := s.holder - {index})
  }

  function Decremented(s: State, t: nat, index: nat): State
    requires t < |s.threads|
  {
    var u := Reported(s, t, index);
    if u.remaining == 0 then NotifyDone(u) else u
  }

  function Left(s: State, t: nat): State
    requires t < |s.threads|
  {
    var u := Goto(s, t, Checking).(active := s.active - 1);
    if u.active == 0 then NotifyDone(u) else u
  }

  function Checked(s: State, t: nat): State
    requires t < |s.threads|
  {
    if s.generation != s.threads[t].seen then
      s.(threads := s.threads[t := Thread(Fetch, s.generation)], active := s.active + 1)
    else Goto(s, t, Parked)
  }

  function Moved(s: State, t: nat): State
    requires s.threads != [] && Enabled(s, Move(t))
  {
    match s.threads[t].pc
    case SetJob => Goto(s, t, SetCount).(job := Some(s.run))
    case SetCount => Goto(s, t, SetNext).(count := s.asked)
    case SetNext => Goto(s, t, SetRemaining).(next := 0)
    case SetRemaining => Goto(s, t, SetGeneration).(remaining := s.asked)
    case SetGeneration => Goto(s, t, NotifyWork).(generation := s.generation + 1)
    case NotifyWork => NotifyWorkers(Goto(s, t, Fetch))
    case Fetch => Fetched(s, t)
    case Compare(index) => Compared(s, t, index)
    case Call(index) => Goto(s, t, Exec(index, s.job))
    case Exec(index, _) => Goto(s, t, Dec(index)).(ran := s.ran + multiset{index})
    case Dec(index) => Decremented(s, t, index)
    case Leave => Left(s, t)
    case Wait =>
      if s.remaining == 0 && s.active == 0 then Goto(s, t, Idle).(job := None) else Goto(s, t, Asleep)
    case Checking => Checked(s, t)
    case _ => s
  }

  function Step(s: State, a: Action): State
    requires s.threads != [] && Enabled(s, a)
  {
    match a
    case Begin(count) => Called(s, count)
    case Restart(workers) => Restarted(s, workers)
    case Move(t) => Moved(s, t)
    case Wake(t) => Goto(s, t, if t == 0 then Wait else Checking)
  }

  // ---------------------------------------------------------------------------
  // The invariant.

  function LoopSet(s: State): set<nat> {
    set t: nat | 0 < t < |s.threads| && InLoop(s.threads[t].pc)
  }

  ghost predicate Shape(s: State) {
    && s.threads != [] && CallerPc(s.threads[0].pc)
    && (forall t :: 0 < t < |s.threads| ==> WorkerPc(s.threads[t].pc))
    && s.active == |LoopSet(s)|
    && (s.generation == 0 ==> forall t :: 0 < t < |s.threads| ==> !InLoop(s.threads[t].pc) && s.threads[t].seen == 0)
  }

  /** Between runs, and until the counter is reset for the next. */
  predicate Closed(s: State)
    requires s.threads != []
  {
    var pc := s.threads[0].pc;
    pc.Idle? || pc.SetJob? || pc.SetCount? || pc.SetNext?
  }

  /** No worker is at work, and no index a worker holds or can take is one to run. */
  ghost predicate WorkersHarmless(s: State, floor: nat) {
    && (forall t :: 0 < t < |s.threads| ==>
          var pc := s.threads[t].pc;
          !pc.Call? && !pc.Exec? && !pc.Dec? && (pc.Compare? ==> pc.index >= floor))
    && (s.generation > 0 ==> s.next >= floor)
  }

  ghost predicate ClosedInv(s: State)
    requires s.threads != []
  {
    var pc := s.threads[0].pc;
    && WorkersHarmless(s, if pc.SetNext? then s.count else s.count + 1)
    && (pc.Idle? ==> s.job == None && s.ran == OnceEach(s.asked))
    && (pc.SetJob? || pc.SetCount? ==> s.generation > 0 ==> s.asked <= s.count + 1)
    && (pc.SetNext? ==> s.count == s.asked)
    && (pc.SetCount? || pc.SetNext? ==> s.job == Some(s.run))
    && (!pc.Idle? ==> s.ran == multiset{} && s.finished == {} && s.holder == map[])
  }

  /** Every index taken is finished or held, by one thread, and no thread holds another. */
  ghost predicate Shared(s: State) {
    && (forall t :: 0 <= t < |s.threads| && Holds(s.threads[t].pc) && s.threads[t].pc.index < s.count ==>
          s.threads[t].pc.index in s.holder && s.holder[s.threads[t].pc.index] == t)
    && (forall i :: i in s.holder ==>
          && i < s.count && i < s.next && i !in s.finished && s.holder[i] < |s.threads|
          && Holds(s.threads[s.holder[i]].pc) && s.threads[s.holder[i]].pc.index == i)
    && (forall i :: 0 <= i < s.count && i < s.next ==> i in s.finished || i in s.holder)
    && (forall i :: i in s.finished ==> i < s.count && i < s.next)
  }

  /** A thread past its comparison holds an index to run, and runs this call's job. */
  ghost predicate AtWork(s: State) {
    && (forall t :: 0 <= t < |s.threads| ==>
          var pc := s.threads[t].pc;
          (pc.Call? || pc.Exec? || pc.Dec? ==> pc.index < s.count) && (pc.Exec? ==> pc.job == Some(s.run)))
  }

  /** Run so far: what is finished, and what its holder is about to report. */
  ghost predicate RanOnce(s: State)
    requires Shared(s)
  {
    forall i: nat :: s.ran[i] ==
      if i in s.finished || (i in s.holder && s.threads[s.holder[i]].pc.Dec?) then 1 else 0
  }

  ghost predicate OpenCounts(s: State)
    requires s.threads != []
  {
    var pc := s.threads[0].pc;
    && s.count == s.asked && s.job == Some(s.run)
    && (if pc.SetRemaining? then s.finished == {} else s.remaining == s.count - |s.finished|)
    && (pc.Compare? ==> pc.index < s.next)
    && (pc.Wait? || pc.Asleep? ==> s.next >= s.count + 1)
    && (pc.Asleep? ==> s.remaining != 0 || s.active != 0)
    && (!pc.SetRemaining? && !pc.SetGeneration? ==> s.generation > 0)
  }

  /** From the reset of the counter until the caller returns. */
  ghost predicate OpenInv(s: State)
    requires s.threads != []
  {
    OpenCounts(s) && Shared(s) && AtWork(s) && RanOnce(s)
  }

  ghost predicate Inv(s: State) {
    Shape(s) && if Closed(s) then ClosedInv(s) else OpenInv(s)
  }

  /** A pooled call has at most one job more than the pooled call before it. */
  predicate Tame(s: State, a: Action) {
    a.Begin? && |s.threads| > 1 && a.count > 1 && s.generation > 0 ==> a.count <= s.count + 1
  }

  lemma StartedInv()
    ensures Inv(Started())
  {
    assert OnceEach(0) == multiset{};
    assert LoopSet(Started()) == {};
  }

  // ---------------------------------------------------------------------------
  // Every step keeps it. First what a change to one thread keeps.

  lemma LoopSame(s: State, u: State)
    requires |s.threads| == |u.threads|
    requires forall t :: 0 < t < |s.threads| ==> (InLoop(s.threads[t].pc) <==> InLoop(u.threads[t].pc))
    ensures LoopSet(s) == LoopSet(u)
  {
  }

  lemma LoopEnters(s: State, u: State, w: nat)
    requires |s.threads| == |u.threads| && 0 < w < |s.threads|
    requires !InLoop(s.threads[w].pc) && InLoop(u.threads[w].pc)
    requires forall t :: 0 < t < |s.threads| && t != w ==> (InLoop(s.threads[t].pc) <==> InLoop(u.threads[t].pc))
    ensures |LoopSet(u)| == |LoopSet(s)| + 1
  {
    assert LoopSet(u) == LoopSet(s) + {w};
  }

  /** State `u` is `s` but for thread `t`. */
  predicate Differs(s: State, u: State, t: nat) {
    t < |s.threads| == |u.threads| && u.threads == s.threads[t := u.threads[t]]
  }

  lemma ShapeSame(s: State, u: State, t: nat)
    requires Shape(s) && Differs(s, u, t) && u.active == s.active && u.generation >= s.generation
    requires if t == 0 then CallerPc(u.threads[0].pc)
             else WorkerPc(u.threads[t].pc) && (InLoop(u.threads[t].pc) <==> InLoop(s.threads[t].pc))
                  && u.threads[t].seen == s.threads[t].seen
    ensures Shape(u)
  {
    hide LoopSet;
    LoopSame(s, u);
  }

  /** A thread that holds no index to run may go anywhere that holds none. */
  lemma SharedElsewhere(s: State, u: State, t: nat)
    requires Shared(s) && RanOnce(s) && Differs(s, u, t)
    requires u.count == s.count && u.next == s.next && u.holder == s.holder
    requires u.finished == s.finished && u.ran == s.ran
    requires Holds(s.threads[t].pc) ==> s.threads[t].pc.index >= s.count
    requires Holds(u.threads[t].pc) ==> u.threads[t].pc.index >= s.count
    ensures Shared(u) && RanOnce(u)
  {
  }

  /** A thread may carry the index it holds onward. */
  lemma SharedCarried(s: State, u: State, t: nat)
    requires Shared(s) && RanOnce(s) && Differs(s, u, t)
    requires u.count == s.count && u.next == s.next && u.holder == s.holder && u.finished == s.finished
    requires Holds(s.threads[t].pc) && Holds(u.threads[t].pc)
    requires s.threads[t].pc.index == u.threads[t].pc.index < s.count
    requires !s.threads[t].pc.Dec?
    requires u.ran == if u.threads[t].pc.Dec? then s.ran + multiset{u.threads[t].pc.index} else s.ran
    ensures Shared(u) && RanOnce(u)
  {
  }

  lemma AtWorkChanges(s: State, u: State, t: nat)
    requires AtWork(s) && Differs(s, u, t) && u.count == s.count && u.run == s.run
    requires var pc := u.threads[t].pc;
      (pc.Call? || pc.Exec? || pc.Dec? ==> pc.index < u.count) && (pc.Exec? ==> pc.job == Some(u.run))
    ensures AtWork(u)
  {
  }

  lemma HarmlessChanges(s: State, u: State, t: nat, floor: nat)
    requires WorkersHarmless(s, floor) && Differs(s, u, t) && u.next >= s.next
    requires u.generation > 0 ==> s.generation > 0
    requires t > 0 ==> var pc := u.threads[t].pc;
      !pc.Call? && !pc.Exec? && !pc.Dec? && (pc.Compare? ==> pc.index >= floor)
    ensures WorkersHarmless(u, floor)
  {
  }

  lemma ShapeOf(s: State, t: nat)
    requires Shape(s) && t < |s.threads|
    ensures if t == 0 then CallerPc(s.threads[t].pc) else WorkerPc(s.threads[t].pc)
  {
  }

  // Then the steps, one program counter at a time.

  lemma BeginKeeps(s: State, count: nat)
    requires Inv(s) && Enabled(s, Begin(count)) && Tame(s, Begin(count))
    ensures Inv(Called(s, count))
  {
    hide OnceEach, LoopSet;
    ShapeSame(s, Called(s, count), 0);
  }

  lemma RestartKeeps(s: State, workers: nat)
    requires Inv(s) && Enabled(s, Restart(workers))
    ensures Inv(Restarted(s, workers))
  {
    hide OnceEach;
    assert LoopSet(Restarted(s, workers)) == {};
  }

  lemma SetupKeeps(s: State)
    requires Inv(s) && Enabled(s, Move(0))
    requires var pc := s.threads[0].pc;
      pc.SetJob? || pc.SetCount? || pc.SetNext? || pc.SetRemaining? || pc.SetGeneration?
    ensures Inv(Moved(s, 0))
  {
    hide OnceEach, LoopSet, Shape;
    var u := Moved(s, 0);
    ShapeSame(s, u, 0);
    if Closed(u) {
      HarmlessSetup(s, u);
    } else if Closed(s) {
      CounterReset(s);
    } else {
      SharedElsewhere(s, u, 0);
      AtWorkChanges(s, u, 0);
      hide Shared, AtWork, RanOnce;
    }
  }

  /** The count may change while workers are harmless, within the floor. */
  lemma HarmlessSetup(s: State, u: State)
    requires Shape(s) && s.threads != [] && Closed(s) && ClosedInv(s) && Enabled(s, Move(0)) && u == Moved(s, 0)
    requires u.threads != [] && Closed(u)
    requires !s.threads[0].pc.Idle?
    ensures ClosedInv(u)
  {
    hide OnceEach, LoopSet;
    HarmlessChanges(s, u, 0, s.count + 1);
    if u.threads[0].pc.SetNext? {
      HarmlessBelow(u, s.count + 1, u.count);
    }
  }

  lemma HarmlessBelow(s: State, floor: nat, lower: nat)
    requires WorkersHarmless(s, floor)
    requires s.generation > 0 ==> lower <= floor
    requires s.generation == 0 ==> forall t :: 0 < t < |s.threads| ==> !InLoop(s.threads[t].pc)
    ensures WorkersHarmless(s, lower)
  {
  }

  /** With the counter at zero nothing is taken yet, and every index held is past the count. */
  lemma CounterReset(s: State)
    requires Inv(s) && s.threads[0].pc.SetNext?
    ensures OpenInv(Moved(s, 0))
  {
    hide OnceEach, LoopSet;
  }

  lemma NotifyKeeps(s: State)
    requires Inv(s) && Enabled(s, Move(0)) && s.threads[0].pc.NotifyWork?
    ensures Inv(Moved(s, 0))
  {
    hide OnceEach, LoopSet, Shared, RanOnce, AtWork;
    var v := Goto(s, 0, Fetch);
    ShapeSame(s, v, 0);
    NotifyShape(v);
    hide Shape;
    SharedElsewhere(s, v, 0);
    AtWorkChanges(s, v, 0);
    NotifyShares(v);
  }

  lemma NotifyShape(s: State)
    requires Shape(s)
    ensures Shape(NotifyWorkers(s))
  {
    hide LoopSet;
    LoopSame(s, NotifyWorkers(s));
  }

  lemma NotifyShares(s: State)
    requires Shared(s) && RanOnce(s) && AtWork(s)
    ensures Shared(NotifyWorkers(s)) && RanOnce(NotifyWorkers(s)) && AtWork(NotifyWorkers(s))
  {
  }

  lemma CheckingKeeps(s: State, t: nat)
    requires Inv(s) && 0 < t < |s.threads| && s.threads[t].pc.Checking? && Enabled(s, Move(t))
    ensures Inv(Moved(s, t))
  {
    hide OnceEach, LoopSet, Shared, RanOnce, AtWork, WorkersHarmless;
    var u := Moved(s, t);
    if s.generation != s.threads[t].seen {
      LoopEnters(s, u, t);
    } else {
      ShapeSame(s, u, t);
    }
    assert Shape(u);
    hide Shape;
    if Closed(s) {
      HarmlessChanges(s, u, t, if s.threads[0].pc.SetNext? then s.count else s.count + 1);
    } else {
      SharedElsewhere(s, u, t);
      AtWorkChanges(s, u, t);
    }
  }

  lemma FetchShares(s: State, t: nat)
    requires s.threads != [] && OpenInv(s) && t < |s.threads| && s.threads[t].pc.Fetch?
    ensures Shared(Fetched(s, t)) && RanOnce(Fetched(s, t))
  {
    hide AtWork, OpenCounts;
    assert s.next !in s.holder && s.next !in s.finished;
    assert forall i :: i in s.holder ==> s.holder[i] != t;
    assert Shared(Fetched(s, t));
  }

  lemma FetchKeeps(s: State, t: nat)
    requires Inv(s) && t < |s.threads| && s.threads[t].pc.Fetch?
    ensures Inv(Moved(s, t))
  {
    hide OnceEach, LoopSet, Shared, RanOnce, AtWork, WorkersHarmless;
    var u := Fetched(s, t);
    ShapeSame(s, u, t);
    if Closed(s) {
      FetchHarmless(s, t, if s.threads[0].pc.SetNext? then s.count else s.count + 1);
      hide Shape;
    } else {
      hide Shape;
      FetchShares(s, t);
      AtWorkChanges(s, u, t);
    }
  }

  lemma FetchHarmless(s: State, t: nat, floor: nat)
    requires Shape(s) && WorkersHarmless(s, floor) && 0 < t < |s.threads| && s.threads[t].pc.Fetch?
    ensures s.generation > 0 && s.next >= floor && WorkersHarmless(Fetched(s, t), floor)
  {
    hide LoopSet;
  }

  lemma CompareKeeps(s: State, t: nat)
    requires Inv(s) && t < |s.threads| && s.threads[t].pc.Compare?
    ensures Inv(Moved(s, t))
  {
    hide OnceEach, LoopSet, Shared, RanOnce, AtWork, WorkersHarmless;
    ShapeOf(s, t);
    var u, index := Moved(s, t), s.threads[t].pc.index;
    ShapeSame(s, u, t);
    hide Shape;
    if Closed(s) {
      var floor := if s.threads[0].pc.SetNext? then s.count else s.count + 1;
      assert index >= floor by { HarmlessIndex(s, t, floor); }
      HarmlessChanges(s, u, t, floor);
    } else {
      if index < s.count {
        SharedCarried(s, u, t);
      } else {
        SharedElsewhere(s, u, t);
      }
      AtWorkChanges(s, u, t);
    }
  }

  lemma HarmlessIndex(s: State, t: nat, floor: nat)
    requires WorkersHarmless(s, floor) && 0 < t < |s.threads|
    ensures var pc := s.threads[t].pc; !pc.Call? && !pc.Exec? && !pc.Dec? && (pc.Compare? ==> pc.index >= floor)
  {
  }

  lemma WorkIsOpen(s: State, t: nat)
    requires Inv(s) && t < |s.threads|
    requires var pc := s.threads[t].pc; pc.Call? || pc.Exec? || pc.Dec?
    ensures !Closed(s) && s.threads[t].pc.index < s.count
    ensures s.threads[t].pc.Exec? ==> s.threads[t].pc.job == Some(s.run)
    ensures s.job.Some?
  {
  }

  lemma CallKeeps(s: State, t: nat)
    requires Inv(s) && t < |s.threads| && s.threads[t].pc.Call?
    ensures Inv(Moved(s, t))
  {
    WorkIsOpen(s, t);
    hide OnceEach, LoopSet, Shared, RanOnce, AtWork, WorkersHarmless;
    ShapeOf(s, t);
    var u := Moved(s, t);
    ShapeSame(s, u, t);
    hide Shape;
    SharedCarried(s, u, t);
    AtWorkChanges(s, u, t);
  }

  lemma ExecKeeps(s: State, t: nat)
    requires Inv(s) && t < |s.threads| && s.threads[t].pc.Exec?
    ensures Inv(Moved(s, t))
  {
    WorkIsOpen(s, t);
    hide OnceEach, LoopSet, Shared, RanOnce, AtWork, WorkersHarmless;
    ShapeOf(s, t);
    var u := Moved(s, t);
    ShapeSame(s, u, t);
    hide Shape;
    SharedCarried(s, u, t);
    AtWorkChanges(s, u, t);
  }

  lemma DecShares(s: State, t: nat)
    requires s.threads != [] && OpenInv(s) && t < |s.threads| && s.threads[t].pc.Dec? && s.threads[t].pc.index < s.count
    ensures Shared(Reported(s, t, s.threads[t].pc.index)) && RanOnce(Reported(s, t, s.threads[t].pc.index))
  {
    hide AtWork, OpenCounts;
    var index := s.threads[t].pc.index;
    assert index in s.holder && s.holder[index] == t;
    assert forall i :: i in s.holder && i != index ==> s.holder[i] != t;
    assert Shared(Reported(s, t, index));
  }

  lemma NotifyDoneShares(s: State)
    requires s.threads != [] && Shared(s) && AtWork(s) && RanOnce(s) && Shape(s)
    ensures Shared(NotifyDone(s)) && AtWork(NotifyDone(s)) && RanOnce(NotifyDone(s)) && Shape(NotifyDone(s))
  {
    if s.threads[0].pc.Asleep? {
      hide Shared, AtWork, RanOnce, Shape;
      var u := Goto(s, 0, Wait);
      SharedElsewhere(s, u, 0);
      AtWorkChanges(s, u, 0);
      ShapeSame(s, u, 0);
    }
  }

  lemma DecReports(s: State, t: nat)
    requires Inv(s) && !Closed(s) && t < |s.threads| && s.threads[t].pc.Dec? && Enabled(s, Move(t))
    requires s.threads[t].pc.index < s.count
    ensures var u := Reported(s, t, s.threads[t].pc.index);
      && Shape(u) && Shared(u) && AtWork(u) && RanOnce(u)
      && |u.finished| == |s.finished| + 1 <= s.count
  {
    hide OnceEach, LoopSet, Shared, AtWork, RanOnce, WorkersHarmless, ClosedInv;
    var u := Reported(s, t, s.threads[t].pc.index);
    UnderWay(s, t);
    ShapeOf(s, t);
    ShapeSame(s, u, t);
    DecShares(s, t);
    AtWorkChanges(s, u, t);
  }

  lemma DecCounts(s: State, t: nat)
    requires s.threads != [] && !Closed(s) && OpenCounts(s) && t < |s.threads| && s.threads[t].pc.Dec?
    requires var pc := s.threads[0].pc; !pc.SetRemaining?
    requires |s.finished + {s.threads[t].pc.index}| == |s.finished| + 1
    ensures var u := Decremented(s, t, s.threads[t].pc.index); u.threads != [] && !Closed(u) && OpenCounts(u)
  {
  }

  lemma DecIsOpen(s: State, t: nat)
    requires Inv(s) && t < |s.threads| && s.threads[t].pc.Dec? && Enabled(s, Move(t))
    ensures !Closed(s) && OpenCounts(s) && s.threads[t].pc.index < s.count && !s.threads[0].pc.SetRemaining?
  {
    hide OnceEach, LoopSet, Shared, AtWork, RanOnce, WorkersHarmless;
    WorkIsOpen(s, t);
  }

  lemma DecMoves(s: State, t: nat)
    requires t < |s.threads| && s.threads[t].pc.Dec? && Enabled(s, Move(t))
    ensures var u := Reported(s, t, s.threads[t].pc.index);
      Moved(s, t) == Decremented(s, t, s.threads[t].pc.index) == if u.remaining == 0 then NotifyDone(u) else u
  {
  }

  lemma DecLeavesCounts(s: State, t: nat)
    requires Inv(s) && t < |s.threads| && s.threads[t].pc.Dec? && Enabled(s, Move(t))
    ensures s.remaining > 0
    ensures var u := Moved(s, t); u.threads != [] && !Closed(u) && OpenCounts(u)
  {
    DecIsOpen(s, t);
    DecReports(s, t);
    hide Inv, Shape, Shared, AtWork, RanOnce, Enabled, Moved, Decremented;
    DecCounts(s, t);
    DecMoves(s, t);
  }

  lemma DecLeavesShares(s: State, t: nat)
    requires Inv(s) && t < |s.threads| && s.threads[t].pc.Dec? && Enabled(s, Move(t))
    ensures var u := Moved(s, t); Shape(u) && Shared(u) && AtWork(u) && RanOnce(u)
  {
    hide Inv, Shape, Shared, AtWork, RanOnce, Enabled, OpenCounts, Closed, Moved, Decremented, NotifyDone;
    DecIsOpen(s, t);
    DecReports(s, t);
    NotifyDoneShares(Reported(s, t, s.threads[t].pc.index));
    DecMoves(s, t);
  }

  lemma DecKeeps(s: State, t: nat)
    requires Inv(s) && t < |s.threads| && s.threads[t].pc.Dec? && Enabled(s, Move(t))
    ensures s.remaining > 0
    ensures Inv(Moved(s, t))
  {
    hide *;
    DecLeavesCounts(s, t);
    DecLeavesShares(s, t);
    KeptOpen(Moved(s, t));
  }

  lemma KeptOpen(s: State)
    requires Shape(s) && s.threads != [] && !Closed(s) && OpenCounts(s) && Shared(s) && AtWork(s) && RanOnce(s)
    ensures Inv(s)
  {
  }

  lemma UnderWay(s: State, t: nat)
    requires s.threads != [] && Shared(s) && t < |s.threads| && s.threads[t].pc.Dec? && s.threads[t].pc.index < s.count
    ensures |s.finished| < s.count && |s.finished + {s.threads[t].pc.index}| == |s.finished| + 1
  {
    Unfinished(s.finished, s.count, s.threads[t].pc.index);
  }

  lemma Unfinished(finished: set<nat>, n: nat, index: nat)
    requires (forall i :: i in finished ==> i < n) && index < n && index !in finished
    ensures |finished| < n && |finished + {index}| == |finished| + 1
  {
    FinishedAll(finished, n);
  }

  lemma LeaveKeeps(s: State, t: nat)
    requires Inv(s) && 0 < t < |s.threads| && s.threads[t].pc.Leave? && Enabled(s, Move(t))
    ensures Inv(Moved(s, t))
  {
    hide OnceEach, LoopSet, Shared, RanOnce, AtWork, WorkersHarmless;
    var u := Goto(s, t, Checking).(active := s.active - 1);
    LoopEnters(u, s, t);
    assert Shape(u);
    hide Shape;
    if Closed(s) {
      HarmlessChanges(s, u, t, if s.threads[0].pc.SetNext? then s.count else s.count + 1);
    } else {
      SharedElsewhere(s, u, t);
      AtWorkChanges(s, u, t);
      NotifyDoneShares(u);
    }
  }

  lemma {:induction false} FinishedAll(finished: set<nat>, n: nat)
    requires forall i :: i in finished ==> i < n
    ensures |finished| <= n && (|finished| == n ==> forall i: nat :: i < n ==> i in finished)
    decreases n
  {
    if n == 0 {
      assert finished == {};
    } else {
      var rest := finished - {n - 1};
      FinishedAll(rest, n - 1);
      assert finished == if n - 1 in finished then rest + {n - 1} else rest;
    }
  }

  lemma NoneInLoop(s: State)
    requires |LoopSet(s)| == 0
    ensures forall t :: 0 < t < |s.threads| ==> !InLoop(s.threads[t].pc)
  {
    assert forall t: nat :: 0 < t < |s.threads| && InLoop(s.threads[t].pc) ==> t in LoopSet(s);
  }

  /** The caller returns only when every index has been run, once. */
  lemma WaitKeeps(s: State)
    requires Inv(s) && s.threads[0].pc.Wait?
    ensures Inv(Moved(s, 0))
    ensures Moved(s, 0).threads[0].pc.Idle? ==> Moved(s, 0).ran == OnceEach(s.asked)
  {
    hide LoopSet;
    var u := Moved(s, 0);
    ShapeSame(s, u, 0);
    if s.remaining == 0 && s.active == 0 {
      NoneInLoop(s);
      AllRan(s);
    } else {
      hide Shape, Shared, RanOnce, AtWork;
      SharedElsewhere(s, u, 0);
      AtWorkChanges(s, u, 0);
    }
  }

  lemma AllRan(s: State)
    requires s.threads != [] && OpenInv(s) && s.threads[0].pc.Wait? && s.remaining == 0
    ensures s.ran == OnceEach(s.asked)
  {
    hide AtWork;
    FinishedAll(s.finished, s.count);
    forall i: nat
      ensures s.ran[i] == OnceEach(s.asked)[i]
    {
    }
  }

  lemma WakeKeeps(s: State, t: nat)
    requires Inv(s) && Enabled(s, Wake(t))
    ensures Inv(Step(s, Wake(t)))
  {
    hide OnceEach, LoopSet, Shared, RanOnce, AtWork, WorkersHarmless;
    ShapeOf(s, t);
    var u := Step(s, Wake(t));
    ShapeSame(s, u, t);
    hide Shape;
    if Closed(s) {
      HarmlessChanges(s, u, t, if s.threads[0].pc.SetNext? then s.count else s.count + 1);
    } else {
      SharedElsewhere(s, u, t);
      AtWorkChanges(s, u, t);
    }
  }

  lemma MoveKeeps(s: State, t: nat)
    requires Inv(s) && Enabled(s, Move(t))
    ensures Inv(Moved(s, t))
  {
    ShapeOf(s, t);
    hide Inv, Moved;
    match s.threads[t].pc
    case SetJob => SetupKeeps(s);
    case SetCount => SetupKeeps(s);
    case SetNext => SetupKeeps(s);
    case SetRemaining => SetupKeeps(s);
    case SetGeneration => SetupKeeps(s);
    case NotifyWork => NotifyKeeps(s);
    case Fetch => FetchKeeps(s, t);
    case Compare(_) => CompareKeeps(s, t);
    case Call(_) => CallKeeps(s, t);
    case Exec(_, _) => ExecKeeps(s, t);
    case Dec(_) => DecKeeps(s, t);
    case Leave => LeaveKeeps(s, t);
    case Wait => WaitKeeps(s);
    case Checking => CheckingKeeps(s, t);
    case _ =>
  }

  lemma StepKeeps(s: State, a: Action)
    requires Inv(s) && Enabled(s, a) && Tame(s, a)
    ensures Inv(Step(s, a))
  {
    hide Inv;
    match a
    case Begin(count) => BeginKeeps(s, count);
    case Restart(workers) => RestartKeeps(s, workers);
    case Move(t) => MoveKeeps(s, t);
    case Wake(t) => WakeKeeps(s, t);
  }

  // ---------------------------------------------------------------------------
  // Whole runs.

  /** Every step can be taken when its turn comes. */
  predicate Possible(s: State, actions: seq<Action>)
    requires s.threads != []
    decreases |actions|
  {
    actions != [] ==>
      Enabled(s, actions[0]) && Step(s, actions[0]).threads != [] && Possible(Step(s, actions[0]), actions[1..])
  }

  function After(s: State, actions: seq<Action>): (u: State)
    requires s.threads != [] && Possible(s, actions)
    ensures u.threads != []
    decreases |actions|
  {
    if actions == [] then s else After(Step(s, actions[0]), actions[1..])
  }

  /** No pooled call has more than one job more than the pooled call before it. */
  predicate NeverGrows(s: State, actions: seq<Action>)
    requires s.threads != [] && Possible(s, actions)
    decreases |actions|
  {
    actions != [] ==> Tame(s, actions[0]) && NeverGrows(Step(s, actions[0]), actions[1..])
  }

  /** No index twice, no index outside the count, and the job at hand never missing. */
  ghost predicate Safe(s: State) {
    && s.threads != []
    && (forall i: nat :: s.ran[i] <= 1 && (s.ran[i] == 1 ==> i < s.asked))
    && (forall t :: 0 <= t < |s.threads| && s.threads[t].pc.Call? ==> s.job == Some(s.run))
    && (forall t :: 0 <= t < |s.threads| && s.threads[t].pc.Exec? ==> s.threads[t].pc.job == Some(s.run))
    && (forall t :: 0 <= t < |s.threads| && s.threads[t].pc.Dec? && Enabled(s, Move(t)) ==> s.remaining > 0)
    && (s.threads[0].pc.Idle? ==> s.ran == OnceEach(s.asked))
  }

  lemma InvIsSafe(s: State)
    requires Inv(s)
    ensures Safe(s)
  {
    forall t | 0 <= t < |s.threads| && s.threads[t].pc.Dec? && Enabled(s, Move(t))
      ensures s.remaining > 0
    {
      DecKeeps(s, t);
    }
    hide LoopSet;
    if !Closed(s) {
      assert forall i: nat :: s.ran[i] <= 1;
    }
  }

  /**
   * Over every interleaving and every sequence of calls of which none grows by more than
   * one: each index of a call runs once and with that call's job, none runs outside its
   * count, the outstanding count never goes below zero, and a call that has returned has run
   * every index.
   */
  lemma {:induction false} EveryIndexOnce(s: State, actions: seq<Action>)
    requires Inv(s) && Possible(s, actions) && NeverGrows(s, actions)
    ensures Inv(After(s, actions)) && Safe(After(s, actions))
    decreases |actions|
  {
    if actions == [] {
      InvIsSafe(s);
    } else {
      hide Inv, Safe;
      StepKeeps(s, actions[0]);
      EveryIndexOnce(Step(s, actions[0]), actions[1..]);
    }
  }

  /** A worker is parked only on a generation it has seen, but while the caller is about to wake it. */
  ghost predicate Alert(s: State)
    requires s.threads != []
  {
    !s.threads[0].pc.NotifyWork? ==>
      forall t :: 0 < t < |s.threads| && s.threads[t].pc.Parked? ==> s.threads[t].seen == s.generation
  }

  lemma AlertElsewhere(s: State, u: State, t: nat)
    requires s.threads != [] && Alert(s) && !s.threads[0].pc.NotifyWork?
    requires |u.threads| == |s.threads| && u.generation == s.generation
    requires forall x :: 0 < x < |s.threads| && x != t ==> u.threads[x] == s.threads[x]
    requires t < |s.threads| && (0 < t && u.threads[t].pc.Parked? ==> u.threads[t].seen == u.generation)
    ensures Alert(u)
  {
  }

  /** All but the step that opens a run and the one that wakes the workers. */
  lemma MovesOneThread(s: State, t: nat)
    requires s.threads != [] && Enabled(s, Move(t)) && (t > 0 ==> WorkerPc(s.threads[t].pc))
    requires CallerPc(s.threads[0].pc) && !s.threads[t].pc.NotifyWork? && !s.threads[t].pc.SetGeneration?
    ensures var u := Moved(s, t);
      && |u.threads| == |s.threads| && u.generation == s.generation
      && (forall x :: 0 < x < |s.threads| && x != t ==> u.threads[x] == s.threads[x])
      && (0 < t && u.threads[t].pc.Parked? ==> u.threads[t].seen == u.generation)
      && (t > 0 && s.threads[0].pc.NotifyWork? ==> u.threads[0].pc.NotifyWork?)
  {
    var x := s.threads[t];
    match x.pc
    case SetJob =>
    case SetCount =>
    case SetNext =>
    case SetRemaining =>
    case Fetch =>
    case Compare(_) =>
    case Call(_) =>
    case Exec(_, _) =>
    case Dec(_) => ReportsOneThread(s, t);
    case Leave =>
    case Wait =>
    case Checking =>
  }

  lemma ReportsOneThread(s: State, t: nat)
    requires t < |s.threads| && s.threads[t].pc.Dec?
    ensures var u := Decremented(s, t, s.threads[t].pc.index);
      && |u.threads| == |s.threads| && u.generation == s.generation
      && (forall x :: 0 < x < |s.threads| && x != t ==> u.threads[x] == s.threads[x])
      && (0 < t ==> u.threads[t].pc.Fetch?)
      && (t > 0 && s.threads[0].pc.NotifyWork? ==> u.threads[0].pc.NotifyWork?)
  {
  }

  lemma MoveAlert(s: State, t: nat)
    requires Inv(s) && Enabled(s, Move(t)) && Alert(s)
    ensures Moved(s, t).threads != [] && Alert(Moved(s, t))
  {
    assert CallerPc(s.threads[0].pc) && (t > 0 ==> WorkerPc(s.threads[t].pc));
    var u := Moved(s, t);
    if s.threads[t].pc.NotifyWork? {
      NotifiedAlert(s, t);
    } else if s.threads[t].pc.SetGeneration? {
      BeforeNotify(u);
    } else {
      MovesOneThread(s, t);
      hide Inv, Alert, Locked, Moved, Enabled;
      if s.threads[0].pc.NotifyWork? {
        BeforeNotify(u);
      } else {
        AlertElsewhere(s, u, t);
      }
    }
  }

  lemma BeforeNotify(u: State)
    requires u.threads != [] && u.threads[0].pc.NotifyWork?
    ensures Alert(u)
  {
  }

  lemma NotifiedAlert(s: State, t: nat)
    requires t < |s.threads| && s.threads[t].pc.NotifyWork?
    ensures Alert(NotifyWorkers(Goto(s, t, Fetch)))
  {
  }

  lemma AlertStays(s: State, a: Action)
    requires Inv(s) && Enabled(s, a) && Alert(s)
    ensures Step(s, a).threads != [] && Alert(Step(s, a))
  {
    if a.Move? {
      MoveAlert(s, a.thread);
    } else {
      hide Inv;
    }
  }

  lemma {:induction false} AlertThroughout(s: State, actions: seq<Action>)
    requires Inv(s) && Alert(s) && Possible(s, actions) && NeverGrows(s, actions)
    ensures Alert(After(s, actions))
    decreases |actions|
  {
    if actions != [] {
      hide Inv, Alert, Step, Enabled, Tame;
      StepKeeps(s, actions[0]);
      AlertStays(s, actions[0]);
      AlertThroughout(Step(s, actions[0]), actions[1..]);
    }
  }

  /** So it is from the state every pool starts in. */
  lemma SafeFromTheStart(actions: seq<Action>)
    requires Possible(Started(), actions) && NeverGrows(Started(), actions)
    ensures Safe(After(Started(), actions)) && Inv(After(Started(), actions)) && Alert(After(Started(), actions))
  {
    StartedInv();
    EveryIndexOnce(Started(), actions);
    AlertThroughout(Started(), actions);
  }

  /**
   * A pool started with so many workers runs a call inline, every index once and the caller back at
   * once, exactly if it has one worker or none or the call one job or none; otherwise nothing has
   * run yet, and the workers are those asked for.
   */
  lemma InlineExactly(s: State, workers: nat, count: nat)
    requires s.threads != [] && Enabled(s, Restart(workers)) && Step(s, Restart(workers)).threads != []
    requires Enabled(Step(s, Restart(workers)), Begin(count))
    ensures var u := Step(Step(s, Restart(workers)), Begin(count));
      && u.threads != [] && u.asked == count
      && |u.threads| == 1 + (if workers < 2 then 0 else workers)
      && (u.threads[0].pc.Idle? <==> workers < 2 || count < 2)
      && (forall i: nat :: u.ran[i] == if u.threads[0].pc.Idle? && i < count then 1 else 0)
  {
    hide OnceEach;
  }

  // ---------------------------------------------------------------------------
  // Waiting ends.

  lemma SomeoneIn(s: State)
    requires |LoopSet(s)| > 0
    ensures exists t :: 0 < t < |s.threads| && InLoop(s.threads[t].pc)
  {
    var t :| t in LoopSet(s);
  }

  lemma SomeoneHolds(s: State)
    requires s.threads != [] && OpenInv(s) && s.threads[0].pc.Asleep? && s.remaining != 0
    ensures exists t :: 0 < t < |s.threads| && InLoop(s.threads[t].pc)
  {
    FinishedAll(s.finished, s.count);
    if forall i: nat :: i < s.count ==> i in s.finished {
      FinishedExactly(s.finished, s.count);
      assert false;
    }
    var i: nat :| i < s.count && i !in s.finished;
    assert i in s.holder;
    assert InLoop(s.threads[s.holder[i]].pc);
  }

  lemma {:induction false} FinishedExactly(finished: set<nat>, n: nat)
    requires forall i: nat :: i in finished <==> i < n
    ensures |finished| == n
    decreases n
  {
    if n == 0 {
      assert finished == {};
    } else {
      FinishedExactly(finished - {n - 1}, n - 1);
      assert finished == finished - {n - 1} + {n - 1};
    }
  }

  /** While the caller sleeps, some worker can take a step. */
  lemma NeverStuck(s: State)
    requires Inv(s) && s.threads[0].pc.Asleep?
    ensures exists t :: 0 < t < |s.threads| && Enabled(s, Move(t))
  {
    if s.remaining != 0 {
      SomeoneHolds(s);
    } else {
      SomeoneIn(s);
    }
    var t :| 0 < t < |s.threads| && InLoop(s.threads[t].pc);
    assert Enabled(s, Move(t));
  }

  /** How many steps a worker can still take while the caller waits. */
  function Rank(s: State, x: Thread): nat {
    RankInLoop(s, x.pc) + if (x.pc.Checking? || InLoop(x.pc)) && x.seen != s.generation then 5 else 0
  }

  function RankInLoop(s: State, pc: Pc): nat {
    match pc
    case Checking => 1
    case Leave => 2
    case Compare(index) => if index < s.count then 8 else 3
    case Fetch => 4
    case Dec(_) => 5
    case Exec(_, _) => 6
    case Call(_) => 7
    case _ => 0
  }

  function RankOf(s: State, threads: seq<Thread>): nat {
    if threads == [] then 0 else RankOf(s, threads[..|threads| - 1]) + Rank(s, threads[|threads| - 1])
  }

  /** Of all the workers; a step of the caller counts half of a worker's. */
  function Patience(s: State): nat
    requires s.threads != []
  {
    2 * RankOf(s, s.threads[1..]) + if s.threads[0].pc.Wait? then 1 else 0
  }

  lemma {:induction false} RankBounded(s: State, threads: seq<Thread>)
    ensures RankOf(s, threads) <= 13 * |threads|
  {
    if threads != [] {
      RankBounded(s, threads[..|threads| - 1]);
    }
  }

  lemma {:induction false} RankFalls(s: State, u: State, threads: seq<Thread>, t: nat, x: Thread)
    requires t < |threads| && u.generation == s.generation && u.count == s.count
    ensures RankOf(u, threads[t := x]) + Rank(s, threads[t]) == RankOf(s, threads) + Rank(u, x)
    decreases |threads|
  {
    var n := |threads| - 1;
    if t == n {
      assert threads[t := x][..n] == threads[..n];
      RankSame(s, u, threads[..n]);
    } else {
      assert threads[t := x][..n] == threads[..n][t := x];
      RankFalls(s, u, threads[..n], t, x);
    }
  }

  lemma {:induction false} RankSame(s: State, u: State, threads: seq<Thread>)
    requires u.generation == s.generation && u.count == s.count
    ensures RankOf(u, threads) == RankOf(s, threads)
  {
    if threads != [] {
      RankSame(s, u, threads[..|threads| - 1]);
    }
  }

  predicate Waiting(s: State)
    requires s.threads != []
  {
    s.threads[0].pc.Wait? || s.threads[0].pc.Asleep?
  }

  /** What a worker's step does to it while the caller waits. */
  lemma WorkerStep(s: State, t: nat)
    requires Inv(s) && Waiting(s) && 0 < t < |s.threads| && Enabled(s, Move(t))
    ensures var u := Moved(s, t);
      && |u.threads| == |s.threads| && u.generation == s.generation && u.count == s.count && Waiting(u)
      && u.threads[1..] == s.threads[1..][t - 1 := u.threads[t]]
      && Rank(u, u.threads[t]) < Rank(s, s.threads[t])
  {
    WorkerMoves(s, t);
    WorkerFalls(s, t);
    hide *;
  }

  lemma WorkerMoves(s: State, t: nat)
    requires Inv(s) && Waiting(s) && 0 < t < |s.threads| && Enabled(s, Move(t))
    ensures var u := Moved(s, t);
      && |u.threads| == |s.threads| && u.generation == s.generation && u.count == s.count && Waiting(u)
      && u.threads[1..] == s.threads[1..][t - 1 := u.threads[t]]
  {
    hide Inv;
    WhileWaiting(s, t);
  }

  lemma WorkerFalls(s: State, t: nat)
    requires Inv(s) && Waiting(s) && 0 < t < |s.threads| && Enabled(s, Move(t))
    ensures |Moved(s, t).threads| == |s.threads| && Rank(Moved(s, t), Moved(s, t).threads[t]) < Rank(s, s.threads[t])
  {
    hide Inv;
    WhileWaiting(s, t);
  }

  lemma WhileWaiting(s: State, t: nat)
    requires Inv(s) && Waiting(s) && 0 < t < |s.threads|
    ensures WorkerPc(s.threads[t].pc) && s.next >= s.count + 1
  {
    hide LoopSet, Shared, RanOnce, AtWork;
  }

  /**
   * Any step of any thread brings the return of a waiting caller nearer, so it returns after
   * at most 26 steps for each worker and one more, in whatever order they come.
   */
  lemma WaitingEnds(s: State, t: nat)
    requires Inv(s) && Waiting(s) && Enabled(s, Move(t))
    ensures Patience(s) <= 26 * (|s.threads| - 1) + 1
    ensures var u := Moved(s, t);
      u.threads != [] && (u.threads[0].pc.Idle? || (Waiting(u) && Patience(u) < Patience(s)))
  {
    RankBounded(s, s.threads[1..]);
    var u := Moved(s, t);
    if t == 0 {
      if !u.threads[0].pc.Idle? {
        assert u.threads[1..] == s.threads[1..];
        RankSame(s, u, s.threads[1..]);
      }
    } else {
      WorkerStep(s, t);
      hide Inv, Moved, Rank, RankOf;
      RankFalls(s, u, s.threads[1..], t - 1, u.threads[t]);
    }
  }

  /** The caller returns at some point of the run. */
  predicate Returns(s: State, actions: seq<Action>)
    requires s.threads != [] && Possible(s, actions)
    decreases |actions|
  {
    s.threads[0].pc.Idle? || (actions != [] && Returns(Step(s, actions[0]), actions[1..]))
  }

  /** How many of the actions wake a thread that nothing has notified. */
  function Wakes(actions: seq<Action>): nat {
    if actions == [] then 0 else (if actions[0].Wake? then 1 else 0) + Wakes(actions[1..])
  }

  /** A thread that wakes of itself has two steps to take at most before it is back asleep. */
  lemma WakeCosts(s: State, t: nat)
    requires Inv(s) && Alert(s) && Waiting(s) && Enabled(s, Wake(t))
    ensures var u := Step(s, Wake(t)); u.threads != [] && Waiting(u) && Patience(u) <= Patience(s) + 2
  {
    var u := Step(s, Wake(t));
    hide Inv;
    if t == 0 {
      assert u.threads[1..] == s.threads[1..];
      RankSame(s, u, s.threads[1..]);
    } else {
      assert u.threads[1..] == s.threads[1..][t - 1 := u.threads[t]];
      WokenRank(s, s.threads[t]);
      assert Rank(u, u.threads[t]) == Rank(s, u.threads[t]);
      hide RankOf, Rank, Alert;
      RankFalls(s, u, s.threads[1..], t - 1, u.threads[t]);
    }
  }

  lemma WokenRank(s: State, x: Thread)
    requires x.pc.Parked? && x.seen == s.generation
    ensures Rank(s, x.(pc := Checking)) == Rank(s, x) + 1
  {
  }

  /**
   * No schedule keeps a waiting caller waiting for longer than that, and three actions more for
   * each spurious wake.
   */
  lemma {:induction false} ReturnsInTime(s: State, actions: seq<Action>)
    requires Inv(s) && Alert(s) && Waiting(s) && Possible(s, actions)
    requires |actions| > Patience(s) + 3 * Wakes(actions)
    ensures Returns(s, actions)
    decreases |actions|
  {
    assert actions[0].Move? || actions[0].Wake?;
    var u := Step(s, actions[0]);
    StepKeeps(s, actions[0]);
    AlertStays(s, actions[0]);
    if actions[0].Move? {
      WaitingEnds(s, actions[0].thread);
    } else {
      WakeCosts(s, actions[0].thread);
    }
    hide Inv, Alert, Step, Enabled, Patience;
    if !u.threads[0].pc.Idle? {
      ReturnsInTime(u, actions[1..]);
    }
  }

  // ---------------------------------------------------------------------------
  // Schedules in which the workers are slow.

  lemma First(s: State, a: Action, rest: seq<Action>)
    requires s.threads != [] && Enabled(s, a) && Step(s, a).threads != [] && Possible(Step(s, a), rest)
    ensures Possible(s, [a] + rest) && After(s, [a] + rest) == After(Step(s, a), rest)
  {
    hide Enabled, Step;
    assert ([a] + rest)[1..] == rest;
  }

  lemma {:induction false} Chained(s: State, a: seq<Action>, b: seq<Action>)
    requires s.threads != [] && Possible(s, a) && Possible(After(s, a), b)
    ensures Possible(s, a + b) && After(s, a + b) == After(After(s, a), b)
    decreases |a|
  {
    hide Enabled, Step;
    if a == [] {
      assert a + b == b;
    } else {
      assert (a + b)[0] == a[0] && (a + b)[1..] == a[1..] + b;
      Chained(Step(s, a[0]), a[1..], b);
    }
  }

  /** The caller takes an index, runs it and reports it. */
  function Round(): seq<Action> {
    [Move(0)] + ([Move(0)] + ([Move(0)] + ([Move(0)] + [])))
  }

  function Rounds(n: nat): seq<Action> {
    if n == 0 then [] else Round() + Rounds(n - 1)
  }

  /** What a caller on its own changes of a state while it works. */
  ghost predicate Worked(s: State, u: State, n: nat) {
    && u.threads == s.threads && u.job == s.job && u.count == s.count && u.next == s.next + n
    && u.remaining == s.remaining - n && u.active == s.active && u.generation == s.generation
    && u.asked == s.asked && u.run == s.run
    && (forall i: nat :: u.ran[i] == s.ran[i] + if s.next <= i < s.next + n then 1 else 0)
  }

  lemma OneRound(s: State)
    requires s.threads != [] && s.threads[0].pc.Fetch? && s.next < s.count
    ensures Possible(s, Round()) && Worked(s, After(s, Round()), 1)
  {
    var s1 := Step(s, Move(0));
    var s2 := Step(s1, Move(0));
    var s3 := Step(s2, Move(0));
    var s4 := Step(s3, Move(0));
    assert s4.threads == s.threads;
    assert Worked(s, s4, 1);
    hide Step, Enabled, Worked;
    assert Possible(s4, []);
    First(s3, Move(0), []);
    First(s2, Move(0), [Move(0)] + []);
    First(s1, Move(0), [Move(0)] + ([Move(0)] + []));
    First(s, Move(0), [Move(0)] + ([Move(0)] + ([Move(0)] + [])));
  }

  lemma {:induction false} ManyRounds(s: State, n: nat)
    requires s.threads != [] && s.threads[0].pc.Fetch? && s.next + n <= s.count
    ensures Possible(s, Rounds(n)) && Worked(s, After(s, Rounds(n)), n)
    decreases n
  {
    hide *;
    if n > 0 {
      OneRound(s);
      var u := After(s, Round());
      WorkedGuard(s, u);
      ManyRounds(u, n - 1);
      Chained(s, Round(), Rounds(n - 1));
      WorkedOn(s, u, After(u, Rounds(n - 1)), n);
      RoundsNext(n);
    } else {
      NoRounds(s);
    }
  }

  lemma WorkedGuard(s: State, u: State)
    requires Worked(s, u, 1)
    ensures u.threads == s.threads && u.next == s.next + 1 && u.count == s.count
  {
  }

  lemma RoundsNext(n: nat)
    requires n > 0
    ensures Rounds(n) == Round() + Rounds(n - 1)
  {
  }

  lemma NoRounds(s: State)
    requires s.threads != []
    ensures Possible(s, Rounds(0)) && Worked(s, After(s, Rounds(0)), 0)
  {
  }

  lemma WorkedOn(s: State, u: State, v: State, n: nat)
    requires n > 0 && Worked(s, u, 1) && Worked(u, v, n - 1)
    ensures Worked(s, v, n)
  {
  }

  /** The caller begins, and writes job and count. */
  function Writing(c: nat): seq<Action> {
    [Begin(c)] + ([Move(0)] + ([Move(0)] + []))
  }

  /** It resets the counter, opens the call and wakes the workers. */
  function Releasing(): seq<Action> {
    [Move(0)] + ([Move(0)] + ([Move(0)] + ([Move(0)] + [])))
  }

  function Closing(): seq<Action> {
    [Move(0)] + ([Move(0)] + ([Move(0)] + []))
  }

  /** A call the caller runs alone, every worker slow to wake. */
  function Alone(c: nat): seq<Action> {
    if c <= 1 then [Begin(c)] + [] else Writing(c) + (Releasing() + (Rounds(c) + Closing()))
  }

  function AllAlone(sizes: seq<nat>): seq<Action> {
    if sizes == [] then [] else AllAlone(sizes[..|sizes| - 1]) + Alone(sizes[|sizes| - 1])
  }

  /**
   * Worker 1 wakes and takes an index from the old counter; the next call of `c` jobs
   * writes its count; the worker compares and runs the job; the call sets its counter to zero
   * and opens.
   */
  function StaleWorker(c: nat): seq<Action> {
    Taking() + (Writing(c) + (Running() + Releasing()))
  }

  function Taking(): seq<Action> {
    [Move(1)] + ([Move(1)] + [])
  }

  function Running(): seq<Action> {
    [Move(1)] + ([Move(1)] + ([Move(1)] + []))
  }

  /** Workers that have not looked yet. */
  ghost predicate Unlooked(s: State) {
    && |s.threads| >= 3 && s.active == 0
    && forall t :: 1 <= t < |s.threads| ==> s.threads[t] == Thread(Checking, 0)
  }

  /** And a caller between calls. */
  ghost predicate Rested(s: State) {
    Unlooked(s) && s.threads[0].pc.Idle?
  }

  lemma CallerGoes(s: State, pc: Pc)
    requires Unlooked(s)
    ensures Unlooked(Goto(s, 0, pc)) && Goto(s, 0, pc).threads[0].pc == pc
  {
  }

  lemma NobodyParked(s: State)
    requires Unlooked(s) && !s.threads[0].pc.Parked?
    ensures NotifyWorkers(s) == s
  {
    assert NotifyWorkers(s).threads == s.threads;
  }

  lemma WritingSteps(s: State, c: nat) returns (s1: State, s2: State, s3: State)
    requires s.threads != [] && s.threads[0].pc.Idle? && c > 1 && |s.threads| > 1
    ensures Enabled(s, Begin(c)) && s1 == Step(s, Begin(c)) && s1.threads != []
    ensures Enabled(s1, Move(0)) && s2 == Step(s1, Move(0)) && s2.threads != []
    ensures Enabled(s2, Move(0)) && s3 == Step(s2, Move(0)) && s3.threads != []
    ensures
      && s3.threads == s.threads[0 := s.threads[0].(pc := SetNext)] && s3.count == s3.asked == c && s3.ran == multiset{}
      && s3.next == s.next && s3.active == s.active && s3.generation == s.generation
  {
    s1 := Step(s, Begin(c));
    s2 := Step(s1, Move(0));
    s3 := Step(s2, Move(0));
    assert s3.threads == s.threads[0 := s.threads[0].(pc := SetNext)];
  }

  lemma Writes(s: State, c: nat)
    requires s.threads != [] && s.threads[0].pc.Idle? && c > 1 && |s.threads| > 1
    ensures Possible(s, Writing(c))
    ensures var u := After(s, Writing(c));
      && u.threads == s.threads[0 := s.threads[0].(pc := SetNext)] && u.count == u.asked == c && u.ran == multiset{}
      && u.next == s.next && u.active == s.active && u.generation == s.generation
  {
    hide Step, Enabled;
    var s1, s2, s3 := WritingSteps(s, c);
    assert Possible(s3, []);
    First(s2, Move(0), []);
    First(s1, Move(0), [Move(0)] + []);
    First(s, Begin(c), [Move(0)] + ([Move(0)] + []));
  }

  lemma Releases(s: State)
    requires s.threads != [] && s.threads[0].pc.SetNext?
    ensures Possible(s, Releasing())
    ensures var u := After(s, Releasing());
      && u.threads == NotifyWorkers(Goto(s, 0, Fetch)).threads && u.count == s.count && u.asked == s.asked
      && u.next == 0 && u.remaining == s.asked && u.active == s.active && u.generation == s.generation + 1
      && u.ran == s.ran
  {
    var s1 := Step(s, Move(0));
    var s2 := Step(s1, Move(0));
    var s3 := Step(s2, Move(0));
    var s4 := Step(s3, Move(0));
    assert Goto(s3, 0, Fetch).threads == Goto(s, 0, Fetch).threads;
    hide Step, Enabled, NotifyWorkers;
    assert Possible(s4, []);
    First(s3, Move(0), []);
    First(s2, Move(0), [Move(0)] + []);
    First(s1, Move(0), [Move(0)] + ([Move(0)] + []));
    First(s, Move(0), [Move(0)] + ([Move(0)] + ([Move(0)] + [])));
  }

  lemma Opens(s: State, c: nat)
    requires Rested(s) && c > 1
    ensures Possible(s, Writing(c)) && Possible(After(s, Writing(c)), Releasing())
    ensures var u := After(After(s, Writing(c)), Releasing());
      && Unlooked(u) && u.threads[0].pc.Fetch?
      && u.count == c && u.next == 0 && u.remaining == c && u.generation == s.generation + 1
  {
    hide Writing, Releasing, After, Possible, NotifyWorkers;
    Writes(s, c);
    var v := After(s, Writing(c));
    Releases(v);
    CallerGoes(v, Fetch);
    NobodyParked(Goto(v, 0, Fetch));
  }

  lemma Closes(s: State)
    requires Unlooked(s) && s.threads[0].pc.Fetch? && s.next >= s.count && s.remaining == 0
    ensures Possible(s, Closing())
    ensures var u := After(s, Closing());
      Rested(u) && u.next == s.next + 1 && u.count == s.count && u.generation == s.generation
  {
    var s1 := Step(s, Move(0));
    CallerGoes(s, Compare(s.next));
    var s2 := Step(s1, Move(0));
    CallerGoes(s1, Wait);
    var s3 := Step(s2, Move(0));
    CallerGoes(s2, Idle);
    assert Rested(s3);
    hide Step, Enabled, Rested, Unlooked;
    assert Possible(s3, []);
    First(s2, Move(0), []);
    First(s1, Move(0), [Move(0)] + []);
    First(s, Move(0), [Move(0)] + ([Move(0)] + []));
  }

  /** A pooled call leaves its count, and a counter one past it; one run inline leaves both. */
  ghost predicate Leaves(s: State, c: nat, u: State) {
    && Rested(u)
    && (if c > 1 then u.count == c && u.next == c + 1 && u.generation == s.generation + 1
        else u.count == s.count && u.next == s.next && u.generation == s.generation)
  }

  lemma CallsAlone(s: State, c: nat)
    requires Rested(s)
    ensures Possible(s, Alone(c)) && Leaves(s, c, After(s, Alone(c)))
  {
    if c <= 1 {
      assert Leaves(s, c, Step(s, Begin(c)));
      assert Possible(Step(s, Begin(c)), []);
      First(s, Begin(c), []);
    } else {
      Opens(s, c);
      var s1 := After(s, Writing(c));
      var s2 := After(s1, Releasing());
      ManyRounds(s2, c);
      var s3 := After(s2, Rounds(c));
      Closes(s3);
      hide Writing, Releasing, Closing, Rounds, After, Possible, Rested;
      Chained(s2, Rounds(c), Closing());
      Chained(s1, Releasing(), Rounds(c) + Closing());
      Chained(s, Writing(c), Releasing() + (Rounds(c) + Closing()));
    }
  }

  /** The size of the last call that used the workers. */
  function LastPooled(sizes: seq<nat>): Option<nat> {
    if sizes == [] then None
    else if sizes[|sizes| - 1] > 1 then Some(sizes[|sizes| - 1])
    else LastPooled(sizes[..|sizes| - 1])
  }

  lemma {:induction false} CallsAllAlone(s: State, sizes: seq<nat>)
    requires Rested(s) && s.generation == 0
    ensures Possible(s, AllAlone(sizes))
    ensures var u := After(s, AllAlone(sizes));
      && Rested(u)
      && match LastPooled(sizes)
         case None => u.generation == 0
         case Some(c) => u.generation > 0 && u.count == c && u.next == c + 1
  {
    if sizes != [] {
      var n := |sizes| - 1;
      CallsAllAlone(s, sizes[..n]);
      var u := After(s, AllAlone(sizes[..n]));
      CallsAlone(u, sizes[n]);
      hide Rested, Alone;
      Chained(s, AllAlone(sizes[..n]), Alone(sizes[n]));
    }
  }

  lemma Takes(s: State)
    requires Rested(s) && s.generation > 0
    ensures Possible(s, Taking())
    ensures var u := After(s, Taking());
      && |u.threads| == |s.threads| && u.threads[0].pc.Idle? && u.threads[1].pc == Compare(s.next)
  {
    var s1 := Step(s, Move(1));
    var s2 := Step(s1, Move(1));
    assert s2.threads[1].pc == Compare(s.next) && s2.threads[0].pc.Idle?;
    hide Step, Enabled, Rested;
    assert Possible(s2, []);
    First(s1, Move(1), []);
    First(s, Move(1), [Move(1)] + []);
  }

  lemma Runs(s: State, index: nat)
    requires |s.threads| > 1 && s.threads[0].pc.SetNext? && s.threads[1].pc == Compare(index) && index < s.count
    ensures Possible(s, Running())
    ensures var u := After(s, Running());
      && |u.threads| == |s.threads| && u.threads[0].pc.SetNext? && u.ran == s.ran + multiset{index}
      && u.count == s.count && u.asked == s.asked
  {
    var s1 := Step(s, Move(1));
    var s2 := Step(s1, Move(1));
    var s3 := Step(s2, Move(1));
    assert s3.threads[0].pc.SetNext? && s3.ran == s.ran + multiset{index};
    hide Step, Enabled;
    assert Possible(s3, []);
    First(s2, Move(1), []);
    First(s1, Move(1), [Move(1)] + []);
    First(s, Move(1), [Move(1)] + ([Move(1)] + []));
  }

  lemma Stales(s: State, c: nat)
    requires Rested(s) && s.generation > 0 && s.next < c && c > 1
    ensures Possible(s, StaleWorker(c))
    ensures var u := After(s, StaleWorker(c));
      && u.threads != [] && u.threads[0].pc.Fetch? && u.count == c && u.next == 0 && u.ran[s.next] == 1
      && u.asked == c
  {
    Takes(s);
    var s1 := After(s, Taking());
    Writes(s1, c);
    var s2 := After(s1, Writing(c));
    Runs(s2, s.next);
    var s3 := After(s2, Running());
    Releases(s3);
    hide Taking, Writing, Running, Releasing, After, Possible, Rested;
    Chained(s2, Running(), Releasing());
    Chained(s1, Writing(c), Running() + Releasing());
    Chained(s, Taking(), Writing(c) + (Running() + Releasing()));
  }

  // ---------------------------------------------------------------------------
  // Which call sizes are safe, for any workers.

  /** A pool just started. */
  function Pool(workers: nat): (s: State)
    requires workers >= 2
    ensures s.threads != []
  {
    Step(Started(), Restart(workers))
  }

  /** The sizes of the calls begun. */
  function Calls(actions: seq<Action>): seq<nat> {
    if actions == [] then [] else (if actions[0].Begin? then [actions[0].count] else []) + Calls(actions[1..])
  }

  /** Restarted or not, the pool keeps two workers or more. */
  ghost predicate Staffed(actions: seq<Action>) {
    forall i :: 0 <= i < |actions| && actions[i].Restart? ==> actions[i].workers >= 2
  }

  /** Steps that can be taken, in that order, in a pool that is called for those sizes. */
  ghost predicate Schedule(workers: nat, sizes: seq<nat>, actions: seq<Action>)
    requires workers >= 2
  {
    Possible(Pool(workers), actions) && Staffed(actions) && Calls(actions) <= sizes
  }

  /** No call that uses the workers has two jobs more than the one before it that did. */
  ghost predicate NoGrowthByTwo(sizes: seq<nat>) {
    forall j :: 0 <= j < |sizes| && sizes[j] > 1 && LastPooled(sizes[..j]).Some? ==>
      sizes[j] <= LastPooled(sizes[..j]).value + 1
  }

  /** The count is that of the last pooled call, once the call has written it. */
  ghost predicate Counts(s: State, last: Option<nat>) {
    && |s.threads| > 1
    && var pc := s.threads[0].pc;
       match last
       case None => pc.Idle? && s.generation == 0
       case Some(c) =>
         && (pc.SetJob? || pc.SetCount? ==> s.asked == c)
         && (!pc.SetJob? && !pc.SetCount? ==> s.count == c)
         && (pc.Idle? ==> s.generation > 0)
  }

  /** A worker's step: nothing of this but that it may wake the caller. */
  lemma WorkerElsewhere(s: State, t: nat)
    requires s.threads != [] && 0 < t < |s.threads| && WorkerPc(s.threads[t].pc) && Enabled(s, Move(t))
    ensures var u := Moved(s, t);
      && |u.threads| == |s.threads| && u.asked == s.asked && u.count == s.count && u.generation == s.generation
      && (u.threads[0] == s.threads[0] || (s.threads[0].pc.Asleep? && u.threads[0].pc.Wait?))
  {
    match s.threads[t].pc
    case Fetch =>
    case Compare(_) =>
    case Call(_) =>
    case Exec(_, _) =>
    case Dec(_) =>
    case Leave =>
    case Checking =>
  }

  lemma CallerCounts(s: State, last: Option<nat>)
    requires s.threads != [] && CallerPc(s.threads[0].pc) && Enabled(s, Move(0)) && Counts(s, last)
    requires !s.threads[0].pc.SetGeneration? && !s.threads[0].pc.SetRemaining? && !Closed(s) ==> s.generation > 0
    ensures Moved(s, 0).threads != [] && Counts(Moved(s, 0), last)
  {
    match s.threads[0].pc
    case SetJob =>
    case SetCount =>
    case SetNext =>
    case SetRemaining =>
    case SetGeneration =>
    case NotifyWork =>
    case Fetch =>
    case Compare(_) =>
    case Exec(_, _) =>
    case Dec(_) =>
    case Wait =>
  }

  lemma OpenGeneration(s: State)
    requires Inv(s)
    ensures CallerPc(s.threads[0].pc) && (forall t :: 0 < t < |s.threads| ==> WorkerPc(s.threads[t].pc))
    ensures !s.threads[0].pc.SetGeneration? && !s.threads[0].pc.SetRemaining? && !Closed(s) ==> s.generation > 0
  {
    hide Shared, AtWork, RanOnce, LoopSet, OnceEach;
  }

  /** Whoever moves, and whenever a pool of two workers or more is restarted. */
  lemma CountsStay(s: State, a: Action, last: Option<nat>)
    requires Inv(s) && Enabled(s, a) && Counts(s, last) && (a.Restart? ==> a.workers >= 2)
    ensures Step(s, a).threads != []
    ensures Counts(Step(s, a), if a.Begin? && a.count > 1 then Some(a.count) else last)
  {
    OpenGeneration(s);
    hide Inv;
    if a.Move? {
      if a.thread == 0 {
        CallerCounts(s, last);
      } else {
        WorkerElsewhere(s, a.thread);
        hide Moved;
      }
    }
  }

  lemma LastPooledNext(sizes: seq<nat>, c: nat)
    ensures LastPooled(sizes + [c]) == if c > 1 then Some(c) else LastPooled(sizes)
  {
    assert (sizes + [c])[..|sizes|] == sizes;
  }

  lemma BeginsTamely(s: State, a: Action, done: seq<nat>, sizes: seq<nat>)
    requires s.threads != [] && Enabled(s, a) && Counts(s, LastPooled(done)) && NoGrowthByTwo(sizes)
    requires a.Begin? ==> done + [a.count] <= sizes
    ensures Tame(s, a)
  {
    if a.Begin? && a.count > 1 {
      assert sizes[..|done|] == done && sizes[|done|] == a.count;
    }
  }

  lemma NextCalls(done: seq<nat>, actions: seq<Action>, sizes: seq<nat>)
    requires actions != [] && done + Calls(actions) <= sizes
    ensures var next := if actions[0].Begin? then done + [actions[0].count] else done;
      next <= sizes && next + Calls(actions[1..]) <= sizes
  {
    var first, rest := if actions[0].Begin? then [actions[0].count] else [], Calls(actions[1..]);
    assert Calls(actions) == first + rest;
    hide Calls;
    PrefixesOfSum(done, first, rest, sizes);
    assert done + [] == done;
  }

  lemma PrefixesOfSum(a: seq<nat>, b: seq<nat>, c: seq<nat>, all: seq<nat>)
    requires a + (b + c) <= all
    ensures a + b <= all && a + b + c <= all
  {
    assert a + (b + c) == a + b + c;
  }

  /** In a pool that keeps its workers, sizes that never grow by two are calls that never do. */
  lemma {:induction false} SizesAreTame(s: State, done: seq<nat>, actions: seq<Action>, sizes: seq<nat>)
    requires Inv(s) && Counts(s, LastPooled(done)) && Possible(s, actions) && Staffed(actions)
    requires done + Calls(actions) <= sizes && NoGrowthByTwo(sizes)
    ensures NeverGrows(s, actions)
    decreases |actions|
  {
    if actions != [] {
      var a, rest := actions[0], actions[1..];
      var next := if a.Begin? then done + [a.count] else done;
      NextCalls(done, actions, sizes);
      hide Calls, Inv, NoGrowthByTwo, Counts, Step, Enabled, Tame, LastPooled;
      BeginsTamely(s, a, done, sizes);
      CountsStay(s, a, LastPooled(done));
      if a.Begin? {
        LastPooledNext(done, a.count);
      }
      StepKeeps(s, a);
      SizesAreTame(Step(s, a), next, rest, sizes);
    }
  }

  lemma PoolStarts(workers: nat)
    requires workers >= 2
    ensures Pool(workers).threads != [] && Inv(Pool(workers)) && Counts(Pool(workers), None)
    ensures Rested(Pool(workers)) && Pool(workers).generation == 0
  {
    StartedInv();
    assert Tame(Started(), Restart(workers));
    StepKeeps(Started(), Restart(workers));
    hide Inv;
  }

  lemma {:induction false} CallsAppend(a: seq<Action>, b: seq<Action>)
    ensures Calls(a + b) == Calls(a) + Calls(b)
    decreases |a|
  {
    if a == [] {
      assert a + b == b;
    } else {
      assert (a + b)[0] == a[0] && (a + b)[1..] == a[1..] + b;
      CallsAppend(a[1..], b);
    }
  }

  ghost predicate NoRestarts(actions: seq<Action>) {
    forall i :: 0 <= i < |actions| ==> !actions[i].Restart?
  }

  ghost predicate OnlyMoves(actions: seq<Action>) {
    forall i :: 0 <= i < |actions| ==> actions[i].Move?
  }

  lemma {:induction false} MovesCallNothing(actions: seq<Action>)
    requires OnlyMoves(actions)
    ensures Calls(actions) == [] && NoRestarts(actions)
    decreases |actions|
  {
    if actions != [] {
      MovesCallNothing(actions[1..]);
    }
  }

  lemma {:induction false} RoundsMove(n: nat)
    ensures OnlyMoves(Rounds(n))
  {
    if n > 0 {
      RoundsMove(n - 1);
    }
  }

  lemma WritingCalls(c: nat)
    ensures Calls(Writing(c)) == [c] && NoRestarts(Writing(c))
  {
    var moves := [Move(0)] + ([Move(0)] + []);
    MovesCallNothing(moves);
    CallsAppend([Begin(c)], moves);
    var none: seq<Action> := [];
    assert [Begin(c)][1..] == none;
  }

  lemma AloneCalls(c: nat)
    ensures Calls(Alone(c)) == [c] && NoRestarts(Alone(c))
  {
    if c <= 1 {
      assert Alone(c)[1..] == [];
    } else {
      RoundsMove(c);
      var moves := Releasing() + (Rounds(c) + Closing());
      MovesCallNothing(moves);
      WritingCalls(c);
      CallsAppend(Writing(c), moves);
    }
  }

  lemma NoRestartsInBoth(a: seq<Action>, b: seq<Action>)
    requires NoRestarts(a) && NoRestarts(b)
    ensures NoRestarts(a + b)
  {
  }

  lemma {:induction false} AllAloneCalls(sizes: seq<nat>)
    ensures Calls(AllAlone(sizes)) == sizes && NoRestarts(AllAlone(sizes))
  {
    if sizes != [] {
      var n := |sizes| - 1;
      assert AllAlone(sizes) == AllAlone(sizes[..n]) + Alone(sizes[n]);
      hide *;
      AllAloneCalls(sizes[..n]);
      AloneCalls(sizes[n]);
      CallsAppend(AllAlone(sizes[..n]), Alone(sizes[n]));
      NoRestartsInBoth(AllAlone(sizes[..n]), Alone(sizes[n]));
    }
  }

  lemma StaleCalls(c: nat)
    ensures Calls(StaleWorker(c)) == [c] && NoRestarts(StaleWorker(c))
  {
    MovesCallNothing(Taking());
    MovesCallNothing(Running() + Releasing());
    WritingCalls(c);
    CallsAppend(Writing(c), Running() + Releasing());
    CallsAppend(Taking(), Writing(c) + (Running() + Releasing()));
  }

  /** Calls by the caller alone, the last pooled one of `c` jobs; then `d` jobs over a worker with an index from it. */
  function StaleTrace(earlier: seq<nat>, c: nat, d: nat): seq<Action> {
    AllAlone(earlier) + (StaleWorker(d) + Rounds(c + 2))
  }

  lemma StaleRuns(workers: nat, earlier: seq<nat>, c: nat, d: nat)
    requires workers >= 2 && LastPooled(earlier) == Some(c) && d > 1 && d >= c + 2
    ensures Possible(Pool(workers), StaleTrace(earlier, c, d))
    ensures After(Pool(workers), StaleTrace(earlier, c, d)).ran[c + 1] == 2
  {
    hide *;
    var s0 := Pool(workers);
    PoolStarts(workers);
    TraceParts(earlier, c, d);
    CallsAllAlone(s0, earlier);
    var s1 := After(s0, AllAlone(earlier));
    Stales(s1, d);
    var s2 := After(s1, StaleWorker(d));
    ManyRounds(s2, c + 2);
    WorkedRan(s2, After(s2, Rounds(c + 2)), c + 2, c + 1);
    Chained(s1, StaleWorker(d), Rounds(c + 2));
    Chained(s0, AllAlone(earlier), StaleWorker(d) + Rounds(c + 2));
  }

  lemma TraceParts(earlier: seq<nat>, c: nat, d: nat)
    ensures StaleTrace(earlier, c, d) == AllAlone(earlier) + (StaleWorker(d) + Rounds(c + 2))
  {
  }

  lemma WorkedRan(s: State, u: State, n: nat, i: nat)
    requires Worked(s, u, n) && s.next == 0 && i < n
    ensures u.ran[i] == s.ran[i] + 1
  {
  }

  lemma StaleTraceCalls(earlier: seq<nat>, c: nat, d: nat)
    ensures Calls(StaleTrace(earlier, c, d)) == earlier + [d] && NoRestarts(StaleTrace(earlier, c, d))
  {
    AllAloneCalls(earlier);
    StaleCalls(d);
    RoundsMove(c + 2);
    MovesCallNothing(Rounds(c + 2));
    hide AllAlone, StaleWorker, Rounds, Calls;
    CallsAppend(StaleWorker(d), Rounds(c + 2));
    CallsAppend(AllAlone(earlier), StaleWorker(d) + Rounds(c + 2));
  }

  lemma TwiceIsNotSafe(s: State, i: nat)
    requires s.ran[i] == 2
    ensures !Safe(s)
  {
  }

  /**
   * Whenever a call has at least two jobs more than the one before it that used the workers,
   * some schedule of the calls up to it runs one of its indexes twice.
   */
  lemma GrowthRunsTwice(workers: nat, sizes: seq<nat>, j: nat)
    requires workers >= 2 && j < |sizes| && LastPooled(sizes[..j]).Some?
    requires sizes[j] > 1 && sizes[j] >= LastPooled(sizes[..j]).value + 2
    ensures var trace := StaleTrace(sizes[..j], LastPooled(sizes[..j]).value, sizes[j]);
      Schedule(workers, sizes, trace) && !Safe(After(Pool(workers), trace))
  {
    hide Possible, After, StaleTrace, Calls, Pool, LastPooled, Safe;
    var c := LastPooled(sizes[..j]).value;
    StaleRuns(workers, sizes[..j], c, sizes[j]);
    StaleTraceCalls(sizes[..j], c, sizes[j]);
    TwiceIsNotSafe(After(Pool(workers), StaleTrace(sizes[..j], c, sizes[j])), c + 1);
    assert sizes[..j] + [sizes[j]] == sizes[..j + 1];
  }

  /**
   * Which calls are safe, for any number of workers: every schedule of calls of those sizes,
   * restarts included, runs every index once exactly when no call grows by two over the call
   * before it that used the workers.
   */
  lemma SafeIffNoGrowthByTwo(workers: nat, sizes: seq<nat>)
    requires workers >= 2
    ensures (forall actions :: Schedule(workers, sizes, actions) ==> Safe(After(Pool(workers), actions)))
      <==> NoGrowthByTwo(sizes)
  {
    if NoGrowthByTwo(sizes) {
      PoolStarts(workers);
      forall actions | Schedule(workers, sizes, actions)
        ensures Safe(After(Pool(workers), actions))
      {
        hide Inv, Counts, Pool, Safe;
        assert [] + Calls(actions) == Calls(actions);
        SizesAreTame(Pool(workers), [], actions, sizes);
        EveryIndexOnce(Pool(workers), actions);
      }
    } else {
      var j :| 0 <= j < |sizes| && sizes[j] > 1 && LastPooled(sizes[..j]).Some?
        && sizes[j] > LastPooled(sizes[..j]).value + 1;
      hide Safe, Possible, LastPooled, After;
      GrowthRunsTwice(workers, sizes, j);
    }
  }
}
