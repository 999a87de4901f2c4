// Handing tasks to the poller thread: src/Poller/EventPoller.cpp, async_l and
// onPipeEvent. Producers push under the lock and then write one byte into the
// wake-up pipe; the poller empties the pipe, swaps the list out and runs it.
// Every interleaving of these steps is a run of the state machine below.

module PollerWakeup {
  datatype Task = Task(id: nat, first: bool)

  // Where the poller thread is: in select/epoll, woken by the pipe, inside the
  // read loop, past it, or running what it swapped out.
  datatype Phase = Waiting | Woken | Draining | Drained | Running(todo: seq<Task>)

  // `inFlight` holds the threads between their push and their pipe write;
  // `posted` and `executed` record history.
  datatype State = State(
    list: seq<Task>,
    pipe: nat,
    capacity: nat,
    inFlight: set<nat>,
    phase: Phase,
    posted: seq<Task>,
    executed: seq<Task>)

  // The poller's own thread, which may post to itself.
  const POLLER: nat := 0

  datatype Event =
    | Push(thread: nat, task: Task)
    | WritePipe(thread: nat)
    | Wake
    | Read(n: nat)
    | ReadWouldBlock
    | Swap
    | RunTask
    | Finish

  function Init(capacity: nat): State
    requires capacity > 0
  {
    State([], 0, capacity, {}, Waiting, [], [])
  }

  predicate IsPollerEvent(e: Event) {
    !e.Push? && !e.WritePipe?
  }

  // A thread that is under way in async_l does nothing else until its pipe write,
  // which blocks while the pipe is full, is through.
  predicate Enabled(s: State, e: Event) {
    (IsPollerEvent(e) ==> POLLER !in s.inFlight) && CanDo(s, e)
  }

  predicate CanDo(s: State, e: Event) {
    match e
    case Push(t, _) => t !in s.inFlight
    case WritePipe(t) => t in s.inFlight && s.pipe < s.capacity
    case Wake => s.phase.Waiting? && s.pipe > 0
    case Read(n) => (s.phase.Woken? || s.phase.Draining?) && 0 < n <= s.pipe && n <= 1024
    case ReadWouldBlock => s.phase.Draining? && s.pipe == 0
    case Swap => s.phase.Drained?
    case RunTask => s.phase.Running? && s.phase.todo != []
    case Finish => s.phase == Running([])
  }

  function Apply(s: State, e: Event): State
    requires Enabled(s, e)
  {
    match e
    case Push(t, task) =>
      var list := if task.first then [task] + s.list else s.list + [task];
      s.(list := list, inFlight := s.inFlight + {t}, posted := s.posted + [task])
    case WritePipe(t) => s.(pipe := s.pipe + 1, inFlight := s.inFlight - {t})
    case Wake => s.(phase := Woken)
    case Read(n) => s.(pipe := s.pipe - n, phase := Draining)
    case ReadWouldBlock => s.(phase := Drained)
    case Swap => s.(list := [], phase := Running(s.list))
    case RunTask => s.(executed := s.executed + [s.phase.todo[0]], phase := Running(s.phase.todo[1..]))
    case Finish => s.(phase := Waiting)
  }

  // Any sequence of events, those that cannot happen being skipped.
  function Exec(s: State, events: seq<Event>): State {
    if |events| == 0 then s
    else
      var before := Exec(s, events[..|events| - 1]);
      var e := events[|events| - 1];
      if Enabled(before, e) then Apply(before, e) else before
  }

  function Todo(s: State): seq<Task> {
    if s.phase.Running? then s.phase.todo else []
  }

  // The tasks posted with async rather than async_first, in order.
  function Backs(tasks: seq<Task>): seq<Task> {
    if |tasks| == 0 then []
    else Backs(tasks[..|tasks| - 1]) + (if tasks[|tasks| - 1].first then [] else [tasks[|tasks| - 1]])
  }

  lemma {:induction false} BacksConcat(a: seq<Task>, b: seq<Task>)
    ensures Backs(a + b) == Backs(a) + Backs(b)
  {
    if |b| == 0 {
      assert a + b == a;
    } else {
      var n := |b| - 1;
      BacksConcat(a, b[..n]);
      assert (a + b)[..|a + b| - 1] == a + b[..n];
      assert (a + b)[|a + b| - 1] == b[n];
    }
  }

  // A task that nobody has fetched has a wake-up on its way.
  ghost predicate WakeupPending(s: State) {
    s.list != [] ==> s.pipe > 0 || s.inFlight != {} || s.phase.Draining? || s.phase.Drained?
  }

  // Nothing is lost or doubled.
  ghost predicate OnceEach(s: State) {
    multiset(s.executed) + multiset(Todo(s)) + multiset(s.list) == multiset(s.posted)
  }

  // Back-posted tasks keep their order.
  ghost predicate InOrder(s: State) {
    Backs(s.executed) + Backs(Todo(s)) + Backs(s.list) == Backs(s.posted)
  }

  ghost predicate Ok(s: State) {
    && s.pipe <= s.capacity && s.capacity > 0
    && (s.phase.Woken? ==> s.pipe > 0)
    && WakeupPending(s)
    && OnceEach(s) && InOrder(s)
  }

  lemma BacksOne(t: Task)
    ensures Backs([t]) == if t.first then [] else [t]
  {
    assert [t][..0] == [];
  }

  lemma PushKeepsOrder(s: State, t: nat, task: Task)
    requires InOrder(s) && Enabled(s, Push(t, task))
    ensures InOrder(Apply(s, Push(t, task)))
  {
    BacksConcat([task], s.list);
    BacksConcat(s.list, [task]);
    BacksConcat(s.posted, [task]);
    BacksOne(task);
    hide Backs;
    var done := Backs(s.executed) + Backs(Todo(s));
    assert done + (Backs(s.list) + Backs([task])) == (done + Backs(s.list)) + Backs([task]);
  }

  lemma PushOk(s: State, t: nat, task: Task)
    requires Ok(s) && Enabled(s, Push(t, task))
    ensures Ok(Apply(s, Push(t, task)))
  {
    hide Backs, InOrder;
    PushKeepsOrder(s, t, task);
  }

  lemma RunTaskKeepsOrder(s: State)
    requires InOrder(s) && Enabled(s, RunTask)
    ensures InOrder(Apply(s, RunTask))
  {
    hide Backs;
    var todo := s.phase.todo;
    assert todo == [todo[0]] + todo[1..];
    BacksConcat([todo[0]], todo[1..]);
    BacksConcat(s.executed, [todo[0]]);
    assert Backs(s.executed) + (Backs([todo[0]]) + Backs(todo[1..]))
        == (Backs(s.executed) + Backs([todo[0]])) + Backs(todo[1..]);
  }

  lemma RunTaskOk(s: State)
    requires Ok(s) && Enabled(s, RunTask)
    ensures Ok(Apply(s, RunTask))
  {
    hide Backs, InOrder;
    RunTaskKeepsOrder(s);
    assert s.phase.todo == [s.phase.todo[0]] + s.phase.todo[1..];
  }

  lemma SwapKeepsOrder(s: State)
    requires InOrder(s) && Enabled(s, Swap)
    ensures InOrder(Apply(s, Swap))
  {
    assert Backs([]) == [];
    hide Backs;
    assert Backs(s.executed) + [] + Backs(s.list) == Backs(s.executed) + Backs(s.list) + [];
  }

  lemma SwapOk(s: State)
    requires Ok(s) && Enabled(s, Swap)
    ensures Ok(Apply(s, Swap))
  {
    hide Backs, InOrder;
    SwapKeepsOrder(s);
    assert Todo(s) == [] && Todo(Apply(s, Swap)) == s.list;
  }

  // The steps that leave the tasks where they are.
  lemma QuietOk(s: State, e: Event)
    requires Ok(s) && Enabled(s, e) && !e.Push? && !e.RunTask? && !e.Swap?
    ensures Ok(Apply(s, e))
  {
    hide Backs;
    var s' := Apply(s, e);
    assert Todo(s') == Todo(s) && s'.list == s.list;
    assert s'.executed == s.executed && s'.posted == s.posted;
  }

  lemma ApplyOk(s: State, e: Event)
    requires Ok(s) && Enabled(s, e)
    ensures Ok(Apply(s, e))
  {
    hide Ok, Apply;
    match e
    case Push(t, task) => PushOk(s, t, task);
    case RunTask => RunTaskOk(s);
    case Swap => SwapOk(s);
    case _ => QuietOk(s, e);
  }

  lemma {:induction false} ExecOk(s: State, events: seq<Event>)
    requires Ok(s)
    ensures Ok(Exec(s, events))
  {
    if |events| != 0 {
      ExecOk(s, events[..|events| - 1]);
      var before := Exec(s, events[..|events| - 1]);
      if Enabled(before, events[|events| - 1]) {
        ApplyOk(before, events[|events| - 1]);
      }
    }
  }

  // No lost wake-up and no lost task, in every run.
  lemma NoLostWakeup(capacity: nat, events: seq<Event>)
    requires capacity > 0
    ensures var s := Exec(Init(capacity), events);
      WakeupPending(s) && OnceEach(s) && InOrder(s)
  {
    ExecOk(Init(capacity), events);
  }

  // When everybody is idle, every posted task has run exactly once, and the
  // back-posted ones have run in posting order.
  lemma IdleMeansDone(capacity: nat, events: seq<Event>)
    requires capacity > 0
    requires var s := Exec(Init(capacity), events);
      s.phase.Waiting? && s.pipe == 0 && s.inFlight == {}
    ensures var s := Exec(Init(capacity), events);
      multiset(s.executed) == multiset(s.posted) && Backs(s.executed) == Backs(s.posted)
  {
    ExecOk(Init(capacity), events);
    var s := Exec(Init(capacity), events);
    assert s.list == [] && Backs(s.list) == [];
  }

  // ---- The order in which tasks run ----

  // Everything posted, in the order in which it has run or, if nothing more is posted,
  // will run.
  function Line(s: State): seq<Task> {
    s.executed + Todo(s) + s.list
  }

  // `b` holds all of `a`, in its order.
  ghost predicate Within<T>(a: seq<T>, b: seq<T>) {
    if |a| == 0 then true
    else if |b| == 0 then false
    else (a[|a| - 1] == b[|b| - 1] && Within(a[..|a| - 1], b[..|b| - 1])) || Within(a, b[..|b| - 1])
  }

  lemma {:induction false} WithinItself<T>(a: seq<T>)
    ensures Within(a, a)
  {
    if |a| != 0 {
      WithinItself(a[..|a| - 1]);
    }
  }

  lemma {:induction false} WithinMore<T>(a: seq<T>, x: seq<T>, more: seq<T>, y: seq<T>)
    requires Within(a, x + y)
    ensures Within(a, x + more + y)
  {
    if |a| == 0 {
    } else if |y| == 0 {
      if |more| == 0 {
        assert x + more + y == x + y;
      } else {
        WithinMore(a, x, more[..|more| - 1], y);
        assert x + more + y == x + more[..|more| - 1] + y + [more[|more| - 1]];
        assert (x + more + y)[..|x + more + y| - 1] == x + more[..|more| - 1] + y;
      }
    } else {
      var z := y[..|y| - 1];
      assert (x + y)[..|x + y| - 1] == x + z && (x + y)[|x + y| - 1] == y[|y| - 1];
      var all := x + more + y;
      assert all[..|all| - 1] == x + more + z && all[|all| - 1] == y[|y| - 1];
      if a[|a| - 1] == y[|y| - 1] && Within(a[..|a| - 1], x + z) {
        WithinMore(a[..|a| - 1], x, more, z);
      } else {
        WithinMore(a, x, more, z);
      }
    }
  }

  lemma LineThroughPush(s: State, t: nat, task: Task)
    requires Enabled(s, Push(t, task))
    ensures Line(Apply(s, Push(t, task))) ==
      if task.first then s.executed + Todo(s) + [task] + s.list else Line(s) + [task]
  {
    var gone := s.executed + Todo(s);
    assert gone + ([task] + s.list) == gone + [task] + s.list;
    assert gone + (s.list + [task]) == gone + s.list + [task];
  }

  lemma LineThroughRun(s: State)
    requires Enabled(s, RunTask)
    ensures var s' := Apply(s, RunTask); s'.executed + Todo(s') == s.executed + Todo(s) && s'.list == s.list
  {
    var todo := s.phase.todo;
    assert todo == [todo[0]] + todo[1..];
    assert s.executed + [todo[0]] + todo[1..] == s.executed + ([todo[0]] + todo[1..]);
  }

  lemma LineThroughSwap(s: State)
    requires Enabled(s, Swap)
    ensures Line(Apply(s, Swap)) == Line(s) && Todo(s) == []
  {
    assert s.executed + [] + s.list == s.executed + s.list + [];
  }

  // A post puts its task in front of the list or behind it; nothing else moves anything.
  lemma LineGrows(s: State, e: Event)
    requires Enabled(s, e)
    ensures Line(Apply(s, e)) ==
      if e.Push? && e.task.first then s.executed + Todo(s) + [e.task] + s.list
      else if e.Push? then Line(s) + [e.task]
      else Line(s)
    ensures s.executed + Todo(s) <= Apply(s, e).executed + Todo(Apply(s, e))
  {
    match e
    case Push(t, task) => LineThroughPush(s, t, task);
    case RunTask => LineThroughRun(s);
    case Swap => LineThroughSwap(s);
    case _ =>
  }

  // Everything within `a` is within `b`.
  ghost predicate Covers<T(!new)>(a: seq<T>, b: seq<T>) {
    forall c: seq<T> | Within(c, a) :: Within(c, b)
  }

  lemma CoversMore<T(!new)>(x: seq<T>, more: seq<T>, y: seq<T>)
    ensures Covers(x + y, x + more + y)
  {
    forall c: seq<T> | Within(c, x + y)
      ensures Within(c, x + more + y)
    {
      WithinMore(c, x, more, y);
    }
  }

  // Something put into x + [task] + y at n goes into x or into y.
  lemma PlaceAt(x: seq<Task>, task: Task, y: seq<Task>, n: nat, more: Task) returns (x': seq<Task>, y': seq<Task>)
    requires n <= |x + [task] + y|
    ensures var line := x + [task] + y; line[..n] + [more] + line[n..] == x' + [task] + y'
    ensures Covers(x, x') && Covers(y, y')
  {
    hide Within;
    x', y' := x, y;
    var line := x + [task] + y;
    if n <= |x| {
      x' := x[..n] + [more] + x[n..];
      CoversMore(x[..n], [more], x[n..]);
      assert x == x[..n] + x[n..] && line[..n] == x[..n] && line[n..] == x[n..] + [task] + y;
    } else {
      var k := n - |x| - 1;
      y' := y[..k] + [more] + y[k..];
      CoversMore(y[..k], [more], y[k..]);
      assert y == y[..k] + y[k..] && line[..n] == x + [task] + y[..k] && line[n..] == y[k..];
    }
  }

  // The place of a task in the line: what was before it stays before it, and what was
  // behind it stays behind it.
  lemma PlaceKept(s: State, e: Event, x: seq<Task>, task: Task, y: seq<Task>) returns (x': seq<Task>, y': seq<Task>)
    requires Enabled(s, e) && Line(s) == x + [task] + y
    ensures Line(Apply(s, e)) == x' + [task] + y'
    ensures Covers(x, x') && Covers(y, y')
  {
    LineGrows(s, e);
    x', y' := x, y;
    var gone := s.executed + Todo(s);
    assert Line(s)[..|gone|] == gone && Line(s)[|gone|..] == s.list;
    hide Line, Within, Apply;
    if e.Push? && e.task.first {
      x', y' := PlaceAt(x, task, y, |gone|, e.task);
    } else if e.Push? {
      var n := |x + [task] + y|;
      x', y' := PlaceAt(x, task, y, n, e.task);
      assert Line(s)[..n] == Line(s) && Line(s)[n..] == [] && Line(s) + [e.task] + [] == Line(s) + [e.task];
    }
  }

  lemma {:induction false} PlaceKeptInRun(s: State, events: seq<Event>, x: seq<Task>, task: Task, y: seq<Task>)
    returns (x': seq<Task>, y': seq<Task>)
    requires Line(s) == x + [task] + y
    ensures Line(Exec(s, events)) == x' + [task] + y'
    ensures Covers(x, x') && Covers(y, y')
  {
    hide Line, Within, Apply, Enabled;
    if |events| == 0 {
      x', y' := x, y;
    } else {
      x', y' := PlaceKeptInRun(s, events[..|events| - 1], x, task, y);
      var before := Exec(s, events[..|events| - 1]);
      if Enabled(before, events[|events| - 1]) {
        x', y' := PlaceKept(before, events[|events| - 1], x', task, y');
      }
    }
  }

  // In every run after a front post, the task comes behind what had been swapped out
  // when it was posted and before everything that was still in the list.
  lemma FrontRunsBefore(s: State, t: nat, task: Task, events: seq<Event>) returns (x: seq<Task>, y: seq<Task>)
    requires Enabled(s, Push(t, task)) && task.first
    ensures Apply(s, Push(t, task)).list == [task] + s.list
    ensures var end := Exec(Apply(s, Push(t, task)), events);
      Line(end) == x + [task] + y && end.executed <= x + [task] + y
    ensures Within(s.executed + Todo(s), x) && Within(s.list, y)
  {
    LineGrows(s, Push(t, task));
    WithinItself(s.executed + Todo(s));
    WithinItself(s.list);
    x, y := PlaceKeptInRun(Apply(s, Push(t, task)), events, s.executed + Todo(s), task, s.list);
  }

  // In every run after a back post, the task comes behind everything posted before it.
  lemma BackRunsBehind(s: State, t: nat, task: Task, events: seq<Event>) returns (x: seq<Task>, y: seq<Task>)
    requires Enabled(s, Push(t, task)) && !task.first
    ensures Apply(s, Push(t, task)).list == s.list + [task]
    ensures var end := Exec(Apply(s, Push(t, task)), events);
      Line(end) == x + [task] + y && end.executed <= x + [task] + y
    ensures Within(Line(s), x)
  {
    LineGrows(s, Push(t, task));
    WithinItself(Line(s));
    assert Line(s) + [task] == Line(s) + [task] + [];
    x, y := PlaceKeptInRun(Apply(s, Push(t, task)), events, Line(s), task, []);
  }

  // ---- Progress ----

  function Rank(s: State): nat
    requires s.phase.Woken? ==> s.pipe > 0
  {
    11 * |s.inFlight| + 10 * s.pipe + 2 * |s.list| + match s.phase
      case Waiting => 0
      case Woken => -1
      case Draining => 3
      case Drained => 2
      case Running(todo) => 1 + |todo|
  }

  // Unless something new is posted, every step brings the end nearer.
  lemma ProgressDescends(s: State, e: Event)
    requires Ok(s) && !e.Push? && Enabled(s, e)
    ensures Ok(Apply(s, e)) && Rank(Apply(s, e)) < Rank(s)
    ensures Apply(s, e).posted == s.posted && Apply(s, e).inFlight <= s.inFlight
  {
    ApplyOk(s, e);
    hide Backs, OnceEach, InOrder, WakeupPending;
    if e.WritePipe? {
      assert |s.inFlight - {e.thread}| == |s.inFlight| - 1;
    }
  }

  ghost predicate Done(s: State) {
    s.phase.Waiting? && s.list == [] && s.inFlight == {}
  }

  // The poller thread waits for room in the pipe that only it can empty.
  predicate Stuck(s: State) {
    POLLER in s.inFlight && s.pipe == s.capacity
  }

  lemma StuckCannotMove(s: State, e: Event)
    requires Stuck(s) && !e.Push?
    ensures !Enabled(s, e)
  {
  }

  lemma SomeoneCanMove(s: State) returns (e: Event)
    requires Ok(s) && !Done(s) && !Stuck(s)
    ensures !e.Push? && Enabled(s, e)
    ensures !Stuck(Apply(s, e))
  {
    hide Backs, OnceEach, InOrder;
    if POLLER in s.inFlight {
      e := WritePipe(POLLER);
    } else if s.inFlight != {} && s.pipe < s.capacity {
      var t :| t in s.inFlight;
      e := WritePipe(t);
    } else {
      match s.phase
      case Waiting => e := Wake;
      case Woken => e := Read(1);
      case Draining => e := if s.pipe > 0 then Read(1) else ReadWouldBlock;
      case Drained => e := Swap;
      case Running(todo) => e := if todo == [] then Finish else RunTask;
    }
  }

  // A state that is not finished can go on without new posts if and only if the
  // poller does not wait for itself.
  lemma CanMoveIff(s: State)
    requires Ok(s) && !Done(s)
    ensures (exists e: Event :: !e.Push? && Enabled(s, e)) <==> !Stuck(s)
  {
    hide Enabled, Stuck, Done, Ok;
    if Stuck(s) {
      forall e: Event | !e.Push?
        ensures !Enabled(s, e)
      {
        StuckCannotMove(s, e);
      }
    } else {
      var e := SomeoneCanMove(s);
    }
  }

  // From every state in which the poller does not wait for itself, the threads
  // under way finish their writes and the poller runs everything that was posted.
  lemma {:induction false} EverythingRuns(s: State) returns (events: seq<Event>)
    requires Ok(s) && !Stuck(s)
    ensures forall e :: e in events ==> !e.Push?
    ensures var end := Exec(s, events);
      && Done(end) && end.posted == s.posted
      && multiset(end.executed) == multiset(s.posted) && Backs(end.executed) == Backs(s.posted)
    decreases Rank(s)
  {
    if Done(s) {
      events := [];
      assert Backs(s.list) == [];
    } else {
      hide Backs, Done, Enabled, Apply, Stuck;
      var e := SomeoneCanMove(s);
      ProgressDescends(s, e);
      var rest := EverythingRuns(Apply(s, e));
      events := [e] + rest;
      ExecCons(s, e, rest);
    }
  }

  // While the pipe has room for everybody under way, no schedule ends with the
  // poller waiting for itself; together with ProgressDescends and CanMoveIff, every
  // schedule then runs everything.
  lemma {:induction false} RoomKeepsMoving(s: State, events: seq<Event>)
    requires s.pipe + |s.inFlight| <= s.capacity && forall e :: e in events ==> !e.Push?
    ensures var end := Exec(s, events);
      end.pipe + |end.inFlight| <= end.capacity && !Stuck(end)
  {
    if |events| == 0 {
      RoomIsNotStuck(s);
    } else {
      RoomKeepsMoving(s, events[..|events| - 1]);
      var before, e := Exec(s, events[..|events| - 1]), events[|events| - 1];
      assert e in events;
      if e.WritePipe? && Enabled(before, e) {
        assert |before.inFlight - {e.thread}| == |before.inFlight| - 1;
      }
      RoomIsNotStuck(Exec(s, events));
    }
  }

  lemma RoomIsNotStuck(s: State)
    requires s.pipe + |s.inFlight| <= s.capacity
    ensures !Stuck(s)
  {
    if POLLER in s.inFlight {
      assert |s.inFlight| > 0;
    }
  }

  // A poller that never posts to itself never waits for itself.
  lemma {:induction false} OthersCannotStick(capacity: nat, events: seq<Event>)
    requires capacity > 0 && forall e :: e in events && e.Push? ==> e.thread != POLLER
    ensures POLLER !in Exec(Init(capacity), events).inFlight && !Stuck(Exec(Init(capacity), events))
  {
    if |events| != 0 {
      OthersCannotStick(capacity, events[..|events| - 1]);
      assert events[|events| - 1] in events;
    }
  }

  // One that does can: another thread fills the pipe and the poller posts.
  lemma {:induction false} FillPipe(capacity: nat, task: Task, n: nat) returns (events: seq<Event>)
    requires 0 < capacity && n <= capacity
    ensures var s := Exec(Init(capacity), events);
      s.pipe == n && s.inFlight == {} && s.capacity == capacity && s.phase.Waiting?
  {
    if n == 0 {
      events := [];
    } else {
      var before := FillPipe(capacity, task, n - 1);
      events := before + [Push(1, task)] + [WritePipe(1)];
      var s := Exec(Init(capacity), before);
      ExecSnoc(Init(capacity), before, Push(1, task));
      ExecSnoc(Init(capacity), before + [Push(1, task)], WritePipe(1));
      assert Apply(s, Push(1, task)).inFlight == {1};
    }
  }

  lemma PollerBlocksItself(capacity: nat, task: Task) returns (events: seq<Event>)
    requires capacity > 0
    ensures Stuck(Exec(Init(capacity), events)) && task in Exec(Init(capacity), events).list
  {
    var before := FillPipe(capacity, task, capacity);
    events := before + [Push(POLLER, task)];
    ExecSnoc(Init(capacity), before, Push(POLLER, task));
  }

  lemma ExecSnoc(s: State, events: seq<Event>, e: Event)
    ensures var before := Exec(s, events);
      Exec(s, events + [e]) == if Enabled(before, e) then Apply(before, e) else before
  {
    hide Enabled, Apply;
    assert (events + [e])[..|events|] == events;
  }

  lemma {:induction false} ExecCons(s: State, e: Event, rest: seq<Event>)
    requires Enabled(s, e)
    ensures Exec(s, [e] + rest) == Exec(Apply(s, e), rest)
  {
    if |rest| == 0 {
      assert ([e] + rest)[..0] == [] && [e] + rest == [e];
      assert Exec(s, [e][..0]) == s;
    } else {
      var n := |rest| - 1;
      ExecCons(s, e, rest[..n]);
      assert ([e] + rest)[..|[e] + rest| - 1] == [e] + rest[..n];
      assert ([e] + rest)[|[e] + rest| - 1] == rest[n];
    }
  }
}

// The two functions themselves, each shown to perform exactly the machine's
// steps when nobody runs in between.
module EventPollerTasks {
  import opened PollerWakeup

  class EventPoller {
    var listTask: seq<Task>
    var pipe: nat
    const capacity: nat
    ghost var inFlight: set<nat>
    ghost var phase: Phase
    ghost var posted: seq<Task>
    var executed: seq<Task>

    ghost function Value(): State
      reads this
    {
      State(listTask, pipe, capacity, inFlight, phase, posted, executed)
    }

    constructor (capacity: nat)
      requires capacity > 0
      ensures Value() == Init(capacity)
    {
      this.capacity := capacity;
      listTask, pipe, executed := [], 0, [];
      inFlight, phase, posted := {}, Waiting, [];
    }

    // async_l up to its pipe write, and the write unless the pipe is full.
    method AsyncL(task: Task, ghost thread: nat) returns (blocked: bool)
      requires thread !in inFlight
      modifies this
      ensures blocked <==> old(pipe) >= capacity
      ensures var steps := if blocked then [Push(thread, task)] else [Push(thread, task), WritePipe(thread)];
        Value() == Exec(old(Value()), steps)
      ensures listTask == if task.first then [task] + old(listTask) else old(listTask) + [task]
    {
      if task.first {
        listTask := [task] + listTask;
      } else {
        listTask := listTask + [task];
      }
      inFlight, posted := inFlight + {thread}, posted + [task];
      ExecOne(old(Value()), Push(thread, task));
      blocked := pipe >= capacity;
      if !blocked {
        ExecSnoc(old(Value()), [Push(thread, task)], WritePipe(thread));
        assert [Push(thread, task)] + [WritePipe(thread)] == [Push(thread, task), WritePipe(thread)];
        pipe := pipe + 1;
        inFlight := inFlight - {thread};
      }
    }

    // The write that was blocked goes through once there is room.
    method Unblock(ghost thread: nat)
      requires thread in inFlight && pipe < capacity
      modifies this`pipe, this`inFlight
      ensures Value() == Exec(old(Value()), [WritePipe(thread)])
    {
      ExecOne(Value(), WritePipe(thread));
      pipe := pipe + 1;
      inFlight := inFlight - {thread};
    }

    // onPipeEvent, up to the swap: read until the pipe would block.
    method DrainPipe(ghost start: State) returns (ghost steps: seq<Event>)
      requires Value() == start && phase.Woken? && pipe > 0 && POLLER !in inFlight
      modifies this`pipe, this`phase
      ensures Value() == Exec(start, steps) && forall e :: e in steps ==> IsPollerEvent(e)
      ensures phase.Drained? && pipe == 0
    {
      hide Exec;
      steps := [];
      ExecNone(start);
      while true
        invariant Value() == Exec(start, steps) && forall e :: e in steps ==> IsPollerEvent(e)
        invariant phase.Draining? || (phase.Woken? && pipe > 0)
        decreases pipe
      {
        if pipe == 0 {
          break;
        }
        var n: nat :| 0 < n <= pipe && n <= 1024;
        ExecSnoc(start, steps, Read(n));
        pipe, phase, steps := pipe - n, Draining, steps + [Read(n)];
      }
      ExecSnoc(start, steps, ReadWouldBlock);
      phase, steps := Drained, steps + [ReadWouldBlock];
    }

    // onPipeEvent, from the swap on.
    method RunSwapped(ghost start: State, ghost before: seq<Event>) returns (ghost steps: seq<Event>)
      requires Value() == Exec(start, before) && phase.Drained? && POLLER !in inFlight
      requires forall e :: e in before ==> IsPollerEvent(e)
      modifies this`listTask, this`phase, this`executed
      ensures Value() == Exec(start, steps) && forall e :: e in steps ==> IsPollerEvent(e)
      ensures phase.Waiting? && listTask == [] && executed == old(executed) + old(listTask)
    {
      hide Exec;
      steps := before;
      var listSwap := listTask;
      listTask := [];
      ExecSnoc(start, steps, Swap);
      phase, steps := Running(listSwap), steps + [Swap];
      for i := 0 to |listSwap|
        invariant Value() == Exec(start, steps) && forall e :: e in steps ==> IsPollerEvent(e)
        invariant phase == Running(listSwap[i..]) && listTask == []
        invariant executed == old(executed) + listSwap[..i]
      {
        ExecSnoc(start, steps, RunTask);
        assert listSwap[..i + 1] == listSwap[..i] + [listSwap[i]];
        executed := executed + [listSwap[i]];
        phase, steps := Running(listSwap[i + 1..]), steps + [RunTask];
      }
      ExecSnoc(start, steps, Finish);
      phase, steps := Waiting, steps + [Finish];
    }

    method OnPipeEvent() returns (ghost steps: seq<Event>)
      requires Ok(Value()) && phase.Woken? && POLLER !in inFlight
      modifies this
      ensures Value() == Exec(old(Value()), steps) && forall e :: e in steps ==> IsPollerEvent(e)
      ensures phase.Waiting? && pipe == 0 && listTask == []
      ensures executed == old(executed) + old(listTask)
    {
      steps := DrainPipe(Value());
      steps := RunSwapped(old(Value()), steps);
    }
  }

  lemma ExecNone(s: State)
    ensures Exec(s, []) == s
  {
  }

  lemma ExecOne(s: State, e: Event)
    ensures Exec(s, [e]) == if Enabled(s, e) then Apply(s, e) else s
  {
    ExecSnoc(s, [], e);
    assert [] + [e] == [e];
  }
}
