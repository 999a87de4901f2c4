// Delayed tasks: src/Poller/EventPoller.cpp, flushDelayTask, getMinDelay and
// doDelayTask.

module TimerSpec {
  import opened Arithmetic

  datatype Timer = Timer(deadline: nat, task: nat)

  // A multimap ordered by deadline; equal deadlines keep insertion order.
  predicate Sorted(m: seq<Timer>) {
    forall i, j :: 0 <= i < j < |m| ==> m[i].deadline <= m[j].deadline
  }

  // Where multimap::emplace puts a new entry: behind its equals.
  function UpperBound(m: seq<Timer>, deadline: nat): (k: nat)
    ensures k <= |m|
    ensures forall i :: k <= i < |m| ==> m[i].deadline > deadline
    ensures k > 0 ==> m[k - 1].deadline <= deadline
  {
    if |m| == 0 || m[|m| - 1].deadline <= deadline then |m| else UpperBound(m[..|m| - 1], deadline)
  }

  function Emplace(m: seq<Timer>, t: Timer): seq<Timer> {
    var k := UpperBound(m, t.deadline);
    m[..k] + [t] + m[k..]
  }

  lemma EmplaceAdds(m: seq<Timer>, t: Timer)
    ensures multiset(Emplace(m, t)) == multiset(m) + multiset{t}
  {
    var k := UpperBound(m, t.deadline);
    assert m == m[..k] + m[k..];
  }

  lemma EmplaceSorts(m: seq<Timer>, t: Timer)
    requires Sorted(m)
    ensures Sorted(Emplace(m, t))
  {
    var k := UpperBound(m, t.deadline);
    var r := Emplace(m, t);
    forall i, j | 0 <= i < j < |r|
      ensures r[i].deadline <= r[j].deadline
    {
      if i < k && k <= j {
        assert m[i].deadline <= m[k - 1].deadline;
      }
    }
  }

  // The timers of one deadline, in the order in which the map runs them.
  function Equals(m: seq<Timer>, deadline: nat): seq<Timer> {
    if |m| == 0 then []
    else
      var last := m[|m| - 1];
      Equals(m[..|m| - 1], deadline) + (if last.deadline == deadline then [last] else [])
  }

  lemma {:induction false} EqualsConcat(a: seq<Timer>, b: seq<Timer>, deadline: nat)
    ensures Equals(a + b, deadline) == Equals(a, deadline) + Equals(b, deadline)
  {
    if |b| == 0 {
      assert a + b == a;
    } else {
      var n := |b| - 1;
      EqualsConcat(a, b[..n], deadline);
      assert (a + b)[..|a + b| - 1] == a + b[..n] && (a + b)[|a + b| - 1] == b[n];
    }
  }

  lemma {:induction false} NoEquals(m: seq<Timer>, deadline: nat)
    requires forall i | 0 <= i < |m| :: m[i].deadline != deadline
    ensures Equals(m, deadline) == []
  {
    if |m| > 0 {
      NoEquals(m[..|m| - 1], deadline);
    }
  }

  lemma EqualsOne(t: Timer, deadline: nat)
    ensures Equals([t], deadline) == if t.deadline == deadline then [t] else []
  {
    assert [t][..0] == [];
  }

  lemma EmplaceSplits(m: seq<Timer>, t: Timer) returns (a: seq<Timer>, b: seq<Timer>)
    ensures m == a + b && Emplace(m, t) == a + [t] + b && forall i | 0 <= i < |b| :: b[i].deadline > t.deadline
  {
    var k := UpperBound(m, t.deadline);
    a, b := m[..k], m[k..];
  }

  // A new entry comes behind its equals, and every other deadline is left as it was.
  lemma EmplaceIsStable(m: seq<Timer>, t: Timer, deadline: nat)
    ensures Equals(Emplace(m, t), deadline) == Equals(m, deadline) + (if t.deadline == deadline then [t] else [])
  {
    var a, b := EmplaceSplits(m, t);
    hide Equals, Emplace;
    EqualsOne(t, deadline);
    EqualsConcat(a + [t], b, deadline);
    EqualsConcat(a, [t], deadline);
    EqualsConcat(a, b, deadline);
    var before := Equals(a, deadline);
    if t.deadline == deadline {
      NoEquals(b, deadline);
      assert before + [t] + [] == before + [] + [t];
    } else {
      assert before + [] + Equals(b, deadline) == before + Equals(b, deadline) + [];
    }
  }

  // Entries inserted one after the other.
  function EmplaceAll(m: seq<Timer>, entries: seq<Timer>): seq<Timer> {
    if |entries| == 0 then m else Emplace(EmplaceAll(m, entries[..|entries| - 1]), entries[|entries| - 1])
  }

  lemma {:induction false} EmplaceAllSorts(m: seq<Timer>, entries: seq<Timer>)
    requires Sorted(m)
    ensures Sorted(EmplaceAll(m, entries)) && multiset(EmplaceAll(m, entries)) == multiset(m) + multiset(entries)
  {
    hide Sorted, Emplace;
    if |entries| != 0 {
      var most, last := entries[..|entries| - 1], entries[|entries| - 1];
      EmplaceAllSorts(m, most);
      EmplaceSorts(EmplaceAll(m, most), last);
      EmplaceAdds(EmplaceAll(m, most), last);
      assert entries == most + [last];
    }
  }

  lemma {:induction false} EmplaceAllIsStable(m: seq<Timer>, entries: seq<Timer>, deadline: nat)
    ensures Equals(EmplaceAll(m, entries), deadline) == Equals(m, deadline) + Equals(entries, deadline)
  {
    hide Emplace;
    if |entries| != 0 {
      var most, last := entries[..|entries| - 1], entries[|entries| - 1];
      EmplaceAllIsStable(m, most, deadline);
      EmplaceIsStable(EmplaceAll(m, most), last, deadline);
    }
  }

  lemma {:induction false} EmplaceAllConcat(m: seq<Timer>, a: seq<Timer>, b: seq<Timer>)
    ensures EmplaceAll(m, a + b) == EmplaceAll(EmplaceAll(m, a), b)
  {
    hide Emplace;
    if |b| == 0 {
      assert a + b == a;
    } else {
      var n := |b| - 1;
      EmplaceAllConcat(m, a, b[..n]);
      assert (a + b)[..|a + b| - 1] == a + b[..n] && (a + b)[|a + b| - 1] == b[n];
    }
  }

  lemma FromNothing(entries: seq<Timer>, deadline: nat)
    ensures Sorted(EmplaceAll([], entries)) && multiset(EmplaceAll([], entries)) == multiset(entries)
    ensures Equals(EmplaceAll([], entries), deadline) == Equals(entries, deadline)
  {
    assert Sorted([]) && Equals([], deadline) == [];
    hide Sorted, EmplaceAll, Equals;
    EmplaceAllSorts([], entries);
    EmplaceAllIsStable([], entries, deadline);
    assert [] + Equals(entries, deadline) == Equals(entries, deadline);
  }

  // Merging what a flush has entered into the undue timers keeps, for every deadline,
  // the order of insertion.
  lemma MergeIsStable(undue: seq<Timer>, entries: seq<Timer>, deadline: nat)
    requires Sorted(undue)
    ensures var merged := EmplaceAll(undue, EmplaceAll([], entries));
      && Sorted(merged) && multiset(merged) == multiset(undue) + multiset(entries)
      && Equals(merged, deadline) == Equals(undue, deadline) + Equals(entries, deadline)
  {
    hide Sorted, EmplaceAll, Equals;
    FromNothing(entries, deadline);
    EmplaceAllSorts(undue, EmplaceAll([], entries));
    EmplaceAllIsStable(undue, EmplaceAll([], entries), deadline);
  }

  // A call of doDelayTask: the delay asked for, and what the clock says.
  datatype Call = Call(task: nat, delay: nat, current: nat)

  function Deadline(c: Call): Timer {
    Timer((c.current + c.delay) % TWO64, c.task)
  }

  // The timer of a call is due once the delay is over, and carries the call's task.
  lemma DueIffDelayOver(c: Call, now: nat)
    requires c.current + c.delay < TWO64
    ensures Deadline(c).task == c.task
    ensures Deadline(c).deadline <= now <==> now - c.current >= c.delay
  {
  }

  function Deadlines(calls: seq<Call>): seq<Timer> {
    if |calls| == 0 then [] else Deadlines(calls[..|calls| - 1]) + [Deadline(calls[|calls| - 1])]
  }

  // What a callback does: the timers it adds, and then the delay it returns or an
  // exception.
  datatype Outcome = Threw | Next(delay: nat)
  datatype Response = Response(calls: seq<Call>, outcome: Outcome)
  datatype Run = Run(timer: Timer, response: Response)

  // The timers one run leaves behind. Time is counted modulo 2^64.
  function Rescheduled(r: Run, now: nat): seq<Timer> {
    var outcome := r.response.outcome;
    if outcome.Next? && outcome.delay != 0 then [Timer((outcome.delay + now) % TWO64, r.timer.task)] else []
  }

  // A task that asks to run again after d milliseconds is due once they are over.
  lemma RepeatsAfterDelay(r: Run, now: nat, later: nat)
    requires r.response.outcome.Next? && now + r.response.outcome.delay < TWO64
    ensures r.response.outcome.delay == 0 ==> Rescheduled(r, now) == []
    ensures r.response.outcome.delay > 0 ==>
      && |Rescheduled(r, now)| == 1 && Rescheduled(r, now)[0].task == r.timer.task
      && (Rescheduled(r, now)[0].deadline <= later <==> later - now >= r.response.outcome.delay)
  {
  }

  // One that throws or returns 0 does not.
  lemma ThrownIsNotRepeated(r: Run, now: nat)
    requires r.response.outcome.Threw?
    ensures Rescheduled(r, now) == []
  {
  }

  function Inserted(log: seq<Run>, now: nat): seq<Timer> {
    if |log| == 0 then []
    else
      var r := log[|log| - 1];
      Inserted(log[..|log| - 1], now) + Deadlines(r.response.calls) + Rescheduled(r, now)
  }

  // The first k timers ran, once each and in order, and did what the plan says.
  ghost predicate Ran(log: seq<Run>, m: seq<Timer>, plan: nat -> Response, k: nat) {
    k <= |m| && |log| == k && forall i :: 0 <= i < k ==> log[i] == Run(m[i], plan(i))
  }

  function DueCount(m: seq<Timer>, now: nat): (k: nat)
    ensures k <= |m| && forall i :: 0 <= i < k ==> m[i].deadline <= now
    ensures k < |m| ==> m[k].deadline > now
  {
    if |m| > 0 && m[0].deadline <= now then 1 + DueCount(m[1..], now) else 0
  }

  lemma RanSnoc(log: seq<Run>, m: seq<Timer>, plan: nat -> Response)
    requires Ran(log, m, plan, |log|) && |log| < |m|
    ensures Ran(log + [Run(m[|log|], plan(|log|))], m, plan, |log| + 1)
  {
  }

  // In a sorted map the due timers are exactly the first DueCount ones.
  lemma DueIsPrefix(m: seq<Timer>, now: nat, i: nat)
    requires Sorted(m) && i < |m|
    ensures m[i].deadline <= now <==> i < DueCount(m, now)
  {
  }

  function Distance(m: seq<Timer>, now: nat): nat {
    if |m| == 0 then 0 else (m[0].deadline - now) % TWO64
  }

  // What runLoop relies on: 0 stands for "no timer", anything else is how long
  // it may sleep.
  predicate DelayCorrect(delay: nat, m: seq<Timer>, now: nat) {
    if |m| == 0 then delay == 0 else 0 < delay == m[0].deadline - now
  }
}

module EventPollerTimers {
  import opened Arithmetic
  import opened TimerSpec

  class EventPoller {
    var delayTaskMap: seq<Timer>
    var posted: seq<Timer> // insertions waiting in the task list

    constructor ()
      ensures delayTaskMap == [] && posted == []
    {
      delayTaskMap, posted := [], [];
    }

    // The insertion that doDelayTask performs on the poller thread.
    method Enter(timer: Timer)
      requires Sorted(delayTaskMap)
      modifies this`delayTaskMap
      ensures Sorted(delayTaskMap)
      ensures delayTaskMap == Emplace(old(delayTaskMap), timer)
      ensures multiset(delayTaskMap) == multiset(old(delayTaskMap)) + multiset{timer}
    {
      EmplaceAdds(delayTaskMap, timer);
      EmplaceSorts(delayTaskMap, timer);
      delayTaskMap := Emplace(delayTaskMap, timer);
    }

    // doDelayTask: the deadline is set at once. The timer is entered at once on the
    // poller thread, and otherwise posted in front of the task list.
    method DoDelayTask(call: Call, onPoller: bool)
      requires Sorted(delayTaskMap)
      modifies this
      ensures Sorted(delayTaskMap)
      ensures multiset(delayTaskMap)
           == multiset(old(delayTaskMap)) + if onPoller then multiset{Deadline(call)} else multiset{}
      ensures delayTaskMap == if onPoller then Emplace(old(delayTaskMap), Deadline(call)) else old(delayTaskMap)
      ensures posted == if onPoller then old(posted) else [Deadline(call)] + old(posted)
    {
      var timer := Deadline(call);
      if onPoller {
        Enter(timer);
      } else {
        posted := [timer] + posted;
      }
    }

    // The poller runs the posted insertions.
    method RunPosted()
      requires Sorted(delayTaskMap)
      modifies this
      ensures Sorted(delayTaskMap) && posted == []
      ensures multiset(delayTaskMap) == multiset(old(delayTaskMap)) + multiset(old(posted))
      ensures delayTaskMap == EmplaceAll(old(delayTaskMap), old(posted))
    {
      hide Sorted, Emplace;
      ghost var all, done := posted, 0;
      while posted != []
        invariant Sorted(delayTaskMap) && 0 <= done <= |all| && posted == all[done..]
        invariant delayTaskMap == EmplaceAll(old(delayTaskMap), all[..done])
        invariant multiset(delayTaskMap) + multiset(posted) == multiset(old(delayTaskMap)) + multiset(old(posted))
        decreases |posted|
      {
        assert posted == [posted[0]] + posted[1..];
        var timer := posted[0];
        posted := posted[1..];
        assert all[..done + 1][..done] == all[..done];
        Enter(timer);
        done := done + 1;
      }
      assert all[..done] == all;
    }

    // A callback that does what `response` says.
    method RunCallback(timer: Timer, response: Response) returns (run: Run)
      requires Sorted(delayTaskMap)
      modifies this`delayTaskMap
      ensures run == Run(timer, response) && Sorted(delayTaskMap)
      ensures multiset(delayTaskMap) == multiset(old(delayTaskMap)) + multiset(Deadlines(response.calls))
      ensures delayTaskMap == EmplaceAll(old(delayTaskMap), Deadlines(response.calls))
    {
      hide Sorted, Deadline, Deadlines, Emplace;
      var calls := response.calls;
      DeadlinesNone();
      assert calls[..0] == [];
      for i := 0 to |calls|
        invariant Sorted(delayTaskMap)
        invariant multiset(delayTaskMap) == multiset(old(delayTaskMap)) + multiset(Deadlines(calls[..i]))
        invariant delayTaskMap == EmplaceAll(old(delayTaskMap), Deadlines(calls[..i]))
      {
        DeadlinesSnoc(calls, i);
        EmplaceAllSnoc(old(delayTaskMap), Deadlines(calls[..i]), Deadline(calls[i]));
        Enter(Deadline(calls[i]));
      }
      assert calls[..|calls|] == calls;
      return Run(timer, response);
    }

    // One turn of that loop: the callback runs, and a repetition is entered.
    method RunOne(timer: Timer, response: Response, now: nat) returns (run: Run)
      requires Sorted(delayTaskMap)
      modifies this`delayTaskMap
      ensures run == Run(timer, response) && Sorted(delayTaskMap)
      ensures multiset(delayTaskMap)
           == multiset(old(delayTaskMap)) + multiset(Deadlines(response.calls) + Rescheduled(run, now))
      ensures delayTaskMap == EmplaceAll(old(delayTaskMap), Deadlines(response.calls) + Rescheduled(run, now))
    {
      hide Sorted, Deadlines, Emplace;
      run := RunCallback(timer, response);
      var outcome := response.outcome;
      if outcome.Next? && outcome.delay != 0 {
        EmplaceAllSnoc(old(delayTaskMap), Deadlines(response.calls), Rescheduled(run, now)[0]);
        Enter(Timer((outcome.delay + now) % TWO64, timer.task));
      } else {
        assert Deadlines(response.calls) + [] == Deadlines(response.calls);
      }
    }

    // The first loop of flushDelayTask: everything due in the copy runs once,
    // while the map collects what the callbacks and their repetitions add.
    // `plan` says what the i-th callback does; it is arbitrary.
    method RunDue(m: seq<Timer>, now: nat, plan: nat -> Response) returns (taskCopy: seq<Timer>, log: seq<Run>)
      requires Sorted(m) && delayTaskMap == []
      modifies this`delayTaskMap
      ensures var k := DueCount(m, now);
        && taskCopy == m[k..]
        && Ran(log, m, plan, k)
      ensures Sorted(delayTaskMap) && multiset(delayTaskMap) == multiset(Inserted(log, now))
      ensures delayTaskMap == EmplaceAll([], Inserted(log, now))
    {
      assert Sorted(delayTaskMap);
      assert Ran([], m, plan, 0);
      hide Inserted, Sorted, Deadlines, Rescheduled, Ran, Emplace;
      taskCopy := m;
      log := [];
      InsertedNone(now);
      while taskCopy != [] && taskCopy[0].deadline <= now
        invariant |log| <= DueCount(m, now) && taskCopy == m[|log|..]
        invariant Ran(log, m, plan, |log|)
        invariant Sorted(delayTaskMap) && multiset(delayTaskMap) == multiset(Inserted(log, now))
        invariant delayTaskMap == EmplaceAll([], Inserted(log, now))
        decreases |taskCopy|
      {
        DueIsPrefix(m, now, |log|);
        var run := RunOne(taskCopy[0], plan(|log|), now);
        InsertedSnoc(log, run, now);
        EmplaceAllConcat([], Inserted(log, now), Deadlines(run.response.calls) + Rescheduled(run, now));
        RanSnoc(log, m, plan);
        log := log + [run];
        taskCopy := taskCopy[1..];
      }
    }

    // The range insertion of one map into another.
    static method Merge(into: seq<Timer>, from: seq<Timer>) returns (merged: seq<Timer>)
      requires Sorted(into)
      ensures Sorted(merged) && multiset(merged) == multiset(into) + multiset(from)
      ensures merged == EmplaceAll(into, from)
    {
      hide Sorted, Emplace;
      merged := into;
      for i := 0 to |from|
        invariant Sorted(merged) && multiset(merged) == multiset(into) + multiset(from[..i])
        invariant merged == EmplaceAll(into, from[..i])
      {
        EmplaceAllSnoc(into, from[..i], from[i]);
        assert from[..i + 1] == from[..i] + [from[i]];
        EmplaceAdds(merged, from[i]);
        EmplaceSorts(merged, from[i]);
        merged := Emplace(merged, from[i]);
      }
      assert from[..|from|] == from;
    }

    // flushDelayTask up to the merged map.
    method RunAndMerge(now: nat, plan: nat -> Response) returns (log: seq<Run>)
      requires Sorted(delayTaskMap)
      modifies this`delayTaskMap
      ensures var m := old(delayTaskMap);
        var k := DueCount(m, now);
        && Ran(log, m, plan, k)
        && multiset(delayTaskMap) == multiset(m[k..]) + multiset(Inserted(log, now))
        && delayTaskMap == EmplaceAll(m[k..], EmplaceAll([], Inserted(log, now)))
      ensures Sorted(delayTaskMap)
    {
      SortedTail(delayTaskMap, DueCount(delayTaskMap, now));
      hide Inserted, Sorted, Ran, DueCount, Emplace, EmplaceAll;
      var taskCopy := delayTaskMap;
      delayTaskMap := [];
      taskCopy, log := RunDue(taskCopy, now, plan);
      delayTaskMap := Merge(taskCopy, delayTaskMap);
    }

    method FlushDelayTask(now: nat, plan: nat -> Response) returns (delay: nat, log: seq<Run>)
      requires Sorted(delayTaskMap) && now < TWO64
      modifies this`delayTaskMap
      ensures var m := old(delayTaskMap);
        var k := DueCount(m, now);
        && Ran(log, m, plan, k)
        && multiset(delayTaskMap) == multiset(m[k..]) + multiset(Inserted(log, now))
        && delayTaskMap == EmplaceAll(m[k..], EmplaceAll([], Inserted(log, now)))
      ensures Sorted(delayTaskMap)
      ensures delay == Distance(delayTaskMap, now)
    {
      hide Inserted, Sorted, Ran, DueCount, Emplace, EmplaceAll;
      log := RunAndMerge(now, plan);
      if delayTaskMap == [] {
        return 0, log;
      }
      return (delayTaskMap[0].deadline - now) % TWO64, log;
    }

    method GetMinDelay(now: nat, plan: nat -> Response) returns (delay: nat, log: seq<Run>)
      requires Sorted(delayTaskMap) && now < TWO64
      requires forall t :: t in delayTaskMap ==> t.deadline < TWO64
      modifies this`delayTaskMap
      ensures Sorted(delayTaskMap)
      ensures delay == Distance(delayTaskMap, now)
      ensures var m := old(delayTaskMap);
        var k := DueCount(m, now);
        && Ran(log, m, plan, k)
        && multiset(delayTaskMap) == multiset(m[k..]) + multiset(Inserted(log, now))
        && delayTaskMap == EmplaceAll(m[k..], EmplaceAll([], Inserted(log, now)))
    {
      if delayTaskMap == [] {
        return 0, [];
      }
      if delayTaskMap[0].deadline > now {
        assert delayTaskMap[0] in delayTaskMap;
        assert delayTaskMap[0..] == delayTaskMap;
        return delayTaskMap[0].deadline - now, [];
      }
      delay, log := FlushDelayTask(now, plan);
    }
  }

  lemma EmplaceAllSnoc(m: seq<Timer>, entries: seq<Timer>, t: Timer)
    ensures EmplaceAll(m, entries + [t]) == Emplace(EmplaceAll(m, entries), t)
  {
    hide Emplace;
    assert (entries + [t])[..|entries|] == entries;
  }

  lemma SortedTail(m: seq<Timer>, k: nat)
    requires Sorted(m) && k <= |m|
    ensures Sorted(m[k..])
  {
  }

  lemma DeadlinesNone()
    ensures Deadlines([]) == []
  {
  }

  lemma DeadlinesSnoc(calls: seq<Call>, i: nat)
    requires i < |calls|
    ensures Deadlines(calls[..i + 1]) == Deadlines(calls[..i]) + [Deadline(calls[i])]
  {
    assert calls[..i + 1][..i] == calls[..i];
  }

  lemma InsertedNone(now: nat)
    ensures Inserted([], now) == []
  {
  }

  lemma InsertedSnoc(log: seq<Run>, run: Run, now: nat)
    ensures Inserted(log + [run], now) == Inserted(log, now) + (Deadlines(run.response.calls) + Rescheduled(run, now))
  {
    assert (log + [run])[..|log|] == log;
  }

  lemma SameElements(whole: seq<Timer>, a: seq<Timer>, b: seq<Timer>)
    requires multiset(whole) == multiset(a) + multiset(b)
    ensures forall t :: t in whole <==> t in a || t in b
  {
    forall t
      ensures t in whole <==> t in a || t in b
    {
      assert t in whole <==> t in multiset(whole);
      assert t in a <==> t in multiset(a);
      assert t in b <==> t in multiset(b);
    }
  }

  lemma FirstDecides(m: seq<Timer>, now: nat)
    requires now < TWO64 && (|m| > 0 ==> m[0].deadline < TWO64)
    ensures DelayCorrect(Distance(m, now), m, now) <==> |m| == 0 || m[0].deadline > now
  {
  }

  // What a flush enters: for every task it ran, the timers of the task's own calls and
  // the repetition it asked for, and nothing else.
  lemma {:induction false} InsertedIff(log: seq<Run>, now: nat, t: Timer)
    ensures t in Inserted(log, now) <==> exists i | 0 <= i < |log| :: EnteredBy(log[i], now, t)
  {
    if |log| > 0 {
      var most, r := log[..|log| - 1], log[|log| - 1];
      InsertedIff(most, now, t);
      InDeadlines(r.response.calls, t);
      hide Inserted, Deadlines, Rescheduled, EnteredBy;
      InsertedSnoc(most, r, now);
      assert most + [r] == log;
      EnteredIff(r, now, t);
      assert EnteredBy(r, now, t) ==> EnteredBy(log[|log| - 1], now, t);
      assert forall i | 0 <= i < |most| :: most[i] == log[i];
    }
  }

  ghost predicate EnteredBy(r: Run, now: nat, t: Timer) {
    || (exists c | c in r.response.calls :: t == Timer((c.current + c.delay) % TWO64, c.task))
    || (r.response.outcome.Next? && r.response.outcome.delay > 0
        && t == Timer((now + r.response.outcome.delay) % TWO64, r.timer.task))
  }

  lemma EnteredIff(r: Run, now: nat, t: Timer)
    ensures EnteredBy(r, now, t) <==> t in Deadlines(r.response.calls) || t in Rescheduled(r, now)
  {
    InDeadlines(r.response.calls, t);
    hide Deadlines;
  }

  lemma {:induction false} InDeadlines(calls: seq<Call>, t: Timer)
    ensures t in Deadlines(calls) <==> exists c | c in calls :: t == Timer((c.current + c.delay) % TWO64, c.task)
  {
    if |calls| > 0 {
      var most, last := calls[..|calls| - 1], calls[|calls| - 1];
      InDeadlines(most, t);
      assert calls == most + [last];
      assert forall c :: c in calls <==> c in most || c == last;
    }
  }

  function Timers(log: seq<Run>): seq<Timer> {
    if |log| == 0 then [] else Timers(log[..|log| - 1]) + [log[|log| - 1].timer]
  }

  lemma {:induction false} TimersOf(log: seq<Run>, m: seq<Timer>)
    requires |log| <= |m| && forall i | 0 <= i < |log| :: log[i].timer == m[i]
    ensures Timers(log) == m[..|log|]
  {
    if |log| > 0 {
      TimersOf(log[..|log| - 1], m);
      assert m[..|log|] == m[..|log| - 1] + [m[|log| - 1]];
    }
  }

  lemma FirstAreDue(m: seq<Timer>, now: nat)
    ensures forall t | t in m[..DueCount(m, now)] :: t.deadline <= now
  {
    var k := DueCount(m, now);
    assert forall i | 0 <= i < k :: m[i].deadline <= now;
    hide DueCount;
    assert forall i | 0 <= i < k :: m[..k][i] == m[i];
  }

  lemma FlushRunsTheDue(m: seq<Timer>, now: nat, plan: nat -> Response, log: seq<Run>)
    requires Sorted(m) && Ran(log, m, plan, DueCount(m, now))
    ensures var k := DueCount(m, now);
      && m == Timers(log) + m[k..]
      && (forall t | t in Timers(log) :: t.deadline <= now) && (forall t | t in m[k..] :: t.deadline > now)
  {
    hide DueCount, Sorted, Ran, Timers;
    var k := DueCount(m, now);
    DueRan(log, m, plan, k);
    FirstAreDue(m, now);
    UndueLieAhead(m, now);
    TimersOf(log, m);
    assert m == m[..k] + m[k..];
  }

  lemma DueRan(log: seq<Run>, m: seq<Timer>, plan: nat -> Response, k: nat)
    requires Ran(log, m, plan, k)
    ensures |log| == k <= |m| && forall i | 0 <= i < |log| :: log[i].timer == m[i]
  {
  }

  // A flush runs the timer of a call if and only if the call's delay is over, as often as
  // it is in the map; otherwise the timer stays.
  lemma FlushRunsIffDelayOver(m: seq<Timer>, now: nat, plan: nat -> Response, log: seq<Run>, c: Call)
    requires Sorted(m) && Ran(log, m, plan, DueCount(m, now)) && c.current + c.delay < TWO64
    ensures var k := DueCount(m, now);
      if now - c.current >= c.delay
      then multiset(Timers(log))[Deadline(c)] == multiset(m)[Deadline(c)] && Deadline(c) !in m[k..]
      else Deadline(c) !in Timers(log) && multiset(m[k..])[Deadline(c)] == multiset(m)[Deadline(c)]
  {
    FlushRunsTheDue(m, now, plan, log);
    DueIffDelayOver(c, now);
    hide DueCount, Deadline, Sorted, Ran, Timers;
    var k, t := DueCount(m, now), Deadline(c);
    assert multiset(m)[t] == multiset(Timers(log))[t] + multiset(m[k..])[t];
  }

  // The value handed to epoll_wait or select is right exactly if every timer
  // that the flush entered lies in the future. A callback that adds a timer
  // with delay 0 in the same millisecond breaks it: the poller then sleeps as
  // if there were no timer.
  lemma DelayCorrectIff(before: seq<Timer>, after: seq<Timer>, log: seq<Run>, now: nat)
    requires Sorted(before) && Sorted(after) && now < TWO64
    requires forall t :: t in after ==> t.deadline < TWO64
    requires multiset(after) == multiset(before[DueCount(before, now)..]) + multiset(Inserted(log, now))
    ensures DelayCorrect(Distance(after, now), after, now)
      <==> forall t :: t in Inserted(log, now) ==> t.deadline > now
  {
    var undue, inserted := before[DueCount(before, now)..], Inserted(log, now);
    FirstDecides(after, now);
    UndueLieAhead(before, now);
    hide Inserted, DueCount, Distance, DelayCorrect;
    SameElements(after, undue, inserted);
    if |after| > 0 {
      assert after[0] in after;
      if after[0].deadline > now {
        FirstIsLeast(after, now);
      }
    }
  }

  lemma UndueLieAhead(m: seq<Timer>, now: nat)
    requires Sorted(m)
    ensures forall t :: t in m[DueCount(m, now)..] ==> t.deadline > now
  {
    var undue := m[DueCount(m, now)..];
    forall i | 0 <= i < |undue|
      ensures undue[i].deadline > now
    {
      DueIsPrefix(m, now, DueCount(m, now) + i);
    }
  }

  lemma FirstIsLeast(m: seq<Timer>, now: nat)
    requires Sorted(m) && |m| > 0 && m[0].deadline > now
    ensures forall t :: t in m ==> t.deadline > now
  {
    forall i | 0 <= i < |m|
      ensures m[i].deadline > now
    {
    }
  }

  // What the author of a callback can see to: delays of at least a millisecond, a
  // clock that has not gone back, and no wrap-around.
  predicate Careful(c: Call, now: nat) {
    c.delay >= 1 && c.current >= now && c.current + c.delay < TWO64
  }

  predicate CarefulRun(r: Run, now: nat) {
    && (forall i | 0 <= i < |r.response.calls| :: Careful(r.response.calls[i], now))
    && (r.response.outcome.Next? ==> now + r.response.outcome.delay < TWO64)
  }

  lemma {:induction false} CarefulCallsLieAhead(calls: seq<Call>, now: nat)
    requires forall i | 0 <= i < |calls| :: Careful(calls[i], now)
    ensures forall t | t in Deadlines(calls) :: now < t.deadline < TWO64
  {
    if |calls| > 0 {
      CarefulCallsLieAhead(calls[..|calls| - 1], now);
      assert Careful(calls[|calls| - 1], now);
    }
  }

  // Then everything entered lies in the future.
  lemma {:induction false} CarefulRunsLieAhead(log: seq<Run>, now: nat)
    requires forall i | 0 <= i < |log| :: CarefulRun(log[i], now)
    ensures forall t | t in Inserted(log, now) :: now < t.deadline < TWO64
  {
    if |log| > 0 {
      CarefulRunsLieAhead(log[..|log| - 1], now);
      var r := log[|log| - 1];
      assert CarefulRun(r, now);
      CarefulCallsLieAhead(r.response.calls, now);
    }
  }

  // Flushing with careful callbacks: the delay is 0 if and only if no timer is left,
  // and otherwise the positive distance to the earliest deadline.
  method FlushCarefully(poller: EventPoller, now: nat, plan: nat -> Response) returns (delay: nat, log: seq<Run>)
    requires Sorted(poller.delayTaskMap) && now < TWO64
    requires forall t | t in poller.delayTaskMap :: t.deadline < TWO64
    requires forall i: nat | i < DueCount(poller.delayTaskMap, now) ::
      CarefulRun(Run(poller.delayTaskMap[i], plan(i)), now)
    modifies poller`delayTaskMap
    ensures DelayCorrect(delay, poller.delayTaskMap, now) && (delay == 0 <==> poller.delayTaskMap == [])
  {
    ghost var before := poller.delayTaskMap;
    delay, log := poller.FlushDelayTask(now, plan);
    CarefulRunsLieAhead(log, now);
    ghost var undue := before[DueCount(before, now)..];
    SameElements(poller.delayTaskMap, undue, Inserted(log, now));
    assert forall t | t in undue :: t in before;
    DelayCorrectIff(before, poller.delayTaskMap, log, now);
  }

  method OneTimer(timer: Timer) returns (poller: EventPoller)
    ensures fresh(poller) && poller.delayTaskMap == [timer]
  {
    poller := new EventPoller();
    poller.Enter(timer);
    hide Emplace;
    OnlyOne(poller.delayTaskMap, timer);
  }

  // The failing case: one due timer whose callback adds a timer for this very
  // millisecond. The flush answers 0, which means "no timer", and leaves one.
  method ZeroDelayLooksLikeNoTimer(now: nat) returns (poller: EventPoller, delay: nat)
    requires now < TWO64
    ensures delay == 0 && poller.delayTaskMap == [Timer(now, 1)]
    ensures !DelayCorrect(delay, poller.delayTaskMap, now)
  {
    hide EmplaceAll, Inserted;
    poller := OneTimer(Timer(now, 0));
    var response := Response([Call(1, 0, now)], Next(0));
    OneIsDue(now);
    var log;
    delay, log := poller.FlushDelayTask(now, _ => response);
    assert log == [Run(Timer(now, 0), response)];
    ZeroDelayInserts(now);
    OnlyOne(poller.delayTaskMap, Timer(now, 1));
  }

  lemma OneIsDue(now: nat)
    ensures var m := [Timer(now, 0)]; Sorted(m) && DueCount(m, now) == 1 && m[1..] == []
  {
  }

  lemma ZeroDelayInserts(now: nat)
    requires now < TWO64
    ensures Inserted([Run(Timer(now, 0), Response([Call(1, 0, now)], Next(0)))], now) == [Timer(now, 1)]
  {
    var calls := [Call(1, 0, now)];
    var run := Run(Timer(now, 0), Response(calls, Next(0)));
    DeadlinesNone();
    DeadlinesSnoc(calls, 0);
    assert calls[..0] == [] && calls[..1] == calls;
    assert Deadlines(calls) == [Timer(now, 1)];
    InsertedNone(now);
    InsertedSnoc([], run, now);
    assert [] + [run] == [run];
  }

  lemma OnlyOne(m: seq<Timer>, t: Timer)
    requires multiset(m) == multiset{t}
    ensures m == [t]
  {
    assert |m| == |multiset(m)| == 1;
    assert m[0] in multiset(m);
  }
}
