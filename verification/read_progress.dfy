/** The manager never deadlocks and its stops end: while any operation is pending some step of a
    thread or of a reflector is enabled, and every such step lowers a measure. */
module ReadDesireProgress {
  import opened KubeApplier
  import opened ReadDesireManager

  /** Steps left in what stopByKey returns to; a collected key costs five. */
  function Rest(after: After): nat {
    match after
    case ReturnNil => 0
    case ThenBuild(_) => 10
    case NextKey(rest) => 5 * |rest|
  }

  function Weight(pc: Pc): nat {
    match pc
    case Idle => 0
    case Fetching(_) => 17
    case LookLock(_, _) => 16
    case LookHeld(_, _) => 15
    case StopLock(_, after) => 4 + Rest(after)
    case StopHeld(_, after) => 3 + Rest(after)
    case StopCancel(_, _, after) => 2 + Rest(after)
    case StopWait(_, _, after) => 1 + Rest(after)
    case Building(_, _) => 10
    case FailWrite(_, _) => 1
    case InsertLock(_, _) => 8
    case InsertHeld(_, _) => 7
    case Starting(_, _) => 1
    case AwaitDone => 3
    case AllLock => 2
    case AllHeld => 1
    case Returned => 0
  }

  function Total(threads: seq<Pc>): nat {
    if threads == [] then 0 else Weight(threads[0]) + Total(threads[1..])
  }

  /** Reflectors that have not exited. */
  function Unexited(sessions: seq<Session>): nat {
    if sessions == [] then 0
    else (if sessions[0].reflector && !sessions[0].exited then 1 else 0) + Unexited(sessions[1..])
  }

  /** Keys stopAll still has to collect. */
  function Uncollected(s: State): nat {
    if s.threads != [] && (s.threads[0].AwaitDone? || s.threads[0].AllLock? || s.threads[0].AllHeld?)
    then 5 * |s.running| else 0
  }

  function Measure(s: State): nat {
    Total(s.threads) + Uncollected(s) + Unexited(s.sessions)
  }

  lemma {:induction false} TotalUpdate(threads: seq<Pc>, t: nat, pc: Pc)
    requires t < |threads|
    ensures Total(threads[t := pc]) == Total(threads) - Weight(threads[t]) + Weight(pc)
    ensures Total(threads) >= Weight(threads[t])
  {
    if t > 0 {
      TotalUpdate(threads[1..], t - 1, pc);
      assert threads[t := pc][1..] == threads[1..][t - 1 := pc];
    }
  }

  lemma {:induction false} UnexitedUpdate(xs: seq<Session>, i: nat, x: Session)
    requires i < |xs| && x.reflector == xs[i].reflector
    requires xs[i].exited ==> x.exited
    ensures Unexited(xs[i := x]) <= Unexited(xs)
    ensures xs[i].exited == x.exited ==> Unexited(xs[i := x]) == Unexited(xs)
    ensures x.reflector && x.exited && !xs[i].exited ==> Unexited(xs[i := x]) + 1 == Unexited(xs)
  {
    if i > 0 {
      UnexitedUpdate(xs[1..], i - 1, x);
      assert xs[i := x][1..] == xs[1..][i - 1 := x];
    }
  }

  lemma {:induction false} UnexitedSnoc(xs: seq<Session>, x: Session)
    ensures Unexited(xs + [x]) == Unexited(xs) + if x.reflector && !x.exited then 1 else 0
  {
    if xs == [] {
      assert xs + [x] == [x];
    } else {
      UnexitedSnoc(xs[1..], x);
      assert (xs + [x])[1..] == xs[1..] + [x];
    }
  }

  lemma {:induction false} DistinctLength(keys: seq<Key>, m: set<Key>)
    requires forall k :: k in keys <==> k in m
    requires forall i, j | 0 <= i < j < |keys| :: keys[i] != keys[j]
    ensures |keys| == |m|
  {
    if keys != [] {
      DistinctLength(keys[1..], m - {keys[0]});
    }
  }

  /** An internal step: one of a manager thread, or a reflector's exit. */
  predicate Internal(step: Step) {
    step.Work? || step.Exit?
  }

  // Steps that change the map.
  lemma OneMore(m: map<Key, nat>, k: Key, i: nat)
    ensures |m[k := i]| <= |m| + 1
  {
    assert m[k := i].Keys == m.Keys + {k};
  }

  lemma InsertDecreases(s: State, s': State, t: nat, choice: Choice)
    requires 0 < t < |s.threads| && s.threads[t].InsertHeld? && Act(s, t, choice) == Some(s')
    ensures Measure(s') < Measure(s)
  {
    var k, i := s.threads[t].key, s.threads[t].inst;
    TotalUpdate(s.threads, t, Starting(k, i));
    OneMore(s.running, k, i);
    assert s'.threads[0] == s.threads[0];
  }

  lemma RemoveDecreases(s: State, s': State, t: nat, k: Key, after: After, pc: Pc)
    requires t < |s.threads| && s.threads[t] == StopHeld(k, after)
    requires s' == Goto(s.(mu := Option.None, running := s.running - {k}), t, pc)
    requires Weight(pc) < 3 + Rest(after) && !pc.AwaitDone? && !pc.AllLock? && !pc.AllHeld?
    ensures Measure(s') < Measure(s)
  {
    TotalUpdate(s.threads, t, pc);
    SmallerMap(s'.running, s.running);
  }

  // Steps that change a session.
  lemma BuildDecreases(s: State, s': State, t: nat, choice: Choice)
    requires t < |s.threads| && s.threads[t].Building? && Act(s, t, choice) == Some(s')
    ensures Measure(s') < Measure(s)
  {
    TotalUpdate(s.threads, t, s'.threads[t]);
    UnexitedSnoc(s.sessions, s'.sessions[|s.sessions|]);
  }

  lemma FlagDecreases(s: State, s': State, t: nat, choice: Choice)
    requires t < |s.threads| && Act(s, t, choice) == Some(s')
    requires s.threads[t].StopCancel? || s.threads[t].Starting?
    ensures Measure(s') < Measure(s)
  {
    TotalUpdate(s.threads, t, s'.threads[t]);
    UnexitedUpdate(s.sessions, s.threads[t].inst, s'.sessions[s.threads[t].inst]);
  }

  lemma CollectDecreases(s: State, s': State, t: nat, choice: Choice)
    requires t < |s.threads| && Role(t, s.threads[t]) && Act(s, t, choice) == Some(s') && s.threads[t].AllHeld?
    ensures Measure(s') < Measure(s)
  {
    TotalUpdate(s.threads, t, s'.threads[t]);
    DistinctLength(choice.keys, s.running.Keys);
  }

  // Steps that change only where the thread is.
  ghost predicate Lighter(s: State, s': State, t: nat)
    requires t < |s.threads|
  {
    && |s'.threads| == |s.threads| && s'.threads == s.threads[t := s'.threads[t]]
    && Weight(s'.threads[t]) < Weight(s.threads[t])
    && ((s'.threads[t].AwaitDone? || s'.threads[t].AllLock? || s'.threads[t].AllHeld?) ==>
          s.threads[t].AwaitDone? || s.threads[t].AllLock?)
  }

  lemma LockWeight(s: State, s': State, t: nat, choice: Choice)
    requires t < |s.threads| && Act(s, t, choice) == Some(s')
    requires var pc := s.threads[t]; pc.LookLock? || pc.StopLock? || pc.InsertLock? || pc.AllLock? || pc.AwaitDone?
    ensures Lighter(s, s', t)
  {
  }

  lemma MoveWeight(s: State, s': State, t: nat, choice: Choice)
    requires t < |s.threads| && Act(s, t, choice) == Some(s')
    requires var pc := s.threads[t]; pc.Fetching? || pc.LookHeld? || pc.StopWait? || pc.FailWrite?
    ensures Lighter(s, s', t)
  {
  }

  lemma MoveDecreases(s: State, s': State, t: nat)
    requires t < |s.threads| && s'.running == s.running && s'.sessions == s.sessions
    requires Lighter(s, s', t)
    ensures Measure(s') < Measure(s)
  {
    TotalUpdate(s.threads, t, s'.threads[t]);
    assert Uncollected(s') <= Uncollected(s);
  }

  lemma WorkDecreases(s: State, s': State, t: nat, choice: Choice)
    requires t < |s.threads| && Role(t, s.threads[t]) && Act(s, t, choice) == Some(s')
    ensures Measure(s') < Measure(s)
  {
    var pc := s.threads[t];
    if pc.InsertHeld? { InsertDecreases(s, s', t, choice); }
    else if pc.StopHeld? { RemoveDecreases(s, s', t, pc.key, pc.after, s'.threads[t]); }
    else if pc.Building? { BuildDecreases(s, s', t, choice); }
    else if pc.StopCancel? || pc.Starting? { FlagDecreases(s, s', t, choice); }
    else if pc.AllHeld? { CollectDecreases(s, s', t, choice); }
    else {
      if pc.Fetching? || pc.LookHeld? || pc.StopWait? || pc.FailWrite? { MoveWeight(s, s', t, choice); }
      else { LockWeight(s, s', t, choice); }
      MoveDecreases(s, s', t);
    }
  }

  lemma SmallerMap(m: map<Key, nat>, n: map<Key, nat>)
    requires m.Keys <= n.Keys
    ensures |m| <= |n|
  {
    SmallerSet(m.Keys, n.Keys);
  }

  lemma {:induction false} SmallerSet(a: set<Key>, b: set<Key>)
    requires a <= b
    ensures |a| <= |b|
  {
    if a != {} {
      var k :| k in a;
      SmallerSet(a - {k}, b - {k});
    }
  }

  lemma InternalDecreases(s: State, s': State, step: Step)
    requires Inv(s) && NextStep(s, s', step) && Internal(step)
    ensures Measure(s') < Measure(s)
  {
    match step
    case Work(t, choice) =>
      assert Role(t, s.threads[t]);
      WorkDecreases(s, s', t, choice);
    case Exit(i) => UnexitedUpdate(s.sessions, i, s'.sessions[i]);
  }

  /** What a step from outside adds: a picked key is seventeen steps of work, the rest is nothing. */
  function Added(step: Step): nat {
    if step.Pick? then 17 else 0
  }

  lemma OutsideAdds(s: State, s': State, step: Step)
    requires NextStep(s, s', step) && !Internal(step)
    ensures Measure(s') == Measure(s) + Added(step)
  {
    if step.Pick? {
      TotalUpdate(s.threads, step.t, Fetching(step.key));
    }
  }

  /** The steps of a stretch of a run. */
  ghost predicate Steps(ss: seq<State>, steps: seq<Step>, n: nat, m: nat) {
    n <= m < |ss| && |steps| >= m && forall i | n <= i < m :: StepIs(ss, steps, i)
  }

  ghost predicate StepIs(ss: seq<State>, steps: seq<Step>, i: nat)
    requires i < |steps| && i + 1 < |ss|
  {
    NextStep(ss[i], ss[i + 1], steps[i])
  }

  // A run has steps.
  lemma {:induction false} StepsExist(ss: seq<State>, m: nat) returns (steps: seq<Step>)
    requires Run(ss) && m < |ss|
    ensures |steps| == m && Steps(ss, steps, 0, m)
  {
    steps := [];
    if m > 0 {
      var before := StepsExist(ss, m - 1);
      assert StepAt(ss, m);
      var step :| NextStep(ss[m - 1], ss[m], step);
      steps := before + [step];
      forall i | 0 <= i < m ensures StepIs(ss, steps, i) {
        if i < m - 1 { assert StepIs(ss, before, i); }
      }
    }
  }

  function Internals(steps: seq<Step>, n: nat, m: nat): nat
    requires n <= m <= |steps|
  {
    if n == m then 0 else Internals(steps, n, m - 1) + if Internal(steps[m - 1]) then 1 else 0
  }

  function Picks(steps: seq<Step>, n: nat, m: nat): nat
    requires n <= m <= |steps|
  {
    if n == m then 0 else Picks(steps, n, m - 1) + if steps[m - 1].Pick? then 1 else 0
  }

  /** Work is bounded by what comes in: over any stretch of any run, shutdown and a queue that keeps
      handing out keys included, the steps of the manager's threads and the exits of reflectors number
      at most Measure plus seventeen for each key picked. */
  lemma {:induction false} StopsTerminate(ss: seq<State>, steps: seq<Step>, n: nat, m: nat)
    requires Run(ss) && Steps(ss, steps, n, m)
    ensures Measure(ss[m]) + Internals(steps, n, m) <= Measure(ss[n]) + 17 * Picks(steps, n, m)
    decreases m - n
  {
    if n < m {
      StopsTerminate(ss, steps, n, m - 1);
      assert StepIs(ss, steps, m - 1);
      if Internal(steps[m - 1]) {
        RunInv(ss, m - 1);
        InternalDecreases(ss[m - 1], ss[m], steps[m - 1]);
      } else {
        OutsideAdds(ss[m - 1], ss[m], steps[m - 1]);
      }
    }
  }

  /* ---- One stop ---- */

  predicate OwnStep(step: Step, t: nat) {
    step.Work? && step.t == t
  }

  function OwnSteps(steps: seq<Step>, t: nat, n: nat, m: nat): nat
    requires n <= m <= |steps|
  {
    if n == m then 0 else OwnSteps(steps, t, n, m - 1) + if OwnStep(steps[m - 1], t) then 1 else 0
  }

  lemma StopWeight(s: State, s': State, t: nat, choice: Choice)
    requires t < |s.threads| && Stopping(s.threads[t]) && Act(s, t, choice) == Some(s')
    ensures |s'.threads| == |s.threads| && Weight(s'.threads[t]) < Weight(s.threads[t])
  {
  }

  // A stopping thread gets lighter by its own steps and is moved by nobody else's.
  lemma StopStep(s: State, s': State, step: Step, t: nat)
    requires NextStep(s, s', step) && t < |s.threads| && t < |s'.threads| && Stopping(s.threads[t])
    ensures if OwnStep(step, t) then Weight(s'.threads[t]) < Weight(s.threads[t]) else s'.threads[t] == s.threads[t]
  {
    if OwnStep(step, t) {
      StopWeight(s, s', t, step.choice);
    } else {
      OthersStay(s, s', step, t);
    }
  }

  ghost predicate StoppingAt(ss: seq<State>, t: nat, i: nat)
    requires i < |ss|
  {
    t < |ss[i].threads| && Stopping(ss[i].threads[t])
  }

  /** Every stopByKey, and stopAll once it has its list, ends after a number of its own steps fixed
      when it began, whatever the other threads and the queue do meanwhile. */
  lemma {:induction false} EveryStopIsBounded(ss: seq<State>, steps: seq<Step>, t: nat, n: nat, m: nat)
    requires Steps(ss, steps, n, m) && forall i | n <= i < m :: StoppingAt(ss, t, i)
    requires t < |ss[n].threads| && t < |ss[m].threads|
    ensures Weight(ss[m].threads[t]) + OwnSteps(steps, t, n, m) <= Weight(ss[n].threads[t])
    decreases m - n
  {
    if n < m {
      assert StoppingAt(ss, t, m - 1) && StepIs(ss, steps, m - 1);
      EveryStopIsBounded(ss, steps, t, n, m - 1);
      StopStep(ss[m - 1], ss[m], steps[m - 1], t);
    }
  }

  /** A stop that has cancelled its instance and waits is let go by one exit that is enabled, or by a
      start and an exit: the step it depends on can be taken now. */
  lemma WaitEnds(ss: seq<State>, n: nat, t: nat) returns (step: Step)
    requires Run(ss) && n < |ss| && t < |ss[n].threads| && ss[n].threads[t].StopWait?
    ensures Enabled(ss[n], step) && Internal(step)
    ensures step == Work(t, Only) || step == Exit(ss[n].threads[t].inst)
            || (step.Work? && step.t < |ss[n].threads| && Starts(ss[n].threads[step.t], ss[n].threads[t].inst))
  {
    RunInv(ss, n);
    step := WaitedForRuns(ss[n], t);
  }

  /** A thread that has something left to do. */
  predicate Pending(s: State, t: nat)
    requires t < |s.threads|
  {
    !s.threads[t].Idle? && !s.threads[t].Returned? && (s.threads[t].AwaitDone? ==> s.shutdown)
  }

  ghost predicate Enabled(s: State, step: Step) {
    exists s' :: NextStep(s, s', step)
  }

  lemma {:induction false} SomeOrder(m: set<Key>) returns (keys: seq<Key>)
    ensures forall k :: k in keys <==> k in m
    ensures forall i, j | 0 <= i < j < |keys| :: keys[i] != keys[j]
  {
    keys := [];
    if m != {} {
      var k :| k in m;
      var rest := SomeOrder(m - {k});
      keys := [k] + rest;
    }
  }

  // A thread inside a lock section can always finish it.
  lemma HolderRuns(s: State, t: nat) returns (choice: Choice)
    requires Inv(s) && t < |s.threads| && Holds(s.threads[t])
    ensures Enabled(s, Work(t, choice))
  {
    choice := Only;
    if s.threads[t].AllHeld? {
      var keys := SomeOrder(s.running.Keys);
      choice := Order(keys);
      assert Permutation(keys, s.running);
    }
    assert NextStep(s, Act(s, t, choice).value, Work(t, choice));
  }

  // What a wait on done waits for is cancelled, so it exits, once its goroutine has started.
  lemma WaitedForRuns(s: State, t: nat) returns (step: Step)
    requires Inv(s) && t < |s.threads| && s.threads[t].StopWait?
    ensures Enabled(s, step) && Internal(step)
    ensures step == Work(t, Only) || step == Exit(s.threads[t].inst)
            || (step.Work? && step.t < |s.threads| && Starts(s.threads[step.t], s.threads[t].inst))
  {
    var i := s.threads[t].inst;
    assert Hand(s, s.threads[t]) && Placed(s, i);
    if s.sessions[i].exited {
      step := Work(t, Only);
      assert NextStep(s, Act(s, t, Only).value, step);
    } else if s.sessions[i].started {
      step := Exit(i);
      assert NextStep(s, s.(sessions := s.sessions[i := s.sessions[i].(exited := true)]), step);
    } else {
      var u :| 0 <= u < |s.threads| && Starts(s.threads[u], i);
      assert Hand(s, s.threads[u]);
      step := Work(u, Only);
      assert NextStep(s, Act(s, u, Only).value, step);
    }
  }

  /** No deadlock: in every reachable state in which some thread has something left to do, a step of
      a manager thread or a reflector's exit is enabled. */
  lemma NoDeadlock(ss: seq<State>, n: nat, t: nat) returns (step: Step)
    requires Run(ss) && n < |ss| && t < |ss[n].threads| && Pending(ss[n], t)
    ensures Enabled(ss[n], step) && Internal(step)
  {
    RunInv(ss, n);
    var s := ss[n];
    var pc := s.threads[t];
    assert Hand(s, pc) && Role(t, pc);
    if pc.StopWait? {
      step := WaitedForRuns(s, t);
    } else if (pc.LookLock? || pc.StopLock? || pc.InsertLock? || pc.AllLock?) && s.mu.Some? {
      var choice := HolderRuns(s, s.mu.value);
      step := Work(s.mu.value, choice);
    } else if Holds(pc) {
      var choice := HolderRuns(s, t);
      step := Work(t, choice);
    } else {
      step := Work(t, if pc.Fetching? then FetchFailed else if pc.Building? then BuildFailed else Only);
      assert NextStep(s, Act(s, t, step.choice).value, step);
    }
  }

  /** cancel comes before the wait: whenever a thread waits on done, the context it waits on is
      cancelled, and no thread that holds the mutex waits. */
  lemma CancelBeforeWait(ss: seq<State>, n: nat, t: nat)
    requires Run(ss) && n < |ss| && t < |ss[n].threads| && ss[n].threads[t].StopWait?
    ensures ss[n].threads[t].inst < |ss[n].sessions| && ss[n].sessions[ss[n].threads[t].inst].cancelled
    ensures ss[n].mu != Some(t)
  {
    RunInv(ss, n);
    assert Hand(ss[n], ss[n].threads[t]);
  }
}
