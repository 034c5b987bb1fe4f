/** What the manager's lock discipline guarantees in every reachable state, and that it always ends. */
module ReadDesireLifecycle {
  import opened KubeApplier
  import opened ReadDesireManager

  /** A reflector whose goroutine runs with a live context. */
  predicate Live(s: State, i: nat)
    requires i < |s.sessions|
  {
    var x := s.sessions[i];
    x.reflector && x.started && !x.exited && !Cancelled(s, i)
  }

  /** The live reflectors are exactly the values of `running`. */
  ghost predicate Bijection(s: State) {
    && (forall i | 0 <= i < |s.sessions| :: Live(s, i) <==> Listed(s, i))
    && (forall k | k in s.running :: s.running[k] < |s.sessions| && s.sessions[s.running[k]].key == k)
  }

  /** Some thread is between deleting an entry and cancelling it, or between storing an entry and
      starting its goroutine. */
  ghost predicate Between(s: State) {
    exists t :: 0 <= t < |s.threads| && (s.threads[t].StopCancel? || s.threads[t].Starting?)
  }

  // What a thread that owns, starts or waits for a session can be doing.
  lemma HandFacts(s: State, t: nat, i: nat)
    requires Inv(s) && t < |s.threads| && i < |s.sessions|
    ensures Owns(s.threads[t], i) ==> !Listed(s, i) && (s.threads[t].StopCancel? || Fresh(s.sessions[i]))
    ensures Starts(s.threads[t], i) ==>
              s.threads[t] == Starting(s.sessions[i].key, i) || (Owns(s.threads[t], i) && Fresh(s.sessions[i]))
    ensures (Owns(s.threads[t], i) || Starts(s.threads[t], i) || Waits(s.threads[t], i)) ==>
              WorkKey(s.threads[t]) == Some(s.sessions[i].key)
  {
    assert Hand(s, s.threads[t]) && Unshared(s, t, t);
  }

  // Before shutdown a key's sessions are handled by the one worker that holds the key.
  lemma OnlyWorker(s: State, t: nat, u: nat, k: Key)
    requires Inv(s) && !s.shutdown && t < |s.threads| && u < |s.threads|
    requires WorkKey(s.threads[t]) == WorkKey(s.threads[u]) == Some(k)
    ensures t == u
  {
    assert Role(t, s.threads[t]) && Role(u, s.threads[u]);
  }

  lemma LiveIsListed(s: State, i: nat)
    requires Inv(s) && !s.shutdown && i < |s.sessions| && !Between(s)
    ensures Live(s, i) <==> Listed(s, i)
  {
    assert Placed(s, i);
    forall t | 0 <= t < |s.threads|
      ensures Owns(s.threads[t], i) ==> Fresh(s.sessions[i]) && !Listed(s, i)
      ensures Starts(s.threads[t], i) ==> Fresh(s.sessions[i]) && !Listed(s, i)
    {
      HandFacts(s, t, i);
    }
    if Listed(s, i) { assert Entry(s, s.sessions[i].key); }
  }

  lemma BetweenBreaks(s: State, t: nat)
    requires Inv(s) && !s.shutdown && t < |s.threads| && (s.threads[t].StopCancel? || s.threads[t].Starting?)
    ensures s.threads[t].inst < |s.sessions| && Live(s, s.threads[t].inst) != Listed(s, s.threads[t].inst)
  {
    var k, i := s.threads[t].key, s.threads[t].inst;
    assert Hand(s, s.threads[t]) && Placed(s, i);
    forall u | 0 <= u < |s.threads| && (Owns(s.threads[u], i) || Starts(s.threads[u], i) || Waits(s.threads[u], i))
      ensures u == t
    {
      HandFacts(s, u, i);
      OnlyWorker(s, t, u, k);
    }
    HandFacts(s, t, i);
  }

  /** Lifecycle conservation. In every reachable state before shutdown the live reflectors are in
      bijection with the entries of `running` if and only if no thread is in one of the two windows
      between a map update and the cancel or goroutine start that goes with it. */
  lemma LifecycleConservation(ss: seq<State>, n: nat)
    requires Run(ss) && n < |ss| && !ss[n].shutdown
    ensures Bijection(ss[n]) <==> !Between(ss[n])
  {
    RunInv(ss, n);
    var s := ss[n];
    if Between(s) {
      var t :| 0 <= t < |s.threads| && (s.threads[t].StopCancel? || s.threads[t].Starting?);
      BetweenBreaks(s, t);
      assert !Bijection(s);
    } else {
      forall i | 0 <= i < |s.sessions| ensures Live(s, i) <==> Listed(s, i) { LiveIsListed(s, i); }
      forall k | k in s.running ensures s.running[k] < |s.sessions| && s.sessions[s.running[k]].key == k {
        assert Entry(s, k);
      }
    }
  }

  /** Inside the windows: every live reflector is listed or in the hands of the one thread about to
      cancel it, and every entry is live or about to be started. */
  lemma LiveOrInHand(ss: seq<State>, n: nat, i: nat)
    requires Run(ss) && n < |ss| && i < |ss[n].sessions|
    ensures Live(ss[n], i) ==>
              || Listed(ss[n], i)
              || exists t :: 0 <= t < |ss[n].threads| && ss[n].threads[t].StopCancel? && ss[n].threads[t].inst == i
    ensures Listed(ss[n], i) && !ss[n].shutdown ==>
              || Live(ss[n], i)
              || exists t :: 0 <= t < |ss[n].threads| && ss[n].threads[t] == Starting(ss[n].sessions[i].key, i)
  {
    RunInv(ss, n);
    var s := ss[n];
    assert Placed(s, i);
    forall t | 0 <= t < |s.threads|
      ensures Owns(s.threads[t], i) ==> !Listed(s, i) && (s.threads[t].StopCancel? || Fresh(s.sessions[i]))
      ensures Starts(s.threads[t], i) ==>
                s.threads[t] == Starting(s.sessions[i].key, i) || (Owns(s.threads[t], i) && Fresh(s.sessions[i]))
    {
      HandFacts(s, t, i);
    }
    if Listed(s, i) { assert Entry(s, s.sessions[i].key); }
  }

  /** The store into `running` never overwrites an entry, before or during shutdown; and before
      shutdown a key has at most one reflector that has not exited. */
  lemma NoOverwriteNoDouble(ss: seq<State>, n: nat)
    requires Run(ss) && n < |ss|
    ensures forall t | 0 <= t < |ss[n].threads| && ss[n].threads[t].InsertHeld? ::
              ss[n].threads[t].key !in ss[n].running
    ensures !ss[n].shutdown ==>
              forall i, j | 0 <= i < j < |ss[n].sessions| && ss[n].sessions[i].reflector && !ss[n].sessions[i].exited ::
                ss[n].sessions[i].key != ss[n].sessions[j].key
  {
    RunInv(ss, n);
    var s := ss[n];
    forall t | 0 <= t < |s.threads| && s.threads[t].InsertHeld? ensures s.threads[t].key !in s.running {
      assert Hand(s, s.threads[t]);
    }
    forall i, j | 0 <= i < j < |s.sessions| && s.sessions[i].reflector && !s.sessions[i].exited && !s.shutdown
      ensures s.sessions[i].key != s.sessions[j].key
    {
      assert Succeeds(s, i, j);
    }
  }

  /** stopAll runs only after the context is cancelled, so no reflector is live once it begins,
      including those a racing SyncOnce inserts later. */
  lemma NothingLiveAtShutdown(ss: seq<State>, n: nat, m: nat, i: nat)
    requires Run(ss) && n <= m < |ss| && |ss[n].threads| > 0 && ss[n].threads[0] != AwaitDone && i < |ss[m].sessions|
    ensures Cancelled(ss[m], i) && !Live(ss[m], i)
    decreases m - n
  {
    RunInv(ss, n);
    ShutdownStays(ss, n, m);
  }

  lemma {:induction false} ShutdownStays(ss: seq<State>, n: nat, m: nat)
    requires Run(ss) && n <= m < |ss| && ss[n].shutdown
    ensures ss[m].shutdown
    decreases m - n
  {
    if n < m {
      ShutdownStays(ss, n, m - 1);
      assert StepAt(ss, m);
      var step :| NextStep(ss[m - 1], ss[m], step);
    }
  }

  /** Every revision a reflector reports is a published revision of its own document whose target is
      the one it watches. */
  lemma WatchesItsRevision(ss: seq<State>, n: nat, i: nat)
    requires Run(ss) && n < |ss| && i < |ss[n].sessions|
    ensures (ss[n].sessions[i].key.name, ss[n].sessions[i].spec) in ss[n].published
  {
    RunInv(ss, n);
  }

  lemma Extend(ss: seq<State>, s': State, step: Step)
    requires Run(ss) && NextStep(ss[|ss| - 1], s', step)
    ensures Run(ss + [s'])
  {
    var ss' := ss + [s'];
    forall i | 0 < i < |ss'| ensures StepAt(ss', i) {
      if i < |ss| { assert StepAt(ss, i); }
    }
  }

  // A worker that finds no entry for its key comes to build for it.
  lemma ReachBuilding(k: Key, spec: SpecRev) returns (ss: seq<State>)
    ensures Run(ss)
    ensures ss[|ss| - 1]
        == State([AwaitDone, Building(k, spec)], Option.None, map[], [], false, {(k.name, spec)}, map[k.name := spec])
  {
    var s0 := State([AwaitDone, Idle], Option.None, map[], [], false, {(k.name, spec)}, map[k.name := spec]);
    ss := [s0];
    var s1 := Goto(s0, 1, Fetching(k));
    Extend(ss, s1, Pick(1, k));
    var s2 := Goto(s1, 1, LookLock(k, spec));
    Extend(ss + [s1], s2, Work(1, FetchFound(spec)));
    var s3 := Goto(s2.(mu := Some(1)), 1, LookHeld(k, spec));
    Extend(ss + [s1] + [s2], s3, Work(1, Only));
    var s4 := Goto(s3.(mu := Option.None), 1, Building(k, spec));
    Extend(ss + [s1] + [s2] + [s3], s4, Work(1, Only));
    ss := ss + [s1] + [s2] + [s3] + [s4];
  }

  /** The windows are reachable, so the unconditional bijection is false: a worker that syncs one
      published ReadDesire passes through a state whose only entry is not yet live. */
  lemma BijectionCanFail(k: Key, spec: SpecRev) returns (ss: seq<State>)
    ensures Run(ss) && !ss[|ss| - 1].shutdown && !Bijection(ss[|ss| - 1])
  {
    ss := ReachBuilding(k, spec);
    var s4 := ss[|ss| - 1];
    var s5 := Goto(s4.(sessions := s4.sessions + [Session(k, spec, true, false, false, false)]), 1, InsertLock(k, 0));
    Extend(ss, s5, Work(1, BuildOk));
    var s6 := Goto(s5.(mu := Some(1)), 1, InsertHeld(k, 0));
    Extend(ss + [s5], s6, Work(1, Only));
    var s7 := Goto(s6.(mu := Option.None, running := s6.running[k := 0]), 1, Starting(k, 0));
    Extend(ss + [s5] + [s6], s7, Work(1, Only));
    ss := ss + [s5] + [s6] + [s7];
    assert Listed(s7, 0) && !Live(s7, 0);
  }
}
