/** One whole sync of the manager among all the others: which revision the entry it leaves was built for. */
module ReadDesireSyncs {
  import opened KubeApplier
  import opened ReadDesireManager
  import opened ReadDesireLifecycle
  import opened ReadDesireRevisions

  /** The instance running for a key, and the spec it was built for. */
  function EntryOf(s: State, k: Key): Option<(nat, SpecRev)> {
    if k in s.running && s.running[k] < |s.sessions| then Some((s.running[k], s.sessions[s.running[k]].spec)) else None
  }

  /** The guard of SyncOnce: an instance with the spec's target runs already. */
  predicate Keeps(s: State, k: Key, spec: SpecRev) {
    EntryOf(s, k).Some? && EntryOf(s, k).value.1.target == spec.target
  }

  ghost predicate EntriesGood(s: State) {
    forall k | k in s.running :: Entry(s, k)
  }

  /** Where the guard is taken: the sync ends there if and only if it holds, and then changes nothing. */
  lemma LookKeepsIff(s: State, s': State, t: nat, k: Key, spec: SpecRev)
    requires EntriesGood(s) && t < |s.threads| && s.threads[t] == LookHeld(k, spec) && Act(s, t, Only) == Some(s')
    ensures t < |s'.threads| && s'.running == s.running && s'.sessions == s.sessions
    ensures s'.threads[t] == Idle <==> Keeps(s, k, spec)
  {
    assert k in s.running ==> Entry(s, k);
  }

  /* ---- The stages of a sync ---- */

  // Thread t is serving key k with this spec, which it fetched in state s0.
  ghost predicate Stage(s0: State, s: State, t: nat, k: Key, spec: SpecRev) {
    t < |s.threads| &&
    match s.threads[t]
    case LookLock(k', sp) => k' == k && sp == spec && EntryOf(s, k) == EntryOf(s0, k)
    case LookHeld(k', sp) => k' == k && sp == spec && EntryOf(s, k) == EntryOf(s0, k)
    case StopLock(k', after) => k' == k && after == ThenBuild(spec) && !Keeps(s0, k, spec)
    case StopHeld(k', after) => k' == k && after == ThenBuild(spec) && !Keeps(s0, k, spec)
    case StopCancel(k', _, after) => k' == k && after == ThenBuild(spec) && !Keeps(s0, k, spec)
    case StopWait(k', _, after) => k' == k && after == ThenBuild(spec) && !Keeps(s0, k, spec)
    case Building(k', sp) => k' == k && sp == spec && !Keeps(s0, k, spec)
    case FailWrite(k', _) => k' == k && !Keeps(s0, k, spec)
    case InsertLock(k', i) => k' == k && !Keeps(s0, k, spec) && i < |s.sessions| && s.sessions[i].spec == spec
    case InsertHeld(k', i) => k' == k && !Keeps(s0, k, spec) && i < |s.sessions| && s.sessions[i].spec == spec
    case Starting(k', i) => k' == k && !Keeps(s0, k, spec) && EntryOf(s, k) == Some((i, spec))
    case _ => false
  }

  // How it ends: the old entry kept, a new one for the spec, or a failed build.
  ghost predicate Ended(s0: State, s': State, k: Key, spec: SpecRev, failed: bool) {
    if failed then !Keeps(s0, k, spec)
    else if Keeps(s0, k, spec) then EntryOf(s', k) == EntryOf(s0, k)
    else EntryOf(s', k).Some? && EntryOf(s', k).value.1 == spec
  }

  ghost predicate Onward(s0: State, s: State, s': State, t: nat, k: Key, spec: SpecRev)
    requires t < |s.threads| && t < |s'.threads|
  {
    if s'.threads[t] == Idle then Ended(s0, s', k, spec, s.threads[t].FailWrite?) else Stage(s0, s', t, k, spec)
  }

  lemma LookOnward(s0: State, s: State, s': State, t: nat, k: Key, spec: SpecRev, choice: Choice)
    requires Stage(s0, s, t, k, spec) && EntriesGood(s) && Act(s, t, choice) == Some(s')
    requires s.threads[t].LookLock? || s.threads[t].LookHeld?
    ensures |s'.threads| == |s.threads| && Onward(s0, s, s', t, k, spec)
  {
    assert k in s.running ==> Entry(s, k);
  }

  lemma StopOnward(s0: State, s: State, s': State, t: nat, k: Key, spec: SpecRev, choice: Choice)
    requires Stage(s0, s, t, k, spec) && Act(s, t, choice) == Some(s') && Stopping(s.threads[t])
    ensures |s'.threads| == |s.threads| && Onward(s0, s, s', t, k, spec)
  {
  }

  lemma BuildOnward(s0: State, s: State, s': State, t: nat, k: Key, spec: SpecRev, choice: Choice)
    requires Stage(s0, s, t, k, spec) && Act(s, t, choice) == Some(s')
    requires s.threads[t].Building? || s.threads[t].FailWrite? || s.threads[t].InsertLock?
    ensures |s'.threads| == |s.threads| && Onward(s0, s, s', t, k, spec)
  {
  }

  lemma InsertOnward(s0: State, s: State, s': State, t: nat, k: Key, spec: SpecRev, choice: Choice)
    requires Stage(s0, s, t, k, spec) && Act(s, t, choice) == Some(s')
    requires s.threads[t].InsertHeld? || s.threads[t].Starting?
    ensures |s'.threads| == |s.threads| && Onward(s0, s, s', t, k, spec)
  {
  }

  lemma OwnOnward(s0: State, s: State, s': State, t: nat, k: Key, spec: SpecRev, choice: Choice)
    requires Stage(s0, s, t, k, spec) && EntriesGood(s) && Act(s, t, choice) == Some(s')
    ensures |s'.threads| == |s.threads| && Onward(s0, s, s', t, k, spec)
  {
    var pc := s.threads[t];
    if pc.LookLock? || pc.LookHeld? { LookOnward(s0, s, s', t, k, spec, choice); }
    else if Stopping(pc) { StopOnward(s0, s, s', t, k, spec, choice); }
    else if pc.InsertHeld? || pc.Starting? { InsertOnward(s0, s, s', t, k, spec, choice); }
    else { BuildOnward(s0, s, s', t, k, spec, choice); }
  }

  /* ---- The other threads ---- */

  // Only a thread that serves a key, or stopAll, changes its entry.
  lemma RunningChanges(s: State, s': State, step: Step, k: Key)
    requires NextStep(s, s', step)
    requires (k in s.running) != (k in s'.running) || (k in s.running && s.running[k] != s'.running[k])
    ensures step.Work? && step.t < |s.threads|
    ensures s.threads[step.t].InsertHeld? || s.threads[step.t].StopHeld?
    ensures WorkKey(s.threads[step.t]) == Some(k)
  {
  }

  lemma OthersKeepEntry(s: State, s': State, step: Step, t: nat, k: Key)
    requires Roles(s) && Exclusive(s) && EntriesGood(s) && NextStep(s, s', step) && !s'.shutdown
    requires 0 < t < |s.threads| && WorkKey(s.threads[t]) == Some(k) && !(step.Work? && step.t == t)
    ensures EntryOf(s', k) == EntryOf(s, k)
  {
    assert k in s.running ==> Entry(s, k);
    SessionsGrow(s, s', step);
    BeforeShutdown(s, s', step);
    if (k in s.running) != (k in s'.running) || (k in s.running && s.running[k] != s'.running[k]) {
      RunningChanges(s, s', step, k);
    }
  }

  lemma BeforeShutdown(s: State, s': State, step: Step)
    requires Roles(s) && NextStep(s, s', step) && !s'.shutdown
    ensures !s.shutdown && s.threads[0] == AwaitDone
  {
  }

  lemma OthersOnward(s0: State, s: State, s': State, step: Step, t: nat, k: Key, spec: SpecRev)
    requires Roles(s) && Exclusive(s) && EntriesGood(s) && NextStep(s, s', step) && !s'.shutdown
    requires 0 < t && Stage(s0, s, t, k, spec) && !(step.Work? && step.t == t)
    ensures |s'.threads| == |s.threads| && s'.threads[t] == s.threads[t] && Stage(s0, s', t, k, spec)
  {
    OthersStay(s, s', step, t);
    OthersKeepEntry(s, s', step, t, k);
    SessionsGrow(s, s', step);
    NoPick(s, s', step, t);
  }

  lemma NoPick(s: State, s': State, step: Step, t: nat)
    requires NextStep(s, s', step) && t < |s.threads| && !s.threads[t].Idle?
    ensures !(step.Pick? && step.t == t)
  {
  }

  /* ---- Whole syncs ---- */

  ghost predicate Busy(ss: seq<State>, t: nat, i: nat)
    requires i < |ss|
  {
    t < |ss[i].threads| && !ss[i].threads[t].Idle? && !ss[i].threads[t].FailWrite?
  }

  /** Before shutdown, worker t fetches this spec for k in the step from n, does not fail to build, and is
      done at m. */
  ghost predicate Synced(ss: seq<State>, n: nat, m: nat, t: nat, k: Key, spec: SpecRev) {
    && n + 1 < m < |ss| && 0 < t < |ss[n].threads|
    && ss[n].threads[t] == Fetching(k) && NextStep(ss[n], ss[n + 1], Work(t, FetchFound(spec)))
    && (forall i | n < i < m :: Busy(ss, t, i))
    && t < |ss[m].threads| && ss[m].threads[t] == Idle && !ss[m].shutdown
  }

  lemma Started(s: State, s': State, t: nat, k: Key, spec: SpecRev)
    requires t < |s.threads| && s.threads[t] == Fetching(k) && NextStep(s, s', Work(t, FetchFound(spec)))
    ensures Stage(s, s', t, k, spec)
  {
  }

  // The step into state i, and what holds before it.
  lemma StepInto(ss: seq<State>, i: nat) returns (step: Step)
    requires Run(ss) && 0 < i < |ss|
    ensures var s := ss[i - 1]; Roles(s) && Exclusive(s) && EntriesGood(s) && NextStep(s, ss[i], step)
  {
    RunInv(ss, i - 1);
    assert StepAt(ss, i);
    step :| NextStep(ss[i - 1], ss[i], step);
  }

  lemma {:induction false} StageHolds(ss: seq<State>, n: nat, m: nat, i: nat, t: nat, k: Key, spec: SpecRev)
    requires Run(ss) && Synced(ss, n, m, t, k, spec) && n < i < m
    ensures Stage(ss[n], ss[i], t, k, spec)
    decreases i
  {
    if i == n + 1 {
      Started(ss[n], ss[n + 1], t, k, spec);
    } else {
      StageHolds(ss, n, m, i - 1, t, k, spec);
      assert Busy(ss, t, i);
      NotShutDown(ss, i, m);
      var step := StepInto(ss, i);
      Staged(ss[n], ss[i - 1], ss[i], step, t, k, spec);
    }
  }

  lemma Staged(s0: State, s: State, s': State, step: Step, t: nat, k: Key, spec: SpecRev)
    requires Roles(s) && Exclusive(s) && EntriesGood(s) && NextStep(s, s', step) && !s'.shutdown
    requires 0 < t && Stage(s0, s, t, k, spec)
    ensures |s'.threads| == |s.threads| && Onward(s0, s, s', t, k, spec)
    ensures s'.threads[t] == Idle ==> step.Work? && step.t == t
  {
    if step.Work? && step.t == t {
      OwnOnward(s0, s, s', t, k, spec, step.choice);
    } else {
      OthersOnward(s0, s, s', step, t, k, spec);
    }
  }

  lemma NotShutDown(ss: seq<State>, i: nat, m: nat)
    requires Run(ss) && i <= m < |ss| && !ss[m].shutdown
    ensures !ss[i].shutdown
  {
    if ss[i].shutdown { ShutdownStays(ss, i, m); }
  }

  // The last step of a sync.
  lemma SyncEnds(ss: seq<State>, n: nat, m: nat, t: nat, k: Key, spec: SpecRev)
    requires Run(ss) && Synced(ss, n, m, t, k, spec)
    ensures Ended(ss[n], ss[m], k, spec, false)
    ensures forall u | 0 <= u < |ss[m].threads| && u != t :: WorkKey(ss[m].threads[u]) != Some(k) || u == 0
  {
    LastStage(ss, n, m, t, k, spec);
    var step := StepInto(ss, m);
    EndStep(ss[n], ss[m - 1], ss[m], step, t, k, spec);
  }

  lemma LastStage(ss: seq<State>, n: nat, m: nat, t: nat, k: Key, spec: SpecRev)
    requires Run(ss) && Synced(ss, n, m, t, k, spec)
    ensures Stage(ss[n], ss[m - 1], t, k, spec) && !ss[m - 1].threads[t].FailWrite?
  {
    StageHolds(ss, n, m, m - 1, t, k, spec);
    assert Busy(ss, t, m - 1);
  }

  lemma EndStep(s0: State, s: State, s': State, step: Step, t: nat, k: Key, spec: SpecRev)
    requires Roles(s) && Exclusive(s) && EntriesGood(s) && NextStep(s, s', step) && !s'.shutdown
    requires 0 < t && Stage(s0, s, t, k, spec) && !s.threads[t].FailWrite?
    requires t < |s'.threads| && s'.threads[t] == Idle
    ensures Ended(s0, s', k, spec, false)
    ensures forall u | 0 <= u < |s'.threads| && u != t :: WorkKey(s'.threads[u]) != Some(k) || u == 0
  {
    Staged(s0, s, s', step, t, k, spec);
    NoneElse(s0, s, s', step, t, k, spec);
  }

  // When a worker lets go of its key no other has it.
  lemma NoneElse(s0: State, s: State, s': State, step: Step, t: nat, k: Key, spec: SpecRev)
    requires Exclusive(s) && NextStep(s, s', step) && step.Work? && step.t == t && 0 < t && Stage(s0, s, t, k, spec)
    ensures |s'.threads| == |s.threads|
    ensures forall u | 0 <= u < |s'.threads| && u != t :: WorkKey(s'.threads[u]) != Some(k) || u == 0
  {
    forall u | 0 <= u < |s.threads| && u != t
      ensures |s'.threads| == |s.threads| && s'.threads[u] == s.threads[u]
    {
      OthersStay(s, s', step, u);
    }
    OthersStay(s, s', step, 0);
  }

  /** Which revision a sync leaves the key with. A sync that fetches a spec, builds if it comes to that and
      is not overtaken by shutdown leaves a live instance for the spec's target; it was built for the
      fetched revision if and only if no instance with that target, built for another revision, was
      running when the spec was fetched. Otherwise that instance is kept and goes on reporting its own. */
  lemma SyncLeaves(ss: seq<State>, n: nat, m: nat, t: nat, k: Key, spec: SpecRev)
    requires Run(ss) && Synced(ss, n, m, t, k, spec)
    ensures var e := EntryOf(ss[m], k);
            && e.Some? && Live(ss[m], e.value.0) && ss[m].sessions[e.value.0].key == k
            && e.value.1.target == spec.target
            && (e.value.1 == spec <==> !(Keeps(ss[n], k, spec) && EntryOf(ss[n], k).value.1 != spec))
            && (Keeps(ss[n], k, spec) ==> e == EntryOf(ss[n], k))
  {
    SyncEnds(ss, n, m, t, k, spec);
    RunInv(ss, m);
    var s := ss[m];
    assert Entry(s, k);
    var i := s.running[k];
    LiveOrInHand(ss, m, i);
    assert Role(0, s.threads[0]);
  }

  lemma ReachStarted(k: Key, spec: SpecRev) returns (ss: seq<State>)
    ensures Run(ss)
    ensures ss[|ss| - 1] == State([AwaitDone, Idle], Option.None, map[k := 0],
              [Session(k, spec, true, false, true, false)], false, {(k.name, spec)}, map[k.name := spec])
  {
    ss := ReachBuilding(k, spec);
    var s0 := ss[|ss| - 1];
    var s1 := Goto(s0.(sessions := s0.sessions + [Session(k, spec, true, false, false, false)]), 1, InsertLock(k, 0));
    Extend(ss, s1, Work(1, BuildOk));
    var s2 := Goto(s1.(mu := Some(1)), 1, InsertHeld(k, 0));
    Extend(ss + [s1], s2, Work(1, Only));
    var s3 := Goto(s2.(mu := Option.None, running := s2.running[k := 0]), 1, Starting(k, 0));
    Extend(ss + [s1] + [s2], s3, Work(1, Only));
    assert s3.sessions[0 := s3.sessions[0].(started := true)] == [Session(k, spec, true, false, true, false)];
    var s4 := Goto(s3.(sessions := [Session(k, spec, true, false, true, false)]), 1, Idle);
    Extend(ss + [s1] + [s2] + [s3], s4, Work(1, Only));
    ss := ss + [s1] + [s2] + [s3] + [s4];
  }

  /** The other case is real: the spec changes but its target does not, the change is synced without error,
      and the one running instance is still the one built for the old revision. */
  lemma RevisionCanLag(k: Key, target: ResourceReference, rev: nat, later: nat) returns (ss: seq<State>)
    requires rev < later
    ensures Run(ss) && |ss| > 4
    ensures Synced(ss, |ss| - 4, |ss| - 1, 1, k, SpecRev(target, later))
    ensures EntryOf(ss[|ss| - 1], k) == Some((0, SpecRev(target, rev))) && Live(ss[|ss| - 1], 0)
  {
    var spec := SpecRev(target, later);
    ss := ReachStarted(k, SpecRev(target, rev));
    var s0 := ss[|ss| - 1];
    var s1 := s0.(published := s0.published + {(k.name, spec)}, latest := s0.latest[k.name := spec]);
    Extend(ss, s1, Publish(k.name, spec));
    var s2 := Goto(s1, 1, Fetching(k));
    Extend(ss + [s1], s2, Pick(1, k));
    var s3 := Goto(s2, 1, LookLock(k, spec));
    Extend(ss + [s1] + [s2], s3, Work(1, FetchFound(spec)));
    var s4 := Goto(s3.(mu := Some(1)), 1, LookHeld(k, spec));
    Extend(ss + [s1] + [s2] + [s3], s4, Work(1, Only));
    var s5 := Goto(s4.(mu := Option.None), 1, Idle);
    Extend(ss + [s1] + [s2] + [s3] + [s4], s5, Work(1, Only));
    ss := ss + [s1] + [s2] + [s3] + [s4] + [s5];
    assert Busy(ss, 1, |ss| - 2) && Busy(ss, 1, |ss| - 3);
  }
}
