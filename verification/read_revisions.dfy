/** Which spec revision a ReadDesire's sessions are built for: never an older one than before, and not
    always the one that was synced last. */
module ReadDesireRevisions {
  import opened KubeApplier
  import opened ReadDesireManager
  import opened ReadDesireLifecycle

  /* ---- What a step does to the sessions ---- */

  // Sessions only gain flags.
  ghost predicate SameSessions(s: State, s': State) {
    && |s.sessions| <= |s'.sessions|
    && forall i | 0 <= i < |s.sessions| ::
         s'.sessions[i].key == s.sessions[i].key && s'.sessions[i].spec == s.sessions[i].spec
  }

  lemma BuildGrows(s: State, s': State, t: nat, choice: Choice)
    requires t < |s.threads| && s.threads[t].Building? && Act(s, t, choice) == Some(s')
    ensures SameSessions(s, s') && |s'.sessions| == |s.sessions| + 1
    ensures var x := s'.sessions[|s.sessions|]; x.key == s.threads[t].key && x.spec == s.threads[t].spec
  {
  }

  lemma FlagKeeps(s: State, s': State, t: nat, choice: Choice)
    requires t < |s.threads| && (s.threads[t].StopCancel? || s.threads[t].Starting?) && Act(s, t, choice) == Some(s')
    ensures SameSessions(s, s') && |s'.sessions| == |s.sessions|
  {
  }

  lemma OtherKeeps(s: State, s': State, t: nat, choice: Choice)
    requires t < |s.threads| && Act(s, t, choice) == Some(s')
    requires !s.threads[t].Building? && !s.threads[t].StopCancel? && !s.threads[t].Starting?
    ensures s'.sessions == s.sessions
  {
  }

  /** A session, once there, keeps its key and its spec; only a worker that builds adds one, for the key
      and the spec it holds. */
  lemma SessionsGrow(s: State, s': State, step: Step)
    requires NextStep(s, s', step)
    ensures SameSessions(s, s') && |s'.sessions| <= |s.sessions| + 1
    ensures |s'.sessions| > |s.sessions| ==>
              && step.Work? && step.t < |s.threads| && s.threads[step.t].Building?
              && s'.sessions[|s.sessions|].key == s.threads[step.t].key
              && s'.sessions[|s.sessions|].spec == s.threads[step.t].spec
  {
    if step.Work? {
      if s.threads[step.t].Building? { BuildGrows(s, s', step.t, step.choice); }
      else if s.threads[step.t].StopCancel? || s.threads[step.t].Starting? { FlagKeeps(s, s', step.t, step.choice); }
      else { OtherKeeps(s, s', step.t, step.choice); }
    }
  }

  /* ---- Revisions never go back ---- */

  // A later session of a key is for no older revision.
  ghost predicate Rising(s: State, i: nat, j: nat)
    requires i < |s.sessions| && j < |s.sessions|
  {
    i < j && s.sessions[i].key == s.sessions[j].key ==> s.sessions[i].spec.rev <= s.sessions[j].spec.rev
  }

  ghost predicate BelowLatest(s: State, i: nat)
    requires i < |s.sessions|
  {
    var x := s.sessions[i];
    x.key.name in s.latest && x.spec.rev <= s.latest[x.key.name].rev
  }

  // The spec a worker holds is no older than any session of its key.
  ghost predicate HoldsNewest(s: State, t: nat)
    requires t < |s.threads|
  {
    var pc := s.threads[t];
    SpecOf(pc).Some? && WorkKey(pc).Some? ==>
      var k, spec := WorkKey(pc).value, SpecOf(pc).value;
      && k.name in s.latest && spec.rev <= s.latest[k.name].rev
      && forall i | 0 <= i < |s.sessions| && s.sessions[i].key == k :: s.sessions[i].spec.rev <= spec.rev
  }

  ghost predicate Ordered(s: State) {
    && (forall i, j | 0 <= i < |s.sessions| && 0 <= j < |s.sessions| :: Rising(s, i, j))
    && (forall i | 0 <= i < |s.sessions| :: BelowLatest(s, i))
    && (forall t | 0 < t < |s.threads| :: HoldsNewest(s, t))
  }

  // What a step does to the spec a worker holds: it stays, goes, or is the latest.
  ghost predicate SpecMoves(s: State, s': State, t: nat)
    requires t < |s.threads| && t < |s'.threads|
  {
    var pc, pc' := s.threads[t], s'.threads[t];
    SpecOf(pc').Some? ==>
      || (SpecOf(pc) == SpecOf(pc') && WorkKey(pc) == WorkKey(pc'))
      || (WorkKey(pc').Some? && WorkKey(pc').value.name in s.latest
          && SpecOf(pc').value == s.latest[WorkKey(pc').value.name] && s'.sessions == s.sessions
              && s'.latest == s.latest)
  }

  lemma FetchMoves(s: State, s': State, t: nat, choice: Choice)
    requires t < |s.threads| && s.threads[t].Fetching? && Act(s, t, choice) == Some(s')
    ensures |s'.threads| == |s.threads| && SpecMoves(s, s', t)
  {
  }

  lemma LookMoves(s: State, s': State, t: nat, choice: Choice)
    requires t < |s.threads| && (s.threads[t].LookLock? || s.threads[t].LookHeld?) && Act(s, t, choice) == Some(s')
    ensures |s'.threads| == |s.threads| && SpecMoves(s, s', t)
  {
  }

  lemma StopMoves(s: State, s': State, t: nat, choice: Choice)
    requires t < |s.threads| && Stopping(s.threads[t]) && Act(s, t, choice) == Some(s')
    ensures |s'.threads| == |s.threads| && SpecMoves(s, s', t)
  {
  }

  lemma LastMoves(s: State, s': State, t: nat, choice: Choice)
    requires t < |s.threads| && Act(s, t, choice) == Some(s')
    requires var pc := s.threads[t]; !pc.Fetching? && !pc.LookLock? && !pc.LookHeld? && !Stopping(pc)
    ensures |s'.threads| == |s.threads| && SpecOf(s'.threads[t]).None?
  {
    var pc := s.threads[t];
    if pc.AllHeld? || pc.AllLock? || pc.AwaitDone? { AllMoves(s, s', t, choice); }
  }

  lemma AllMoves(s: State, s': State, t: nat, choice: Choice)
    requires t < |s.threads| && Act(s, t, choice) == Some(s')
    requires var pc := s.threads[t]; pc.AllHeld? || pc.AllLock? || pc.AwaitDone?
    ensures |s'.threads| == |s.threads| && SpecOf(s'.threads[t]).None?
  {
  }

  lemma OwnStepMoves(s: State, s': State, t: nat, choice: Choice)
    requires t < |s.threads| && Act(s, t, choice) == Some(s')
    ensures |s'.threads| == |s.threads| && SpecMoves(s, s', t)
  {
    var pc := s.threads[t];
    if pc.Fetching? { FetchMoves(s, s', t, choice); }
    else if pc.LookLock? || pc.LookHeld? { LookMoves(s, s', t, choice); }
    else if Stopping(pc) { StopMoves(s, s', t, choice); }
    else { LastMoves(s, s', t, choice); }
  }

  lemma SpecsMove(s: State, s': State, step: Step, t: nat)
    requires NextStep(s, s', step) && t < |s.threads|
    ensures |s'.threads| == |s.threads| && SpecMoves(s, s', t)
  {
    if step.Work? && step.t == t {
      OwnStepMoves(s, s', t, step.choice);
    } else {
      OthersStay(s, s', step, t);
    }
  }

  // The latest revision of a document only rises.
  lemma LatestRises(s: State, s': State, step: Step, name: string)
    requires NextStep(s, s', step) && name in s.latest
    ensures name in s'.latest && s.latest[name].rev <= s'.latest[name].rev
  {
  }

  // What the lemmas below need of a step.
  ghost predicate Facts(s: State, s': State) {
    && SameSessions(s, s') && |s'.threads| == |s.threads| && |s'.sessions| <= |s.sessions| + 1
    && (forall name | name in s.latest :: name in s'.latest && s.latest[name].rev <= s'.latest[name].rev)
    && (forall t | 0 <= t < |s.threads| :: SpecMoves(s, s', t))
    && (|s'.sessions| > |s.sessions| ==> exists t :: 0 < t < |s.threads| && Builder(s, s', t))
  }

  // The worker that added the last session, for the key and the spec it held.
  ghost predicate Builder(s: State, s': State, t: nat)
    requires t < |s.threads| == |s'.threads| && |s'.sessions| > |s.sessions|
  {
    var x := s'.sessions[|s.sessions|];
    && s.threads[t] == Building(x.key, x.spec) && SpecOf(s'.threads[t]).None?
    && forall u | 0 <= u < |s.threads| && u != t :: s'.threads[u] == s.threads[u]
  }

  lemma BuilderOf(s: State, s': State, step: Step)
    requires Roles(s) && NextStep(s, s', step) && |s'.sessions| > |s.sessions|
    ensures |s'.threads| == |s.threads| && step.Work? && 0 < step.t < |s.threads| && Builder(s, s', step.t)
  {
    SessionsGrow(s, s', step);
    assert Role(step.t, s.threads[step.t]);
    LastMoves(s, s', step.t, step.choice);
    forall u | 0 <= u < |s.threads| && u != step.t ensures s'.threads[u] == s.threads[u] { OthersStay(s, s', step, u); }
  }

  lemma StepFacts(s: State, s': State, step: Step)
    requires Roles(s) && NextStep(s, s', step)
    ensures Facts(s, s')
  {
    SpecsMove(s, s', step, 0);
    SessionsGrow(s, s', step);
    forall name | name in s.latest ensures name in s'.latest && s.latest[name].rev <= s'.latest[name].rev {
      LatestRises(s, s', step, name);
    }
    forall t | 0 <= t < |s.threads| ensures SpecMoves(s, s', t) { SpecsMove(s, s', step, t); }
    if |s'.sessions| > |s.sessions| { BuilderOf(s, s', step); }
  }

  lemma StepBelow(s: State, s': State, i: nat)
    requires Ordered(s) && Facts(s, s') && i < |s'.sessions|
    ensures BelowLatest(s', i)
  {
    if i < |s.sessions| {
      assert BelowLatest(s, i);
    } else {
      var t :| 0 < t < |s.threads| && Builder(s, s', t);
      assert HoldsNewest(s, t);
    }
  }

  lemma StepRising(s: State, s': State, i: nat, j: nat)
    requires Ordered(s) && Facts(s, s') && i < |s'.sessions| && j < |s'.sessions|
    ensures Rising(s', i, j)
  {
    if i < j < |s.sessions| {
      assert Rising(s, i, j);
    } else if i < j {
      var t :| 0 < t < |s.threads| && Builder(s, s', t);
      assert HoldsNewest(s, t);
    }
  }

  // A worker that still holds its key holds the newest spec, whatever the others build.
  lemma StepHolds(s: State, s': State, t: nat)
    requires Exclusive(s) && Ordered(s) && Facts(s, s') && 0 < t < |s.threads|
    ensures HoldsNewest(s', t)
  {
    var pc := s'.threads[t];
    if SpecOf(pc).Some? && WorkKey(pc).Some? {
      var k, spec := WorkKey(pc).value, SpecOf(pc).value;
      assert HoldsNewest(s, t) && SpecMoves(s, s', t);
      forall i | 0 <= i < |s'.sessions| && s'.sessions[i].key == k ensures s'.sessions[i].spec.rev <= spec.rev {
        if i < |s.sessions| {
          assert BelowLatest(s, i);
        } else {
          BuilderIsOther(s, s', t);
        }
      }
    }
  }

  // A session added while t holds a spec is of another key.
  lemma BuilderIsOther(s: State, s': State, t: nat)
    requires Exclusive(s) && Facts(s, s') && |s'.sessions| > |s.sessions| && 0 < t < |s.threads|
    requires SpecOf(s'.threads[t]).Some?
    ensures WorkKey(s'.threads[t]) != Some(s'.sessions[|s.sessions|].key)
  {
    var u :| 0 < u < |s.threads| && Builder(s, s', u);
    assert s'.threads[t] == s.threads[t];
  }

  lemma StepOrdered(s: State, s': State, step: Step)
    requires Roles(s) && Exclusive(s) && Ordered(s) && NextStep(s, s', step)
    ensures Ordered(s')
  {
    StepFacts(s, s', step);
    FactsOrdered(s, s');
  }

  lemma FactsOrdered(s: State, s': State)
    requires Exclusive(s) && Ordered(s) && Facts(s, s')
    ensures Ordered(s')
  {
    forall i | 0 <= i < |s'.sessions| ensures BelowLatest(s', i) { StepBelow(s, s', i); }
    forall i, j | 0 <= i < |s'.sessions| && 0 <= j < |s'.sessions| ensures Rising(s', i, j) { StepRising(s, s', i, j); }
    forall t | 0 < t < |s'.threads| ensures HoldsNewest(s', t) { StepHolds(s, s', t); }
  }

  /** Revisions never go back: over any run, shutdown included, later sessions of a key are for no older
      revision of its spec. */
  lemma {:induction false} RevisionsRise(ss: seq<State>, n: nat)
    requires Run(ss) && n < |ss|
    ensures Ordered(ss[n])
  {
    if n == 0 {
      InitOrdered(ss[0]);
    } else {
      RevisionsRise(ss, n - 1);
      RunRoles(ss, n - 1);
      assert StepAt(ss, n);
      NextOrdered(ss[n - 1], ss[n]);
    }
  }

  lemma RunRoles(ss: seq<State>, n: nat)
    requires Run(ss) && n < |ss|
    ensures Roles(ss[n]) && Exclusive(ss[n])
  {
    RunInv(ss, n);
  }

  lemma InitOrdered(s: State)
    requires Init(s)
    ensures Ordered(s)
  {
  }

  lemma NextOrdered(s: State, s': State)
    requires Roles(s) && Exclusive(s) && Ordered(s) && Next(s, s')
    ensures Ordered(s')
  {
    var step :| NextStep(s, s', step);
    StepOrdered(s, s', step);
  }
}
