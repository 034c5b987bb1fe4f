/** The manager and its reflectors writing status: the lifecycle machine and the write protocol run
    together. A session (a reflector, or the manager's own build-failure write) begins and sends store
    calls only while its context is live; what it sent may arrive whenever it likes. Sessions of a key
    are numbered by creation; session i writes as generation i + 1 of its key. */
module ReadDesireFencing {
  import opened KubeApplier
  import opened Outcomes
  import M = ReadDesireManager
  import W = StatusWriteProtocol
  import R = ReadDesireRevisions

  datatype Joint = Joint(m: M.State, w: W.World)

  datatype Step =
    | Manage(step: M.Step)
    | BeginBy(i: nat, mutation: Mutation)
    | FetchReply(c: nat)
    | DecideBy(c: nat)
    | Arrive(c: nat, heard: bool)
    | GiveUp(c: nat)

  /** A reflector may call the store while its context is live, even though its Run does not join the
      worker that calls; a build-failure write runs on the worker thread itself. */
  ghost predicate MayCall(m: M.State, i: nat) {
    i < |m.sessions| &&
    if m.sessions[i].reflector then m.sessions[i].started && !M.Cancelled(m, i)
    else exists t :: 0 <= t < |m.threads| && m.threads[t] == M.FailWrite(m.sessions[i].key, i)
  }

  /** The spec revision a mirror or build-failure mutation reports. */
  predicate Reports(mutation: Mutation, rev: nat) {
    (mutation.ReadFailed? || mutation.ReadKept? || mutation.ReadStored?) && mutation.rev == rev
  }

  ghost predicate NextStep(j: Joint, j': Joint, step: Step) {
    match step
    case Manage(s) =>
      && M.NextStep(j.m, j'.m, s)
      && j'.w == if |j'.m.sessions| > |j.m.sessions|
           then j.w.(epoch := j.w.epoch[j'.m.sessions[|j.m.sessions|].key := |j.m.sessions| + 1])
           else j.w
    case BeginBy(i, mutation) =>
      && MayCall(j.m, i) && Reports(mutation, j.m.sessions[i].spec.rev)
      && j' == j.(w := j.w.(calls := j.w.calls
          + [W.Call(W.Writer(j.m.sessions[i].key, i + 1, mutation), W.Begun, W.Pending)]))
    case FetchReply(c) =>
      j'.m == j.m && W.NextStep(j.w, j'.w, W.Fetch(c))
    case DecideBy(c) =>
      && c < |j.w.calls| && j.w.calls[c].phase.Fetched? && j.w.calls[c].answer.Pending? && j'.m == j.m
      && (W.IsNoop(j.w.calls[c]) || (j.w.calls[c].who.gen > 0 && MayCall(j.m, j.w.calls[c].who.gen - 1)))
      && j'.w == j.w.(calls := j.w.calls[c := W.Decided(j.w.calls[c])])
    case Arrive(c, heard) =>
      j'.m == j.m && W.NextStep(j.w, j'.w, W.Deliver(c, heard))
    case GiveUp(c) =>
      j'.m == j.m && W.NextStep(j.w, j'.w, W.GiveUp(c))
  }

  ghost predicate Next(j: Joint, j': Joint) {
    exists step :: NextStep(j, j', step)
  }

  ghost predicate StepAt(js: seq<Joint>, n: nat)
    requires 0 < n < |js|
  {
    Next(js[n - 1], js[n])
  }

  ghost predicate Run(js: seq<Joint>) {
    |js| > 0 && M.Init(js[0].m) && W.Init(js[0].w) && forall n | 0 < n < |js| :: StepAt(js, n)
  }

  /** One more than the number of the key's newest session, or 0. */
  function Newest(sessions: seq<M.Session>, key: Key): nat {
    if sessions == [] then 0
    else if sessions[|sessions| - 1].key == key then |sessions|
    else Newest(sessions[..|sessions| - 1], key)
  }

  lemma {:induction false} NewestIs(sessions: seq<M.Session>, i: nat)
    requires i < |sessions|
    requires forall j | i < j < |sessions| :: sessions[j].key != sessions[i].key
    ensures Newest(sessions, sessions[i].key) == i + 1
  {
    if i < |sessions| - 1 {
      NewestIs(sessions[..|sessions| - 1], i);
    }
  }

  // Whoever may call the store is the newest session of its key.
  lemma CallerIsNewest(m: M.State, i: nat)
    requires M.Inv(m) && MayCall(m, i)
    ensures Newest(m.sessions, m.sessions[i].key) == i + 1
  {
    forall j | i < j < |m.sessions| ensures m.sessions[j].key != m.sessions[i].key {
      assert M.Succeeds(m, i, j) && M.Placed(m, i);
      if !m.sessions[i].reflector {
        var t :| 0 <= t < |m.threads| && m.threads[t] == M.FailWrite(m.sessions[i].key, i);
        assert M.Hand(m, m.threads[t]);
      }
    }
    NewestIs(m.sessions, i);
  }

  ghost predicate Authored(m: M.State, who: W.Writer) {
    && 0 < who.gen <= |m.sessions|
    && m.sessions[who.gen - 1].key == who.key
    && Reports(who.mutation, m.sessions[who.gen - 1].spec.rev)
  }

  // Epochs count sessions, and every call was made by a session of its key.
  ghost predicate Books(j: Joint) {
    && (forall key :: W.Epoch(j.w, key) == Newest(j.m.sessions, key))
    && (forall c | 0 <= c < |j.w.calls| :: Authored(j.m, j.w.calls[c].who))
  }

  ghost predicate Inv(j: Joint) {
    M.Inv(j.m) && W.Inv(j.w) && Books(j)
  }

  lemma {:induction false} NewestSame(a: seq<M.Session>, b: seq<M.Session>, key: Key)
    requires |a| == |b| && forall i | 0 <= i < |a| :: a[i].key == b[i].key
    ensures Newest(a, key) == Newest(b, key) <= |a|
  {
    if a != [] {
      NewestSame(a[..|a| - 1], b[..|b| - 1], key);
    }
  }

  lemma NewestGrows(m: M.State, m': M.State, step: M.Step, key: Key)
    requires M.NextStep(m, m', step)
    ensures var n := |m.sessions|;
            Newest(m.sessions, key) <= n <= |m'.sessions| <= n + 1
            && Newest(m'.sessions, key) ==
                if |m'.sessions| > n && m'.sessions[n].key == key then n + 1 else Newest(m.sessions, key)
  {
    R.SessionsGrow(m, m', step);
    NewestOfGrown(m.sessions, m'.sessions, key);
  }

  lemma NewestOfGrown(a: seq<M.Session>, b: seq<M.Session>, key: Key)
    requires |a| <= |b| <= |a| + 1 && forall i | 0 <= i < |a| :: a[i].key == b[i].key
    ensures Newest(a, key) <= |a|
    ensures Newest(b, key) == if |b| > |a| && b[|a|].key == key then |a| + 1 else Newest(a, key)
  {
    NewestSame(a, b[..|a|], key);
    assert |b| == |a| ==> b[..|a|] == b;
  }

  lemma ManageBooks(j: Joint, j': Joint, step: M.Step)
    requires Books(j) && NextStep(j, j', Manage(step))
    ensures Books(j')
    ensures j'.w == j.w || W.NextStep(j.w, j'.w, W.NewEpoch(j'.m.sessions[|j.m.sessions|].key, |j.m.sessions| + 1))
  {
    R.SessionsGrow(j.m, j'.m, step);
    forall key ensures W.Epoch(j'.w, key) == Newest(j'.m.sessions, key) {
      NewestGrows(j.m, j'.m, step, key);
    }
    forall c | 0 <= c < |j'.w.calls| ensures Authored(j'.m, j'.w.calls[c].who) {
      assert Authored(j.m, j.w.calls[c].who);
    }
    if |j'.m.sessions| > |j.m.sessions| {
      NewestGrows(j.m, j'.m, step, j'.m.sessions[|j.m.sessions|].key);
    }
  }

  // The joint machine's store steps are steps of the write protocol: a live context means the
  // generation is current.
  lemma BeginRefines(j: Joint, j': Joint, i: nat, mutation: Mutation)
    requires M.Inv(j.m) && Books(j) && NextStep(j, j', BeginBy(i, mutation))
    ensures W.NextStep(j.w, j'.w, W.Begin(j.m.sessions[i].key, mutation))
  {
    CallerIsNewest(j.m, i);
  }

  lemma DecideRefines(j: Joint, j': Joint, c: nat)
    requires M.Inv(j.m) && Books(j) && NextStep(j, j', DecideBy(c))
    ensures W.NextStep(j.w, j'.w, W.Decide(c))
  {
    var who := j.w.calls[c].who;
    assert Authored(j.m, who);
    if j'.w.calls[c].phase.Sent? { CallerIsNewest(j.m, who.gen - 1); }
  }

  lemma StoreBooks(j: Joint, j': Joint, step: Step)
    requires Books(j) && NextStep(j, j', step) && !step.Manage?
    ensures Books(j') && j'.m == j.m
  {
    forall c | 0 <= c < |j'.w.calls| ensures Authored(j'.m, j'.w.calls[c].who) {
      assert c < |j.w.calls| ==> Authored(j.m, j.w.calls[c].who) && j'.w.calls[c].who == j.w.calls[c].who;
    }
  }

  lemma StepInv(j: Joint, j': Joint, step: Step)
    requires Inv(j) && NextStep(j, j', step)
    ensures Inv(j')
  {
    match step {
      case Manage(s) =>
        ManageBooks(j, j', s);
        assert M.Next(j.m, j'.m);
        M.NextInv(j.m, j'.m);
        if j'.w != j.w {
          W.StepInv(j.w, j'.w, W.NewEpoch(j'.m.sessions[|j.m.sessions|].key, |j.m.sessions| + 1));
        }
      case BeginBy(i, mutation) =>
        StoreBooks(j, j', step);
        BeginRefines(j, j', i, mutation);
        W.StepInv(j.w, j'.w, W.Begin(j.m.sessions[i].key, mutation));
      case FetchReply(c) =>
        StoreBooks(j, j', step);
        W.StepInv(j.w, j'.w, W.Fetch(c));
      case DecideBy(c) =>
        StoreBooks(j, j', step);
        DecideRefines(j, j', c);
        W.StepInv(j.w, j'.w, W.Decide(c));
      case Arrive(c, heard) =>
        StoreBooks(j, j', step);
        W.StepInv(j.w, j'.w, W.Deliver(c, heard));
      case GiveUp(c) =>
        StoreBooks(j, j', step);
        W.StepInv(j.w, j'.w, W.GiveUp(c));
    }
  }

  lemma {:induction false} RunInv(js: seq<Joint>, n: nat)
    requires Run(js) && n < |js|
    ensures Inv(js[n])
  {
    if n > 0 {
      RunInv(js, n - 1);
      assert StepAt(js, n);
      var step :| NextStep(js[n - 1], js[n], step);
      StepInv(js[n - 1], js[n], step);
    }
  }

  /** Fencing: once any later session of a key has landed a status write, no write begun by an
      earlier session of that key lands, in any interleaving of workers, stopAll, cancels, late
      deliveries and unjoined reflector workers. */
  lemma StoppedWritersAreFenced(js: seq<Joint>, n: nat, p: nat, q: nat)
    requires Run(js) && n < |js| && p < q < |js[n].w.log|
    requires js[n].w.log[p].who.key == js[n].w.log[q].who.key
    ensures js[n].w.log[p].who.gen <= js[n].w.log[q].who.gen
  {
    RunInv(js, n);
    assert W.InOrder(js[n].w.log[p], js[n].w.log[q]);
  }

  /** What lands names its source: it was written by a session of that document's key, and the
      revision it reports is a published revision of that document whose target this session was
      built for. */
  lemma LandedRevisionIsWatched(js: seq<Joint>, n: nat, p: nat)
    requires Run(js) && n < |js| && p < |js[n].w.log|
    ensures var l := js[n].w.log[p];
            && 0 < l.who.gen <= |js[n].m.sessions|
            && var x := js[n].m.sessions[l.who.gen - 1];
               && l.after.id == x.key.name && x.key == l.who.key
               && l.after.body.observed == x.spec.rev
               && (l.after.id, x.spec) in js[n].m.published
  {
    RunInv(js, n);
    var w := js[n].w;
    assert W.Settled(w, w.log[p]) && W.GoodLanding(w.base, w.log[..p], w.log[p]);
    assert Authored(js[n].m, w.log[p].who);
  }

  /* ---- Revisions ---- */

  lemma {:induction false} ManagerOrdered(js: seq<Joint>, n: nat)
    requires Run(js) && n < |js|
    ensures R.Ordered(js[n].m)
  {
    if n > 0 {
      ManagerOrdered(js, n - 1);
      ManagerRoles(js, n - 1);
      assert StepAt(js, n);
      var step :| NextStep(js[n - 1], js[n], step);
      StepOrdered(js[n - 1], js[n], step);
    }
  }

  lemma ManagerRoles(js: seq<Joint>, n: nat)
    requires Run(js) && n < |js|
    ensures M.Roles(js[n].m) && M.Exclusive(js[n].m)
  {
    RunInv(js, n);
  }

  lemma StepOrdered(j: Joint, j': Joint, step: Step)
    requires M.Roles(j.m) && M.Exclusive(j.m) && R.Ordered(j.m) && NextStep(j, j', step)
    ensures R.Ordered(j'.m)
  {
    if step.Manage? { R.StepOrdered(j.m, j'.m, step.step); }
  }

  /** The observed revision of a ReadDesire is monotone for each key: whatever is restarted, late or
      racing, no landing reports an older revision than an earlier one of that key. */
  lemma ReadObservedIsMonotone(js: seq<Joint>, n: nat, p: nat, q: nat)
    requires Run(js) && n < |js| && p <= q < |js[n].w.log|
    requires js[n].w.log[p].who.key == js[n].w.log[q].who.key
    ensures js[n].w.log[p].after.body.observed <= js[n].w.log[q].after.body.observed
  {
    if p < q {
      ManagerOrdered(js, n);
      LandedRevisionIsWatched(js, n, p);
      LandedRevisionIsWatched(js, n, q);
      StoppedWritersAreFenced(js, n, p, q);
      var log, sessions := js[n].w.log, js[n].m.sessions;
      assert R.Rising(js[n].m, log[p].who.gen - 1, log[q].who.gen - 1);
    }
  }

  lemma {:induction false} SessionStays(js: seq<Joint>, n: nat, m: nat, i: nat)
    requires Run(js) && n <= m < |js| && i < |js[n].m.sessions|
    ensures i < |js[m].m.sessions|
    ensures js[m].m.sessions[i].key == js[n].m.sessions[i].key && js[m].m.sessions[i].spec == js[n].m.sessions[i].spec
    decreases m - n
  {
    if n < m {
      SessionStays(js, n, m - 1, i);
      assert StepAt(js, m);
      var step :| NextStep(js[m - 1], js[m], step);
      if step.Manage? { R.SessionsGrow(js[m - 1].m, js[m].m, step.step); }
    }
  }

  /** A session never reports another revision than its own: one that a sync kept although the spec moved
      on, at whatever later time its writes land, does not report the newer revision. */
  lemma KeptSessionLags(js: seq<Joint>, n: nat, m: nat, i: nat, rev: nat, p: nat)
    requires Run(js) && n <= m < |js| && i < |js[n].m.sessions| && js[n].m.sessions[i].spec.rev != rev
    requires p < |js[m].w.log| && js[m].w.log[p].who.gen == i + 1
    ensures js[m].w.log[p].after.body.observed == js[n].m.sessions[i].spec.rev != rev
  {
    SessionStays(js, n, m, i);
    LandedRevisionIsWatched(js, m, p);
  }
}
