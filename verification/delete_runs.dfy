/** The deletion state machine inside runs of the DeleteDesire controller: what a stored status says
    about the cluster. */
module DeleteDesireRuns {
  import opened KubeApplier
  import opened Outcomes
  import D = DeleteDesire
  import S = DesireSyncs
  import W = StatusWriteProtocol

  /** The pass behind a status write, and the history of its target that it ran against. */
  datatype Evaluation = Evaluation(history: seq<D.Object>, pass: D.Pass)

  /** Every status write of the run reports the verdict of its own pass over some history. */
  ghost predicate Evaluated(s: S.State, evaluations: seq<Evaluation>) {
    && !s.applies && |evaluations| == |s.w.calls|
    && forall c | 0 <= c < |s.w.calls| :: EvaluatedAt(s.w.calls[c].who.mutation, evaluations[c])
  }

  ghost predicate EvaluatedAt(m: Mutation, e: Evaluation) {
    D.PassOn(e.history, e.pass) && m.DeleteOutcome? && m.verdict == D.Evaluate(e.pass.target, e.pass.a)
  }

  /** What a stored Successful condition promises about the cluster, given the pass behind it: True
      means the target was absent at an instant of the pass; WaitingForDeletion means the pass last saw
      it terminating or after its own accepted Delete. */
  ghost predicate Promises(c: Condition, e: Evaluation) {
    && D.PassOn(e.history, e.pass)
    && (c.status.ConditionTrue? ==> exists i :: e.pass.from <= i <= e.pass.to && e.history[i].Absent?)
    && (c.reason == REASON_WAITING_FOR_DELETION ==>
          && e.pass.from <= D.LastGet(e.pass) <= e.pass.to
          && var o := e.history[D.LastGet(e.pass)];
             o.Present? && (o.deletion.Some? || D.LooksAgain(e.pass.target, e.pass.a)))
  }

  lemma VerdictPromises(v: Verdict, e: Evaluation)
    requires D.PassOn(e.history, e.pass) && v == D.Evaluate(e.pass.target, e.pass.a)
    ensures Promises(VerdictSuccessful(v).(lastTransition := 0), e)
  {
    D.OutcomeIsLinearizable(e.history, e.pass);
    assert REASON_WAITING_FOR_DELETION[0] != REASON_NO_ERRORS[0];
    assert REASON_WAITING_FOR_DELETION[0] != REASON_KUBE_API_ERROR[0];
    assert REASON_WAITING_FOR_DELETION[0] != REASON_PRE_CHECK_FAILED[0];
  }

  /** Every DeleteDesire status any run stores, late writes included, keeps its promise at the time of
      the sync that wrote it, whatever other actors do to the cluster. */
  lemma StoredStatusIsLinearizable(ss: seq<S.State>, n: nat, p: nat, evaluations: seq<Evaluation>)
    requires S.Run(ss) && n < |ss| && p < |ss[n].w.log| && Evaluated(ss[n], evaluations)
    ensures ss[n].w.log[p].call < |evaluations|
    ensures var c := Reads(ss[n].w.log[p].after.body.conditions, TYPE_SUCCESSFUL);
            c.Some? && Promises(c.value, evaluations[ss[n].w.log[p].call])
  {
    S.RunInv(ss, n);
    var l := ss[n].w.log[p];
    assert W.Settled(ss[n].w, l);
    S.LandingIsOfOneSync(ss[n], p);
    assert EvaluatedAt(ss[n].w.calls[l.call].who.mutation, evaluations[l.call]);
    VerdictPromises(l.who.mutation.verdict, evaluations[l.call]);
  }

  /* ---- One timeline ---- */

  /** The cluster beside a run: `history[m]` is the target when the run is in its state m, and
      `passes[i]` is the pass of sync i. */
  datatype Cluster = Cluster(history: seq<D.Object>, passes: seq<D.Pass>)

  // The pass of sync i runs against the history while that sync is the one active for its key.
  ghost predicate PassDuring(ss: seq<S.State>, c: Cluster, key: Key, target: ResourceReference, i: nat)
    requires i < |c.passes| && |c.history| == |ss|
  {
    && c.passes[i].target == target && D.PassOn(c.history, c.passes[i])
    && forall m | c.passes[i].from <= m <= c.passes[i].to :: key in ss[m].active && ss[m].active[key] == i
  }

  /** Every status write of this key reports the verdict of its sync's pass over that one history. */
  ghost predicate Timeline(ss: seq<S.State>, n: nat, c: Cluster, key: Key, target: ResourceReference)
    requires n < |ss|
  {
    && !ss[n].applies && |c.history| == |ss| && |c.passes| == |ss[n].syncs|
    && forall d | 0 <= d < |ss[n].w.calls| && ss[n].w.calls[d].who.key == key ::
         Reported(ss, c, key, target, ss[n].w.calls[d].who)
  }

  ghost predicate Reported(ss: seq<S.State>, c: Cluster, key: Key, target: ResourceReference, who: W.Writer)
    requires |c.history| == |ss|
  {
    && 0 < who.gen <= |c.passes| && PassDuring(ss, c, key, target, who.gen - 1)
    && who.mutation.DeleteOutcome? && who.mutation.verdict == D.Evaluate(target, c.passes[who.gen - 1].a)
  }

  // The syncs active for a key come in the order of their numbers.
  lemma {:induction false} ActiveRises(ss: seq<S.State>, n: nat, m: nat, key: Key)
    requires S.Run(ss) && n <= m < |ss| && key in ss[n].active
    ensures ss[n].active[key] < |ss[m].syncs|
    ensures key in ss[m].active ==> ss[n].active[key] <= ss[m].active[key]
    decreases m - n
  {
    if n == m {
      S.RunInv(ss, n);
    } else {
      ActiveRises(ss, n, m - 1, key);
      assert S.StepAt(ss, m);
      var step :| S.NextStep(ss[m - 1], ss[m], step);
      ActiveStep(ss[m - 1], ss[m], step, key);
    }
  }

  lemma ActiveStep(s: S.State, s': S.State, step: S.Step, key: Key)
    requires S.NextStep(s, s', step)
    ensures |s.syncs| <= |s'.syncs|
    ensures key in s'.active ==> (key in s.active && s'.active[key] == s.active[key]) || s'.active[key] == |s.syncs|
  {
  }

  // So an earlier sync's pass is over before a later one's begins.
  lemma PassesFollow(ss: seq<S.State>, c: Cluster, key: Key, target: ResourceReference, i: nat, j: nat)
    requires S.Run(ss) && |c.history| == |ss| && i < j < |c.passes|
    requires PassDuring(ss, c, key, target, i) && PassDuring(ss, c, key, target, j)
    ensures c.passes[i].to < c.passes[j].from
  {
    var a, b := c.passes[i].to, c.passes[j].from;
    if b <= a {
      ActiveRises(ss, b, a, key);
    }
  }

  // A landing of the key is some call's, with what that call reported.
  lemma LandingReported(ss: seq<S.State>, n: nat, c: Cluster, key: Key, target: ResourceReference, p: nat)
    requires S.Run(ss) && n < |ss| && Timeline(ss, n, c, key, target)
    requires p < |ss[n].w.log| && ss[n].w.log[p].who.key == key
    ensures Reported(ss, c, key, target, ss[n].w.log[p].who)
    ensures var l := ss[n].w.log[p];
            Reads(l.after.body.conditions, TYPE_SUCCESSFUL) == Some(VerdictSuccessful(l.who.mutation.verdict))
  {
    S.RunInv(ss, n);
    assert W.Settled(ss[n].w, ss[n].w.log[p]);
    S.LandingIsOfOneSync(ss[n], p);
  }

  /** On one timeline of the cluster: a stored Successful=True means that the target was absent at an
      instant while the sync that wrote it was running, and WaitingForDeletion likewise. */
  lemma StoredStatusOnTimeline(ss: seq<S.State>, n: nat, c: Cluster, key: Key, target: ResourceReference, p: nat)
    requires S.Run(ss) && n < |ss| && Timeline(ss, n, c, key, target)
    requires p < |ss[n].w.log| && ss[n].w.log[p].who.key == key
    ensures 0 < ss[n].w.log[p].who.gen <= |c.passes|
    ensures var i := ss[n].w.log[p].who.gen - 1;
            var r := Reads(ss[n].w.log[p].after.body.conditions, TYPE_SUCCESSFUL);
            && PassDuring(ss, c, key, target, i)
            && r.Some? && Promises(r.value, Evaluation(c.history, c.passes[i]))
  {
    LandingReported(ss, n, c, key, target, p);
    var l := ss[n].w.log[p];
    VerdictPromises(l.who.mutation.verdict, Evaluation(c.history, c.passes[l.who.gen - 1]));
  }

  /** Success is stable over whole runs. If nobody re-creates the target, then once a stored status of a
      DeleteDesire is Successful=True every later one is too, or an API call of the sync that wrote it
      failed; late writes of timed-out syncs included. */
  lemma SuccessIsStable(
    ss: seq<S.State>, n: nat, c: Cluster, key: Key, target: ResourceReference, p: nat, q: nat)
    requires S.Run(ss) && n < |ss| && Timeline(ss, n, c, key, target) && target.Complete()
    requires D.NoRecreation(c.history) && p < q < |ss[n].w.log|
    requires ss[n].w.log[p].who.key == ss[n].w.log[q].who.key == key
    requires var r := Reads(ss[n].w.log[p].after.body.conditions, TYPE_SUCCESSFUL);
             r.Some? && r.value.status.ConditionTrue?
    ensures 0 < ss[n].w.log[q].who.gen <= |c.passes|
    ensures var r := Reads(ss[n].w.log[q].after.body.conditions, TYPE_SUCCESSFUL);
            && r.Some?
            && (r.value.status.ConditionTrue? || D.ApiFailed(c.passes[ss[n].w.log[q].who.gen - 1]))
  {
    var l, m := ss[n].w.log[p].who, ss[n].w.log[q].who;
    LandingReported(ss, n, c, key, target, p);
    LandingReported(ss, n, c, key, target, q);
    TrueMeansGone(l.mutation.verdict);
    TrueMeansGone(m.mutation.verdict);
    GenerationsInOrder(ss, n, p, q);
    GoneStays(ss, c, key, target, l, m);
  }

  lemma TrueMeansGone(v: Verdict)
    ensures VerdictSuccessful(v).status.ConditionTrue? <==> v.Gone?
  {
  }

  lemma GenerationsInOrder(ss: seq<S.State>, n: nat, p: nat, q: nat)
    requires S.Run(ss) && n < |ss| && p < q < |ss[n].w.log| && ss[n].w.log[p].who.key == ss[n].w.log[q].who.key
    ensures ss[n].w.log[p].who.gen <= ss[n].w.log[q].who.gen
  {
    S.RunInv(ss, n);
    assert W.InOrder(ss[n].w.log[p], ss[n].w.log[q]);
  }

  lemma GoneStays(ss: seq<S.State>, c: Cluster, key: Key, target: ResourceReference, l: W.Writer, m: W.Writer)
    requires S.Run(ss) && |c.history| == |ss| && target.Complete() && D.NoRecreation(c.history)
    requires Reported(ss, c, key, target, l) && Reported(ss, c, key, target, m) && l.gen <= m.gen
    requires l.mutation.verdict.Gone?
    ensures m.mutation.verdict.Gone? || D.ApiFailed(c.passes[m.gen - 1])
  {
    if l.gen < m.gen {
      PassesFollow(ss, c, key, target, l.gen - 1, m.gen - 1);
      D.GoneIsStable(c.history, c.passes[l.gen - 1], c.passes[m.gen - 1]);
    }
  }
}
