/** Runs of the ApplyDesire or the DeleteDesire controller: workers sync keys (one worker a key at a
    time), read spec revisions that keep changing (`specs` has the latest of each document so far),
    and write status through the write protocol. Each sync is a generation of its key: a sync that has
    returned sends nothing more, but a write it timed out on may still arrive.

    ClusterID and NodePoolName are fixed per document (`owner`), so a document belongs to one key. */
module DesireSyncs {
  import opened KubeApplier
  import opened Conditions
  import opened Outcomes
  import SW = StatusWriter
  import W = StatusWriteProtocol
  import R = StatusWriteAnswers

  /** One SyncOnce: the spec revision it fetched, once it has. */
  datatype Sync = Sync(key: Key, rev: Option<nat>)

  /** `active` holds the keys in processing, with the number of the sync running on each. */
  datatype State = State(
    w: W.World, applies: bool, owner: map<string, Key>, specs: map<string, nat>,
    syncs: seq<Sync>, active: map<Key, nat>)

  datatype Step =
    | WriteSpec(name: string, rev: nat)
    | StartSync(key: Key)
    | FetchSpec(key: Key)
    | BeginWrite(key: Key, mutation: Mutation)
    | FetchStatus(c: nat)
    | DecideWrite(c: nat)
    | Arrive(c: nat, heard: bool)
    | GiveUp(c: nat)
    | EndSync(key: Key)

  /** The mutations a sync that read revision `rev` can build: the apply controller's come from
      applyDesired, which reports generation 0 with every error. */
  predicate Observes(applies: bool, m: Mutation, rev: nat) {
    if applies then m.ApplyOutcome? && m.rev == rev && (m.err.Some? ==> m.generation == 0)
    else m.DeleteOutcome? && m.rev == rev
  }

  predicate Running(s: State, who: W.Writer) {
    who.key in s.active && s.active[who.key] + 1 == who.gen
  }

  ghost predicate NextStep(s: State, s': State, step: Step) {
    match step
    case WriteSpec(name, rev) =>
      && (name in s.specs ==> s.specs[name] < rev)
      && s' == s.(specs := s.specs[name := rev])
    case StartSync(key) =>
      && key.name in s.owner && s.owner[key.name] == key && key !in s.active
      && s' == s.(syncs := s.syncs + [Sync(key, None)], active := s.active[key := |s.syncs|],
                  w := s.w.(epoch := s.w.epoch[key := |s.syncs| + 1]))
    case FetchSpec(key) =>
      && key in s.active && s.active[key] < |s.syncs| && s.syncs[s.active[key]].rev.None? && key.name in s.specs
      && s' == s.(syncs := s.syncs[s.active[key] := Sync(key, Some(s.specs[key.name]))])
    case BeginWrite(key, m) =>
      && key in s.active && s.active[key] < |s.syncs| && s.syncs[s.active[key]].rev.Some?
      && Observes(s.applies, m, s.syncs[s.active[key]].rev.value)
      && s' == s.(w := s.w.(calls := s.w.calls + [W.Call(W.Writer(key, s.active[key] + 1, m), W.Begun, W.Pending)]))
    case FetchStatus(c) =>
      s' == s.(w := s'.w) && W.NextStep(s.w, s'.w, W.Fetch(c))
    case DecideWrite(c) =>
      && c < |s.w.calls| && s.w.calls[c].phase.Fetched? && s.w.calls[c].answer.Pending?
      && (W.IsNoop(s.w.calls[c]) || Running(s, s.w.calls[c].who))
      && s' == s.(w := s.w.(calls := s.w.calls[c := W.Decided(s.w.calls[c])]))
    case Arrive(c, heard) =>
      s' == s.(w := s'.w) && W.NextStep(s.w, s'.w, W.Deliver(c, heard))
    case GiveUp(c) =>
      s' == s.(w := s'.w) && W.NextStep(s.w, s'.w, W.GiveUp(c))
    case EndSync(key) =>
      key in s.active && s' == s.(active := s.active - {key})
  }

  ghost predicate Next(s: State, s': State) {
    exists step :: NextStep(s, s', step)
  }

  ghost predicate Init(s: State) {
    && W.Init(s.w) && s.syncs == [] && s.active == map[]
    && (forall name | name in s.owner :: s.owner[name].name == name)
    && (forall id | id in s.w.base :: id in s.specs && s.w.base[id].body.observed <= s.specs[id])
  }

  ghost predicate StepAt(ss: seq<State>, n: nat)
    requires 0 < n < |ss|
  {
    Next(ss[n - 1], ss[n])
  }

  ghost predicate Run(ss: seq<State>) {
    |ss| > 0 && Init(ss[0]) && forall n | 0 < n < |ss| :: StepAt(ss, n)
  }

  // Syncs of one document follow one another, on revisions that do not go back.
  ghost predicate Follows(s: State, i: nat, j: nat)
    requires i < |s.syncs| && j < |s.syncs|
  {
    i < j && s.syncs[i].key == s.syncs[j].key ==>
      && (s.syncs[i].rev.Some? && s.syncs[j].rev.Some? ==> s.syncs[i].rev.value <= s.syncs[j].rev.value)
      && !(s.syncs[i].key in s.active && s.active[s.syncs[i].key] == i)
  }

  ghost predicate GoodSync(s: State, i: nat)
    requires i < |s.syncs|
  {
    var x := s.syncs[i];
    && x.key.name in s.owner && s.owner[x.key.name] == x.key
    && (x.rev.Some? ==> x.key.name in s.specs && x.rev.value <= s.specs[x.key.name])
    && W.Epoch(s.w, x.key) > i
  }

  ghost predicate Authored(s: State, who: W.Writer) {
    && 0 < who.gen <= |s.syncs|
    && s.syncs[who.gen - 1].key == who.key
    && s.syncs[who.gen - 1].rev.Some?
    && Observes(s.applies, who.mutation, s.syncs[who.gen - 1].rev.value)
  }

  ghost predicate Ledger(s: State) {
    && (forall i | 0 <= i < |s.syncs| :: GoodSync(s, i))
    && (forall i, j | 0 <= i < |s.syncs| && 0 <= j < |s.syncs| :: Follows(s, i, j))
  }

  ghost predicate Activity(s: State) {
    && (forall name | name in s.owner :: s.owner[name].name == name)
    && (forall key | key in s.active ::
          s.active[key] < |s.syncs| && s.syncs[s.active[key]].key == key && W.Epoch(s.w, key) == s.active[key] + 1)
    && (forall key :: W.Epoch(s.w, key) <= |s.syncs|)
  }

  // No sync reads a revision older than what the document already reported at the start.
  ghost predicate Based(s: State) {
    && (forall id | id in s.w.base :: id in s.specs && s.w.base[id].body.observed <= s.specs[id])
    && (forall i | 0 <= i < |s.syncs| :: BasedSync(s, s.syncs[i]))
  }

  ghost predicate BasedSync(s: State, x: Sync) {
    x.rev.Some? && x.key.name in s.w.base ==> s.w.base[x.key.name].body.observed <= x.rev.value
  }

  ghost predicate AllAuthored(s: State) {
    forall c | 0 <= c < |s.w.calls| :: Authored(s, s.w.calls[c].who)
  }

  ghost predicate Inv(s: State) {
    W.Inv(s.w) && Ledger(s) && Activity(s) && Based(s) && AllAuthored(s)
  }

  // Spec writes and sync bookkeeping.
  predicate Bookkeeping(step: Step) {
    step.WriteSpec? || step.StartSync? || step.FetchSpec? || step.EndSync?
  }

  lemma BookSync(s: State, s': State, step: Step, i: nat)
    requires Ledger(s) && Activity(s) && NextStep(s, s', step) && Bookkeeping(step) && i < |s'.syncs|
    ensures GoodSync(s', i)
  {
    if i < |s.syncs| { assert GoodSync(s, i); }
  }

  lemma BookFollows(s: State, s': State, step: Step, i: nat, j: nat)
    requires Ledger(s) && Activity(s) && NextStep(s, s', step) && Bookkeeping(step) && i < |s'.syncs| && j < |s'.syncs|
    ensures Follows(s', i, j)
  {
    if i < |s.syncs| { assert GoodSync(s, i); }
    if i < |s.syncs| && j < |s.syncs| { assert Follows(s, i, j); }
  }

  lemma BookLedger(s: State, s': State, step: Step)
    requires Ledger(s) && Activity(s) && NextStep(s, s', step) && Bookkeeping(step)
    ensures Ledger(s')
  {
    forall i | 0 <= i < |s'.syncs| ensures GoodSync(s', i) { BookSync(s, s', step, i); }
    forall i, j | 0 <= i < |s'.syncs| && 0 <= j < |s'.syncs| ensures Follows(s', i, j) {
      BookFollows(s, s', step, i, j);
    }
  }

  lemma StepBased(s: State, s': State, step: Step)
    requires Based(s) && NextStep(s, s', step)
    ensures Based(s')
  {
    assert s'.w.base == s.w.base;
    forall i | 0 <= i < |s'.syncs| ensures BasedSync(s', s'.syncs[i]) {
      if i < |s.syncs| { assert BasedSync(s, s.syncs[i]); }
    }
  }

  lemma BookActivity(s: State, s': State, step: Step)
    requires Activity(s) && NextStep(s, s', step) && Bookkeeping(step)
    ensures Activity(s')
  {
    forall key ensures W.Epoch(s'.w, key) <= |s'.syncs| {
      assert W.Epoch(s.w, key) <= |s.syncs|;
    }
    forall key | key in s'.active
      ensures s'.active[key] < |s'.syncs| && s'.syncs[s'.active[key]].key == key
          && W.Epoch(s'.w, key) == s'.active[key] + 1
    {
      if step.StartSync? && key == step.key {
        assert s'.active[key] == |s.syncs|;
      } else {
        assert key in s.active && s'.active[key] == s.active[key];
      }
    }
  }

  lemma BookAuthored(s: State, s': State, step: Step)
    requires AllAuthored(s) && NextStep(s, s', step) && Bookkeeping(step)
    ensures AllAuthored(s')
  {
    forall c | 0 <= c < |s'.w.calls| ensures Authored(s', s'.w.calls[c].who) {
      var who := s.w.calls[c].who;
      assert Authored(s, who);
      assert s'.syncs[who.gen - 1] == s.syncs[who.gen - 1];
    }
  }

  // What a store step leaves alone: the books, and who made each call; a new call is by the running sync.
  lemma StoreFrame(s: State, s': State, step: Step)
    requires NextStep(s, s', step) && !Bookkeeping(step)
    ensures s' == s.(w := s'.w) && s'.w.epoch == s.w.epoch
    ensures |s.w.calls| <= |s'.w.calls| && forall c | 0 <= c < |s.w.calls| :: s'.w.calls[c].who == s.w.calls[c].who
    ensures forall c | |s.w.calls| <= c < |s'.w.calls| ::
              step.BeginWrite? && s'.w.calls[c].who == W.Writer(step.key, s.active[step.key] + 1, step.mutation)
  {
  }

  lemma StoreAuthored(s: State, s': State, step: Step)
    requires AllAuthored(s) && Activity(s) && NextStep(s, s', step) && !Bookkeeping(step)
    ensures AllAuthored(s')
  {
    StoreFrame(s, s', step);
    forall c | 0 <= c < |s'.w.calls| ensures Authored(s', s'.w.calls[c].who) {
      assert c < |s.w.calls| ==> Authored(s, s.w.calls[c].who);
    }
  }

  lemma StoreBooks(s: State, s': State)
    requires Ledger(s) && Activity(s) && s' == s.(w := s'.w) && s'.w.epoch == s.w.epoch
    ensures Ledger(s') && Activity(s')
  {
    forall i | 0 <= i < |s'.syncs| ensures GoodSync(s', i) { assert GoodSync(s, i); }
    forall i, j | 0 <= i < |s'.syncs| && 0 <= j < |s'.syncs| ensures Follows(s', i, j) { assert Follows(s, i, j); }
    forall key ensures W.Epoch(s'.w, key) == W.Epoch(s.w, key) {}
  }

  // Store steps are steps of the write protocol: a running sync is the newest generation of its key.
  lemma StoreRefines(s: State, s': State, step: Step) returns (wstep: W.Step)
    requires Activity(s) && NextStep(s, s', step) && !Bookkeeping(step)
    ensures W.NextStep(s.w, s'.w, wstep)
  {
    wstep := match step
      case BeginWrite(key, m) => W.Begin(key, m)
      case FetchStatus(c) => W.Fetch(c)
      case DecideWrite(c) => W.Decide(c)
      case Arrive(c, heard) => W.Deliver(c, heard)
      case GiveUp(c) => W.GiveUp(c);
  }

  lemma StepInv(s: State, s': State, step: Step)
    requires Inv(s) && NextStep(s, s', step)
    ensures Inv(s')
  {
    StepBased(s, s', step);
    if Bookkeeping(step) {
      BookLedger(s, s', step);
      BookActivity(s, s', step);
      BookAuthored(s, s', step);
      if step.StartSync? {
        W.StepInv(s.w, s'.w, W.NewEpoch(step.key, |s.syncs| + 1));
      }
    } else {
      StoreFrame(s, s', step);
      StoreBooks(s, s');
      StoreAuthored(s, s', step);
      var wstep := StoreRefines(s, s', step);
      W.StepInv(s.w, s'.w, wstep);
    }
  }

  lemma {:induction false} RunInv(ss: seq<State>, n: nat)
    requires Run(ss) && n < |ss|
    ensures Inv(ss[n])
  {
    if n > 0 {
      RunInv(ss, n - 1);
      assert StepAt(ss, n);
      var step :| NextStep(ss[n - 1], ss[n], step);
      StepInv(ss[n - 1], ss[n], step);
    }
  }

  /* ---- What the stored status says ---- */

  /** The body shows exactly what this one sync observed, in every field the controller owns. */
  ghost predicate Shows(b: Body, m: Mutation) {
    match m
    case ApplyOutcome(rev, gen, err, _) =>
      && b.observed == rev && b.generation == gen
      && Reads(b.conditions, TYPE_SUCCESSFUL) == Some(SuccessfulCondition(err))
      && Reads(b.conditions, TYPE_DEGRADED) == Some(DegradedCondition(ClassifyAsDegraded(err)))
    case DeleteOutcome(rev, v, _) =>
      && b.observed == rev
      && Reads(b.conditions, TYPE_SUCCESSFUL) == Some(VerdictSuccessful(v))
      && Reads(b.conditions, TYPE_DEGRADED) == Some(VerdictDegraded(v))
    case _ => false
  }

  lemma MutateShows(b: Body, m: Mutation)
    requires m.ApplyOutcome? || m.DeleteOutcome?
    ensures Shows(Mutate(m, b), m)
  {
    match m
    case ApplyOutcome(_, _, err, now) =>
      BothRead(b.conditions, SuccessfulCondition(err), DegradedCondition(ClassifyAsDegraded(err)), now);
    case DeleteOutcome(_, v, now) =>
      BothRead(b.conditions, VerdictSuccessful(v), VerdictDegraded(v), now);
  }

  /** The observed revision is monotone. Over any run, also with writes that arrive after their sync
      timed out, the versions a document goes through, the one it had at the start included, report
      revisions that never decrease: no landing reports less than the version it replaces. */
  lemma ObservedIsMonotone(ss: seq<State>, n: nat, p: nat, q: nat)
    requires Run(ss) && n < |ss| && p <= q < |ss[n].w.log| && ss[n].w.log[p].after.id == ss[n].w.log[q].after.id
    ensures ss[n].w.log[p].after.body.observed <= ss[n].w.log[q].after.body.observed
    ensures ss[n].w.log[p].before.Some? ==>
              ss[n].w.log[p].before.value.body.observed <= ss[n].w.log[p].after.body.observed
    ensures ss[n].w.log[p].after.id in ss[n].w.base ==>
              ss[n].w.base[ss[n].w.log[p].after.id].body.observed <= ss[n].w.log[p].after.body.observed
  {
    RunInv(ss, n);
    VersionsRise(ss[n], p, q);
  }

  lemma VersionsRise(s: State, p: nat, q: nat)
    requires Inv(s) && p <= q < |s.w.log| && s.w.log[p].after.id == s.w.log[q].after.id
    ensures s.w.log[p].after.body.observed <= s.w.log[q].after.body.observed
    ensures s.w.log[p].before.Some? ==> s.w.log[p].before.value.body.observed <= s.w.log[p].after.body.observed
    ensures s.w.log[p].after.id in s.w.base ==>
              s.w.base[s.w.log[p].after.id].body.observed <= s.w.log[p].after.body.observed
  {
    MonotoneAt(s, p, q);
    if s.w.log[p].after.id in s.w.base { AboveBase(s, p); }
    if s.w.log[p].before.Some? { AboveBefore(s, p); }
  }

  lemma AboveBase(s: State, p: nat)
    requires Inv(s) && p < |s.w.log| && s.w.log[p].after.id in s.w.base
    ensures s.w.base[s.w.log[p].after.id].body.observed <= s.w.log[p].after.body.observed
  {
    LandingIsOfOneSync(s, p);
    assert BasedSync(s, s.syncs[s.w.log[p].who.gen - 1]);
  }

  // What the log says is current is some landing, or was there at the start.
  lemma {:induction false} WhereCurrent(base: map<string, Doc>, log: seq<W.Landing>, name: string) returns (q: int)
    ensures q < |log|
    ensures q < 0 ==> W.Current(base, log, name) == if name in base then Some(base[name]) else None
    ensures q >= 0 ==> log[q].who.key.name == name && W.Current(base, log, name) == Some(log[q].after)
  {
    q := |log| - 1;
    if log != [] && log[|log| - 1].who.key.name != name {
      q := WhereCurrent(base, log[..|log| - 1], name);
    }
  }

  lemma AboveBefore(s: State, p: nat)
    requires Inv(s) && p < |s.w.log| && s.w.log[p].before.Some?
    ensures s.w.log[p].before.value.body.observed <= s.w.log[p].after.body.observed
  {
    var l := s.w.log[p];
    LandingIsOfOneSync(s, p);
    assert W.GoodLanding(s.w.base, s.w.log[..p], l);
    var q := WhereCurrent(s.w.base, s.w.log[..p], l.who.key.name);
    if q < 0 {
      AboveBase(s, p);
    } else {
      LandingIsOfOneSync(s, q);
      MonotoneAt(s, q, p);
    }
  }

  // The sync a landing comes from, and the revision it read.
  ghost predicate OfSync(s: State, l: W.Landing) {
    && l.after.id == l.who.key.name && 0 < l.who.gen <= |s.syncs|
    && s.syncs[l.who.gen - 1] == Sync(l.who.key, Some(l.after.body.observed))
  }

  lemma LandingsFollow(s: State, l: W.Landing, m: W.Landing)
    requires Ledger(s) && OfSync(s, l) && OfSync(s, m) && W.InOrder(l, m) && l.after.id == m.after.id
    ensures l.after.body.observed <= m.after.body.observed
  {
    var i, j := l.who.gen - 1, m.who.gen - 1;
    assert GoodSync(s, i) && GoodSync(s, j) && Follows(s, i, j);
  }

  lemma LandingsInOrder(s: State, p: nat, q: nat)
    requires Inv(s) && p < q < |s.w.log|
    ensures OfSync(s, s.w.log[p]) && OfSync(s, s.w.log[q]) && W.InOrder(s.w.log[p], s.w.log[q])
  {
    LandingIsOfOneSync(s, p);
    LandingIsOfOneSync(s, q);
  }

  lemma MonotoneAt(s: State, p: nat, q: nat)
    requires Inv(s) && p <= q < |s.w.log| && s.w.log[p].after.id == s.w.log[q].after.id
    ensures s.w.log[p].after.body.observed <= s.w.log[q].after.body.observed
  {
    if p < q {
      LandingsInOrder(s, p, q);
      LandingsFollow(s, s.w.log[p], s.w.log[q]);
    }
  }

  /** And it is untorn: every version shows, in all the fields the controller owns, what one single
      sync observed, under exactly the spec revision that sync fetched. */
  lemma ObservedIsUntorn(ss: seq<State>, n: nat, p: nat)
    requires Run(ss) && n < |ss| && p < |ss[n].w.log|
    ensures var l := ss[n].w.log[p];
            Shows(l.after.body, l.who.mutation) && OfSync(ss[n], l)
  {
    RunInv(ss, n);
    LandingIsOfOneSync(ss[n], p);
  }

  lemma LandingIsOfOneSync(s: State, p: nat)
    requires Inv(s) && p < |s.w.log|
    ensures var l := s.w.log[p];
            Shows(l.after.body, l.who.mutation) && Authored(s, l.who) && OfSync(s, l)
  {
    var w := s.w;
    var l := w.log[p];
    assert W.Settled(w, l) && W.GoodLanding(w.base, w.log[..p], l) && Authored(s, w.calls[l.call].who);
    MutateShows(SW.BodyOf(l.before), l.who.mutation);
  }

  /** The relations a reader of a stored Apply or Delete status relies on. */
  ghost predicate Table(b: Body) {
    var s, d := Reads(b.conditions, TYPE_SUCCESSFUL), Reads(b.conditions, TYPE_DEGRADED);
    && Count(b.conditions, TYPE_SUCCESSFUL) == 1 && Count(b.conditions, TYPE_DEGRADED) == 1
    && s.Some? && d.Some?
    && (d.value.status.ConditionTrue? ==> s.value.status.ConditionFalse? && s.value.reason == REASON_KUBE_API_ERROR)
    && (s.value.reason == REASON_PRE_CHECK_FAILED ==> d.value.status.ConditionFalse?)
    && (b.generation != 0 ==> s.value.status.ConditionTrue?)
  }

  // At most one condition of each type, and no generation on a kind that has none.
  ghost predicate Starts(applies: bool, b: Body) {
    && Count(b.conditions, TYPE_SUCCESSFUL) <= 1 && Count(b.conditions, TYPE_DEGRADED) <= 1
    && (!applies ==> b.generation == 0)
  }

  lemma BothCount(conds: seq<Condition>, s: Condition, d: Condition, now: nat)
    requires s.kind == TYPE_SUCCESSFUL && d.kind == TYPE_DEGRADED
    requires Count(conds, TYPE_SUCCESSFUL) <= 1 && Count(conds, TYPE_DEGRADED) <= 1
    ensures var c := SetBoth(conds, s, d, now); Count(c, TYPE_SUCCESSFUL) == 1 && Count(c, TYPE_DEGRADED) == 1
  {
    assert TYPE_SUCCESSFUL[0] != TYPE_DEGRADED[0];
    var mid := SetStatusCondition(conds, s, now);
    SetCounts(conds, s, now, TYPE_SUCCESSFUL);
    SetCounts(conds, s, now, TYPE_DEGRADED);
    SetCounts(mid, d, now, TYPE_SUCCESSFUL);
    SetCounts(mid, d, now, TYPE_DEGRADED);
  }

  lemma MutateTable(applies: bool, b: Body, m: Mutation)
    requires Starts(applies, b) && Observes(applies, m, m.rev)
    ensures Table(Mutate(m, b)) && Starts(applies, Mutate(m, b))
  {
    MutateShows(b, m);
    assert REASON_NO_ERRORS[0] != REASON_PRE_CHECK_FAILED[0]
        && REASON_WAITING_FOR_DELETION[0] != REASON_PRE_CHECK_FAILED[0];
    assert REASON_KUBE_API_ERROR[0] != REASON_PRE_CHECK_FAILED[0];
    match m
    case ApplyOutcome(_, _, err, now) =>
      BothCount(b.conditions, SuccessfulCondition(err), DegradedCondition(ClassifyAsDegraded(err)), now);
      if err.Some? && err.value.PreCheckError? { assert err.value.Chain()[0].PreCheckError?; }
    case DeleteOutcome(_, v, now) =>
      BothCount(b.conditions, VerdictSuccessful(v), VerdictDegraded(v), now);
      if v.Failed? && v.err.PreCheckError? { assert v.err.Chain()[0].PreCheckError?; }
  }

  // If the version before landing p starts a body of this kind, so does the landing.
  ghost predicate Continues(s: State, p: nat)
    requires p < |s.w.log|
  {
    StartsAt(s, p, s.w.log[p].who.key.name) ==> Starts(s.applies, s.w.log[p].after.body)
  }

  ghost predicate StartsAt(s: State, p: nat, name: string)
    requires p <= |s.w.log|
  {
    var c := W.Current(s.w.base, s.w.log[..p], name);
    c.Some? ==> Starts(s.applies, c.value.body)
  }

  lemma {:induction false} CurrentStarts(s: State, p: nat, name: string)
    requires p <= |s.w.log| && forall q | 0 <= q < p :: Continues(s, q)
    requires forall id | id in s.w.base :: Starts(s.applies, s.w.base[id].body)
    ensures StartsAt(s, p, name)
    decreases p
  {
    if p > 0 {
      CurrentStarts(s, p - 1, name);
      assert Continues(s, p - 1) && s.w.log[..p][..p - 1] == s.w.log[..p - 1];
    }
  }

  lemma LandingContinues(s: State, p: nat)
    requires Inv(s) && p < |s.w.log|
    ensures Continues(s, p)
  {
    var l := s.w.log[p];
    LandingIsOfOneSync(s, p);
    assert W.GoodLanding(s.w.base, s.w.log[..p], l);
    if StartsAt(s, p, l.who.key.name) {
      MutateTable(s.applies, SW.BodyOf(l.before), l.who.mutation);
    }
  }

  /** The condition table holds of every version any run stores; and a version is Degraded exactly when
      the sync that wrote it ended with an error that has no PreCheckError and no 4xx StatusError in
      its chain, whose text it then carries. */
  lemma EveryStoredStatusObeysTheTable(ss: seq<State>, n: nat, p: nat)
    requires Run(ss) && n < |ss| && p < |ss[n].w.log|
    requires forall id | id in ss[n].w.base :: Starts(ss[n].applies, ss[n].w.base[id].body)
    ensures Table(ss[n].w.log[p].after.body)
    ensures var e := ErrorOf(ss[n].w.log[p].who.mutation);
            var d := Reads(ss[n].w.log[p].after.body.conditions, TYPE_DEGRADED);
            && d.Some? && (d.value.status.ConditionTrue? || d.value.status.ConditionFalse?)
            && (d.value.status.ConditionTrue? <==> e.Some? && !HasPreCheck(e.value) && !IsClientError(e.value))
            && (d.value.status.ConditionTrue? ==> d.value.message == "Had an error while syncing: " + e.value.Text())
  {
    RunInv(ss, n);
    LandingIsOfOneSync(ss[n], p);
    LandingObeysTheTable(ss[n], p);
  }

  lemma LandingObeysTheTable(s: State, p: nat)
    requires Inv(s) && p < |s.w.log|
    requires forall id | id in s.w.base :: Starts(s.applies, s.w.base[id].body)
    ensures Table(s.w.log[p].after.body)
  {
    var l := s.w.log[p];
    forall q | 0 <= q < p ensures Continues(s, q) { LandingContinues(s, q); }
    CurrentStarts(s, p, l.who.key.name);
    assert W.GoodLanding(s.w.base, s.w.log[..p], l);
    LandingIsOfOneSync(s, p);
    MutateTable(s.applies, SW.BodyOf(l.before), l.who.mutation);
  }

  /** What nil means to a sync. At any point of any run, for a status write that returned nil: its
      document holds and shows what that sync observed if and only if no other write has landed on it
      since the status was fetched. */
  lemma NilShowsIff(ss: seq<State>, n: nat, c: nat)
    requires Run(ss) && n < |ss| && c < |ss[n].w.calls| && ss[n].w.calls[c].answer.Nil?
    ensures !ss[n].w.calls[c].phase.Begun?
    ensures R.Holds(ss[n].w, c) <==> R.NoOtherSince(ss[n].w, c)
    ensures R.Holds(ss[n].w, c) ==>
              var who := ss[n].w.calls[c].who;
              who.key.name in ss[n].w.store.docs && Shows(ss[n].w.store.docs[who.key.name].body, who.mutation)
  {
    RunInv(ss, n);
    var w := ss[n].w;
    R.NilHoldsAt(w, c);
    assert Authored(ss[n], w.calls[c].who);
    MutateShows(SW.BodyOf(w.calls[c].phase.seen), w.calls[c].who.mutation);
  }
}
