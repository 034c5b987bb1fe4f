/** Change detection and queueing of the three desire controllers: event handlers and processNext of
    pkg/controllers/apply_desire, delete_desire and read_desire_manager. */
module ChangeDetection {
  import opened KubeApplier
  import opened WorkQueue
  import C = Cooldown

  /** keys.*KeyFromDesire: an object without a document id has no key. */
  function KeyOf(d: Doc): Option<Key> {
    if d.id == "" then None else Some(Key(d.body.spec.clusterID, d.body.spec.nodePoolName, d.id))
  }

  function Enqueue(q: Q<Key>, d: Doc): Q<Key> {
    if KeyOf(d).Some? then Add(q, KeyOf(d).value) else q
  }

  /** A desire with a document id is queued under its own cluster, node pool and id, and under nothing
      else; one without is not queued. */
  lemma QueuedUnderItsOwnKey(q: Q<Key>, d: Doc)
    requires Valid(q)
    ensures var k, q' := Key(d.body.spec.clusterID, d.body.spec.nodePoolName, d.id), Enqueue(q, d);
            && q'.dirty == (if d.id == "" then q.dirty else q.dirty + {k})
            && q'.queue == (if d.id != "" && k !in q.dirty && k !in q.processing then q.queue + [k] else q.queue)
            && q'.processing == q.processing && q'.backoff == q.backoff
  {
    AddedWaits(q, Key(d.body.spec.clusterID, d.body.spec.nodePoolName, d.id));
  }

  /** Two desires share a key exactly when they agree on all three. */
  lemma KeysAreOwn(d: Doc, e: Doc)
    requires d.id != ""
    ensures KeyOf(d).Some?
    ensures KeyOf(d) == KeyOf(e) <==>
              d.id == e.id && d.body.spec.clusterID == e.body.spec.clusterID
              && d.body.spec.nodePoolName == e.body.spec.nodePoolName
  {
  }

  /** The queue half of a controller. A handler's argument is None when the informer's object is not a
      desire of the controller's kind. */
  class Controller {
    var q: Q<Key>
    const cooldown: C.CooldownChecker<Key>

    constructor (cooldownPeriod: int)
      ensures q == Q([], {}, {}, {}) && Valid(q) && fresh(cooldown)
      ensures cooldown.duration == cooldownPeriod && cooldown.nextExecTime == []
    {
      q := Q([], {}, {}, {});
      cooldown := new C.CooldownChecker<Key>(cooldownPeriod);
    }

    /** handleAdd, and the manager's handleDelete once its tombstone is opened. */
    method HandleAdd(d: Option<Doc>)
      requires Valid(q)
      modifies this`q
      ensures Valid(q)
      ensures q == if d.Some? then Enqueue(old(q), d.value) else old(q)
    {
      if d.Some? {
        var key := KeyOf(d.value);
        if key.Some? {
          OneWorkerPerKey(q, key.value);
          q := Add(q, key.value);
        }
      }
    }

    /** handleUpdate: a changed UpdateTime always queues; an unchanged one asks the cooldown. */
    method HandleUpdate(oldD: Option<Doc>, newD: Option<Doc>, now: int)
      requires Valid(q)
      modifies this`q, cooldown
      ensures Valid(q)
      ensures oldD.None? || newD.None? || KeyOf(newD.value).None? ==>
                q == old(q) && cooldown.nextExecTime == old(cooldown.nextExecTime)
      ensures oldD.Some? && newD.Some? && oldD.value.updateTime != newD.value.updateTime ==>
                q == Enqueue(old(q), newD.value) && cooldown.nextExecTime == old(cooldown.nextExecTime)
      ensures oldD.Some? && newD.Some? && oldD.value.updateTime == newD.value.updateTime && KeyOf(newD.value).Some? ==>
                && q == (if C.Allowed(old(cooldown.nextExecTime), KeyOf(newD.value).value, now)
                         then Enqueue(old(q), newD.value) else old(q))
                && cooldown.nextExecTime ==
                     C.Query(old(cooldown.nextExecTime), KeyOf(newD.value).value, now,
                         cooldown.duration, cooldown.capacity)
    {
      if oldD.None? || newD.None? { return; }
      var key := KeyOf(newD.value);
      if key.None? { return; }
      if oldD.value.updateTime == newD.value.updateTime {
        var allowed := cooldown.CanSync(key.value, now);
        if !allowed { return; }
      }
      OneWorkerPerKey(q, key.value);
      q := Add(q, key.value);
    }

    /** processNext up to SyncOnce. */
    method TakeNext() returns (key: Option<Key>)
      requires Valid(q)
      modifies this`q
      ensures Valid(q)
      ensures old(q).queue == [] ==> key == None && q == old(q)
      ensures old(q).queue != [] ==>
                key == Some(Take(old(q)).1) && q == Take(old(q)).0 && key.value !in old(q).processing
    {
      if q.queue == [] { return None; }
      var (q', k) := Take(q);
      OneWorkerPerKey(q, k);
      q := q';
      return Some(k);
    }

    /** processNext after SyncOnce: an error puts the key into backoff before Done runs. */
    method FinishNext(key: Key, failed: bool)
      requires Valid(q)
      modifies this`q
      ensures Valid(q)
      ensures q == Done(if failed then AddRateLimited(old(q), key) else old(q), key)
    {
      if failed {
        OneWorkerPerKey(q, key);
        q := AddRateLimited(q, key);
      }
      OneWorkerPerKey(q, key);
      q := Done(q, key);
    }
  }

  /* ---- Runs: events, resyncs, workers, failures ---- */

  /** How far the worker that holds a key has come. `mark` is how many of the key's events had been
      delivered when its spec fetch began. */
  datatype Phase = Taken | Syncing(mark: nat) | Failing | Returning

  /** `events` counts the Add and UpdateTime-changing Update events of each key; `served` is the
      largest mark of a SyncOnce that returned nil. */
  datatype State = State(q: Q<Key>, phase: map<Key, Phase>, events: map<Key, nat>, served: map<Key, nat>)

  datatype Step =
    | Change(key: Key)
    | Resync(key: Key)
    | Fire(key: Key)
    | Get
    | BeginFetch(key: Key)
    | ReturnNil(key: Key)
    | ReturnError(key: Key)
    | RateLimit(key: Key)
    | Finish(key: Key)

  function Events(s: State, k: Key): nat {
    if k in s.events then s.events[k] else 0
  }

  function Served(s: State, k: Key): nat {
    if k in s.served then s.served[k] else 0
  }

  ghost predicate In(s: State, k: Key, p: Phase) {
    k in s.phase && s.phase[k] == p
  }

  ghost predicate NextStep(s: State, s': State, step: Step) {
    match step
    case Change(k) => s' == s.(q := Add(s.q, k), events := s.events[k := Events(s, k) + 1])
    case Resync(k) => s' == s.(q := Add(s.q, k))
    case Fire(k) => k in s.q.backoff && s' == s.(q := WorkQueue.Fire(s.q, k))
    case Get => s.q.queue != [] && s' == s.(q := Take(s.q).0, phase := s.phase[Take(s.q).1 := Taken])
    case BeginFetch(k) => In(s, k, Taken) && s' == s.(phase := s.phase[k := Syncing(Events(s, k))])
    case ReturnNil(k) =>
      k in s.phase && s.phase[k].Syncing?
      && s' == s.(phase := s.phase[k := Returning],
                  served := s.served[k := if s.phase[k].mark > Served(s, k) then s.phase[k].mark else Served(s, k)])
    case ReturnError(k) => k in s.phase && s.phase[k].Syncing? && s' == s.(phase := s.phase[k := Failing])
    case RateLimit(k) =>
      In(s, k, Failing) && s' == s.(phase := s.phase[k := Returning], q := AddRateLimited(s.q, k))
    case Finish(k) => In(s, k, Returning) && s' == s.(phase := s.phase - {k}, q := Done(s.q, k))
  }

  ghost predicate Next(s: State, s': State) {
    exists step :: NextStep(s, s', step)
  }

  ghost predicate Init(s: State) {
    s == State(Q([], {}, {}, {}), map[], map[], map[])
  }

  ghost predicate StepAt(ss: seq<State>, n: nat)
    requires 0 < n < |ss|
  {
    Next(ss[n - 1], ss[n])
  }

  ghost predicate Run(ss: seq<State>) {
    |ss| > 0 && Init(ss[0]) && forall n | 0 < n < |ss| :: StepAt(ss, n)
  }

  // A key with an unserved change is somewhere it will be synced again from.
  ghost predicate Owed(s: State, k: Key) {
    Events(s, k) > Served(s, k) ==>
      || k in s.q.dirty || k in s.q.backoff || In(s, k, Taken) || In(s, k, Failing)
      || In(s, k, Syncing(Events(s, k)))
  }

  // Phases are those of the keys in processing, and no mark is ahead of the events.
  ghost predicate Shape(s: State) {
    && Valid(s.q)
    && s.phase.Keys == s.q.processing
    && (forall k | k in s.phase && s.phase[k].Syncing? :: s.phase[k].mark <= Events(s, k))
    && (forall k :: Served(s, k) <= Events(s, k))
  }

  ghost predicate Inv(s: State) {
    Shape(s) && forall k :: Owed(s, k)
  }

  // Steps that only add a key to the queue.
  lemma AddShape(s: State, s': State, step: Step)
    requires Shape(s) && NextStep(s, s', step) && (step.Change? || step.Resync? || step.Fire?)
    ensures Shape(s')
  {
    OneWorkerPerKey(s.q, step.key);
    forall k ensures Served(s', k) <= Events(s', k) { assert Served(s, k) <= Events(s, k); }
  }

  lemma AddOwed(s: State, s': State, step: Step, k: Key)
    requires Owed(s, k) && NextStep(s, s', step) && (step.Change? || step.Resync? || step.Fire?)
    ensures Owed(s', k)
  {
  }

  lemma AddInv(s: State, s': State, step: Step)
    requires Inv(s) && NextStep(s, s', step) && (step.Change? || step.Resync? || step.Fire?)
    ensures Inv(s')
  {
    AddShape(s, s', step);
    forall k ensures Owed(s', k) { AddOwed(s, s', step, k); }
  }

  // Steps of the worker that holds a key, between Get and Done.
  lemma SyncInv(s: State, s': State, step: Step)
    requires Inv(s) && NextStep(s, s', step)
    requires step.BeginFetch? || step.ReturnNil? || step.ReturnError? || step.RateLimit?
    ensures Inv(s')
  {
    assert s'.q.queue == s.q.queue && s'.q.dirty == s.q.dirty && s'.q.processing == s.q.processing;
    forall k ensures Served(s', k) <= Events(s', k) { assert Served(s, k) <= Events(s, k); }
    forall k ensures Owed(s', k) { assert Owed(s, k); }
  }

  lemma HandInv(s: State, s': State, step: Step)
    requires Inv(s) && NextStep(s, s', step) && (step.Get? || step.Finish?)
    ensures Inv(s')
  {
    OneWorkerPerKey(s.q, if step.Get? then Take(s.q).1 else step.key);
    forall k ensures Served(s', k) <= Events(s', k) { assert Served(s, k) <= Events(s, k); }
    forall k ensures Owed(s', k) { assert Owed(s, k); }
  }

  lemma StepInv(s: State, s': State, step: Step)
    requires Inv(s) && NextStep(s, s', step)
    ensures Inv(s')
  {
    if step.Get? || step.Finish? { HandInv(s, s', step); }
    else if step.Change? || step.Resync? || step.Fire? { AddInv(s, s', step); }
    else { SyncInv(s, s', step); }
  }

  lemma {:induction false} RunInv(ss: seq<State>, n: nat)
    requires Run(ss) && n < |ss|
    ensures Inv(ss[n])
  {
    if n > 0 {
      RunInv(ss, n - 1);
      assert StepAt(ss, n);
      var step :| NextStep(ss[n - 1], ss[n], step);
      StepInv(ss[n - 1], ss[n], step);
    }
  }

  /** No lost spec change: at any point of any run, a key whose latest change event has not yet been
      followed by a spec fetch of a SyncOnce that returned nil is queued, dirty, in backoff or in
      processing. If the sync in progress began its fetch before that event, the key is also dirty or
      in backoff, so it is synced again. */
  lemma NoLostSpecChange(ss: seq<State>, n: nat, k: Key)
    requires Run(ss) && n < |ss| && Events(ss[n], k) > Served(ss[n], k)
    ensures var s := ss[n];
            && (k in s.q.queue || k in s.q.dirty || k in s.q.backoff || k in s.q.processing)
            && ((k in s.phase && (s.phase[k].Returning? || (s.phase[k].Syncing? && s.phase[k].mark < Events(s, k)))) ==>
                  k in s.q.dirty || k in s.q.backoff)
            && (k in s.q.dirty && k !in s.q.processing ==> k in s.q.queue)
  {
    RunInv(ss, n);
    assert Owed(ss[n], k);
  }

  /** `served` only ever records a fetch that began at a time when that many of the key's events had
      been delivered: a change is discharged only by a SyncOnce whose fetch began after it. */
  lemma ServedByALaterFetch(ss: seq<State>, n: nat, k: Key) returns (i: nat, j: nat)
    requires Run(ss) && n < |ss| && Served(ss[n], k) > 0
    ensures 0 < i <= j <= n
    ensures Events(ss[i - 1], k) == Served(ss[n], k) && NextStep(ss[i - 1], ss[i], BeginFetch(k))
    ensures NextStep(ss[j - 1], ss[j], ReturnNil(k))
    decreases n
  {
    assert StepAt(ss, n);
    var step :| NextStep(ss[n - 1], ss[n], step);
    if Served(ss[n], k) != Served(ss[n - 1], k) {
      NextServed(ss[n - 1], ss[n], step, k);
      i := FetchOf(ss, n - 1, k);
      j := n;
    } else {
      i, j := ServedByALaterFetch(ss, n - 1, k);
    }
  }

  lemma NextServed(s: State, s': State, step: Step, k: Key)
    requires NextStep(s, s', step) && Served(s', k) != Served(s, k)
    ensures step == ReturnNil(k) && s.phase[k].Syncing? && s.phase[k].mark == Served(s', k)
  {
  }

  // The fetch of the sync in progress.
  lemma FetchOf(ss: seq<State>, n: nat, k: Key) returns (i: nat)
    requires Run(ss) && n < |ss| && k in ss[n].phase && ss[n].phase[k].Syncing?
    ensures 0 < i <= n && NextStep(ss[i - 1], ss[i], BeginFetch(k)) && Events(ss[i - 1], k) == ss[n].phase[k].mark
    decreases n
  {
    assert StepAt(ss, n);
    var step :| NextStep(ss[n - 1], ss[n], step);
    if step == BeginFetch(k) {
      i := n;
    } else {
      i := FetchOf(ss, n - 1, k);
    }
  }
}
