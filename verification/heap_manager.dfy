/** The manager's methods in the source's own form: the `running` map of instance pointers and the
    methods that change it. Each returns the path the machine of ReadDesireManager takes when nothing
    interrupts the call, so that machine's steps are these methods' lock sections, cancels and waits. */
module ReadDesireManaging {
  import opened KubeApplier
  import opened ReadDesireManager

  /** runningInstance with the controller and goroutine behind it; `done` is closed when `exited`. */
  class Instance {
    ghost const id: nat
    const key: Key
    const spec: SpecRev
    ghost const reflector: bool
    var cancelled: bool
    var started: bool
    var exited: bool

    constructor (key: Key, spec: SpecRev, ghost reflector: bool, ghost id: nat)
      ensures this.id == id && View() == Session(key, spec, reflector, false, false, false)
    {
      this.key, this.spec, this.reflector, this.id := key, spec, reflector, id;
      cancelled, started, exited := false, false, false;
    }

    ghost function View(): Session
      reads this
    {
      Session(key, spec, reflector, cancelled, started, exited)
    }

    method Cancel()
      modifies this`cancelled
      ensures cancelled
    {
      cancelled := true;
    }

    /** Returns once the goroutine has; a started instance whose context is cancelled does return. */
    method AwaitDone()
      requires started && cancelled
      modifies this`exited
      ensures exited
    {
      exited := true;
    }

    method Start()
      modifies this`started
      ensures started
    {
      started := true;
    }
  }

  ghost predicate Serving(x: Instance, k: Key)
    reads x
  {
    x.key == k && x.reflector && x.started && !x.exited
  }

  // A live instance for this spec.
  ghost predicate Watching(x: Instance, spec: SpecRev)
    reads x
  {
    x.spec == spec && x.started && !x.cancelled
  }

  ghost predicate Stopped(x: Instance)
    reads x
  {
    x.cancelled && x.exited
  }

  lemma OneFewer(all: map<Key, Instance>, done: set<Key>, k: Key)
    requires forall l | l in all :: all[l].key == l
    ensures (all - done) - {k} == all - (done + {k})
    ensures forall l | l in all && l in done + {k} :: all[l] !in (all - (done + {k})).Values
    ensures (all - done).Values <= all.Values
  {
  }

  lemma NoneLeft(all: map<Key, Instance>, done: set<Key>, keys: seq<Key>)
    requires (forall k | k in all :: k in keys) && forall j | 0 <= j < |keys| :: keys[j] in done
    ensures all - done == map[] && all.Keys <= done
  {
  }

  /** A stretch of a run. */
  ghost predicate Path(path: seq<State>) {
    |path| > 0 && forall i | 0 < i < |path| :: StepAt(path, i)
  }

  ghost function Last(path: seq<State>): State
    requires |path| > 0
  {
    path[|path| - 1]
  }

  lemma Append(path: seq<State>, s: State, step: Step)
    requires Path(path) && NextStep(Last(path), s, step)
    ensures Path(path + [s]) && Last(path + [s]) == s && (path + [s])[0] == path[0]
  {
    var longer := path + [s];
    assert Next(Last(path), s);
    forall i | 0 < i < |longer| ensures StepAt(longer, i) {
      if i < |path| {
        assert StepAt(path, i);
      }
    }
  }

  // The mutex is free, and nothing but threads, running and sessions has changed.
  ghost predicate Elsewhere(s: State, s': State) {
    s'.mu == None && s'.shutdown == s.shutdown && s'.published == s.published && s'.latest == s.latest
    && |s'.threads| == |s.threads|
  }

  lemma StopPathAbsent(s: State, t: nat, key: Key, after: After) returns (path: seq<State>)
    requires t < |s.threads| && s.threads[t] == StopLock(key, after) && s.mu == None && key !in s.running
    ensures Path(path) && path[0] == s && Last(path) == Goto(s, t, AfterStop(key, after))
  {
    path := Taking(s, t, key, after);
    var s2 := Goto(s, t, AfterStop(key, after));
    Regoto(s, t, StopHeld(key, after), AfterStop(key, after));
    assert s.running - {key} == s.running;
    Append(path, s2, Work(t, Only));
    path := path + [s2];
  }

  lemma Regoto(s: State, t: nat, pc: Pc, pc': Pc)
    requires t < |s.threads|
    ensures s.threads[t := pc][t := pc'] == s.threads[t := pc']
  {
  }

  lemma Taking(s: State, t: nat, key: Key, after: After) returns (path: seq<State>)
    requires t < |s.threads| && s.threads[t] == StopLock(key, after) && s.mu == None
    ensures Path(path) && path[0] == s && Last(path) == Goto(s.(mu := Some(t)), t, StopHeld(key, after))
  {
    var s1 := Goto(s.(mu := Some(t)), t, StopHeld(key, after));
    Append([s], s1, Work(t, Only));
    path := [s] + [s1];
  }

  lemma StopPathPresent(s: State, t: nat, key: Key, after: After) returns (path: seq<State>)
    requires t < |s.threads| && s.threads[t] == StopLock(key, after) && s.mu == None
    requires key in s.running && s.running[key] < |s.sessions|
    requires var x := s.sessions[s.running[key]]; x.reflector && x.started && !x.exited
    ensures Path(path) && path[0] == s
    ensures var i := s.running[key];
            Last(path) == Goto(s, t, AfterStop(key, after)).(running := s.running - {key},
              sessions := s.sessions[i := s.sessions[i].(cancelled := true, exited := true)])
  {
    var i := s.running[key];
    var x := s.sessions[i];
    path := Taking(s, t, key, after);
    var s2 := Goto(s.(running := s.running - {key}), t, StopCancel(key, i, after));
    Regoto(s, t, StopHeld(key, after), StopCancel(key, i, after));
    Append(path, s2, Work(t, Only));
    path := path + [s2];
    var s3 := Goto(s2.(sessions := s.sessions[i := x.(cancelled := true)]), t, StopWait(key, i, after));
    Append(path, s3, Work(t, Only));
    path := path + [s3];
    var gone := s.sessions[i := x.(cancelled := true, exited := true)];
    assert s3.sessions[i := s3.sessions[i].(exited := true)] == gone;
    var s4 := s3.(sessions := gone);
    Append(path, s4, Exit(i));
    path := path + [s4];
    var s5 := Goto(s.(running := s.running - {key}, sessions := gone), t, AfterStop(key, after));
    assert s4.threads[t := AfterStop(key, after)] == s5.threads;
    Append(path, s5, Work(t, Only));
    path := path + [s5];
  }

  lemma Join(path: seq<State>, more: seq<State>) returns (joined: seq<State>)
    requires Path(path) && Path(more) && more[0] == Last(path)
    ensures Path(joined) && joined[0] == path[0] && Last(joined) == Last(more)
  {
    joined := path + more[1..];
    forall i | 0 < i < |joined| ensures StepAt(joined, i) {
      if i < |path| {
        assert StepAt(path, i);
      } else {
        assert StepAt(more, i - |path| + 1);
      }
    }
  }

  lemma AllPath(s: State, keys: seq<Key>) returns (path: seq<State>)
    requires |s.threads| > 0 && s.threads[0] == AllLock && s.mu == None && Permutation(keys, s.running)
    ensures Path(path) && path[0] == s && Last(path) == Goto(s, 0, AfterStop(NoKey, NextKey(keys)))
  {
    var s1 := Goto(s.(mu := Some(0)), 0, AllHeld);
    Append([s], s1, Work(0, Only));
    var s2 := Goto(s, 0, AfterStop(NoKey, NextKey(keys)));
    Regoto(s, 0, AllHeld, AfterStop(NoKey, NextKey(keys)));
    Append([s] + [s1], s2, Work(0, Order(keys)));
    path := [s] + [s1] + [s2];
  }

  // Where stopAll goes when the first i keys are stopped.
  ghost function Ahead(keys: seq<Key>, i: nat): Pc
    requires i <= |keys|
  {
    AfterStop(NoKey, NextKey(keys[i..]))
  }

  lemma AheadStops(keys: seq<Key>, i: nat)
    requires i < |keys|
    ensures Ahead(keys, i) == StopLock(keys[i], NextKey(keys[i + 1..]))
  {
  }

  const NoKey := Key("", "", "")

  lemma LookPath(s: State, t: nat, key: Key, spec: SpecRev) returns (path: seq<State>)
    requires t < |s.threads| && s.threads[t] == Fetching(key) && s.mu == None
        && key.name in s.latest && s.latest[key.name] == spec
    requires key in s.running ==> s.running[key] < |s.sessions|
    ensures Path(path) && path[0] == s
    ensures Last(path) == Goto(s, t,
              if key !in s.running then Building(key, spec)
              else if s.sessions[s.running[key]].spec.target == spec.target then Idle
              else StopLock(key, ThenBuild(spec)))
  {
    var s1 := Goto(s, t, LookLock(key, spec));
    Append([s], s1, Work(t, FetchFound(spec)));
    path := [s] + [s1];
    var s2 := Goto(s.(mu := Some(t)), t, LookHeld(key, spec));
    Regoto(s, t, LookLock(key, spec), LookHeld(key, spec));
    Append(path, s2, Work(t, Only));
    path := path + [s2];
    var pc := if key !in s.running then Building(key, spec)
              else if s.sessions[s.running[key]].spec.target == spec.target then Idle
              else StopLock(key, ThenBuild(spec));
    var s3 := Goto(s, t, pc);
    Regoto(s, t, LookHeld(key, spec), pc);
    Append(path, s3, Work(t, Only));
    path := path + [s3];
  }

  lemma FailPath(s: State, t: nat, key: Key, spec: SpecRev) returns (path: seq<State>)
    requires t < |s.threads| && s.threads[t] == Building(key, spec)
    ensures Path(path) && path[0] == s
    ensures Last(path) == Goto(s.(sessions := s.sessions + [Session(key, spec, false, false, false, false)]), t, Idle)
  {
    var i := |s.sessions|;
    var s1 := Goto(s.(sessions := s.sessions + [Session(key, spec, false, false, false, false)]), t, FailWrite(key, i));
    Append([s], s1, Work(t, BuildFailed));
    path := [s] + [s1];
    Regoto(s, t, FailWrite(key, i), Idle);
    var s2 := Goto(s1, t, Idle);
    Append(path, s2, Work(t, Only));
    path := path + [s2];
  }

  // Build, and store into the map.
  lemma InsertPath(s: State, t: nat, key: Key, spec: SpecRev) returns (path: seq<State>)
    requires t < |s.threads| && s.threads[t] == Building(key, spec) && s.mu == None
    ensures Path(path) && path[0] == s
    ensures Last(path) == Goto(s.(running := s.running[key := |s.sessions|],
              sessions := s.sessions + [Session(key, spec, true, false, false, false)]), t, Starting(key, |s.sessions|))
  {
    var i := |s.sessions|;
    var b := s.(sessions := s.sessions + [Session(key, spec, true, false, false, false)]);
    var s1 := Goto(b, t, InsertLock(key, i));
    Append([s], s1, Work(t, BuildOk));
    path := [s] + [s1];
    var s2 := Goto(b.(mu := Some(t)), t, InsertHeld(key, i));
    Regoto(b, t, InsertLock(key, i), InsertHeld(key, i));
    Append(path, s2, Work(t, Only));
    path := path + [s2];
    var s3 := Goto(b.(running := s.running[key := i]), t, Starting(key, i));
    Regoto(b, t, InsertHeld(key, i), Starting(key, i));
    Append(path, s3, Work(t, Only));
    path := path + [s3];
  }

  lemma StartPath(s: State, t: nat, key: Key, spec: SpecRev) returns (path: seq<State>)
    requires t < |s.threads| && s.threads[t] == Building(key, spec) && s.mu == None
    ensures Path(path) && path[0] == s
    ensures Last(path) == Goto(s.(running := s.running[key := |s.sessions|],
              sessions := s.sessions + [Session(key, spec, true, false, true, false)]), t, Idle)
  {
    path := InsertPath(s, t, key, spec);
    var i, w := |s.sessions|, Last(path);
    var started := s.sessions + [Session(key, spec, true, false, true, false)];
    assert w.sessions[i := w.sessions[i].(started := true)] == started;
    Regoto(s, t, Starting(key, i), Idle);
    var w' := Goto(w.(sessions := started), t, Idle);
    Append(path, w', Work(t, Only));
    path := path + [w'];
  }

  datatype Fetched = FetchError | Gone | Found(spec: SpecRev)

  class Manager {
    var running: map<Key, Instance>
    /** Every instance ever built, and a mark for every write after a failed build. */
    ghost var sessions: seq<Instance>

    constructor ()
      ensures Valid() && running == map[] && sessions == []
    {
      running, sessions := map[], [];
    }

    ghost predicate Valid()
      reads this, sessions
    {
      && (forall i | 0 <= i < |sessions| :: sessions[i].id == i)
      && (forall k | k in running :: running[k] in sessions && Serving(running[k], k))
    }

    ghost function Ids(): map<Key, nat>
      reads this
    {
      map k | k in running :: running[k].id
    }

    ghost function Views(): seq<Session>
      reads this, sessions
    {
      seq(|sessions|, i requires 0 <= i < |sessions| reads this, sessions => sessions[i].View())
    }

    /** The shared part of a machine state is what the fields hold. */
    ghost predicate Shows(s: State)
      reads this, sessions
    {
      s.running == Ids() && s.sessions == Views()
    }

    // The lock section of stopByKey.
    method TakeOut(key: Key) returns (cur: Instance?)
      requires Valid()
      modifies this`running
      ensures Valid() && running == old(running) - {key} && Ids() == old(Ids()) - {key}
      ensures cur == if key in old(running) then old(running)[key] else null
    {
      cur := null;
      if key in running {
        cur := running[key];
        running := running - {key};
      }
    }

    /** Take out of the map, cancel, wait. */
    method StopByKey(key: Key, ghost s: State, ghost t: nat, ghost after: After) returns (ghost path: seq<State>)
      requires Valid() && Shows(s) && s.mu == None
      requires t < |s.threads| && s.threads[t] == StopLock(key, after)
      modifies this`running, running.Values
      ensures Valid() && Path(path) && path[0] == s && Shows(Last(path))
      ensures Elsewhere(s, Last(path)) && Last(path).threads == s.threads[t := AfterStop(key, after)]
      ensures running == old(running) - {key} && sessions == old(sessions)
      ensures key in old(running) ==> Stopped(old(running[key]))
    {
      var cur := TakeOut(key);
      if cur == null {
        path := StopPathAbsent(s, t, key, after);
        return;
      }
      path := StopPathPresent(s, t, key, after);
      cur.Cancel();
      cur.AwaitDone();
      assert Views() == old(Views())[cur.id := old(cur.View()).(cancelled := true, exited := true)];
    }

    /** Stops every instance listed when the mutex was taken, one after the other. */
    method StopAll(ghost s: State) returns (ghost path: seq<State>)
      requires Valid() && Shows(s) && s.mu == None && |s.threads| > 0 && s.threads[0] == AllLock
      modifies this`running, running.Values
      ensures Valid() && Path(path) && path[0] == s && Shows(Last(path))
      ensures Elsewhere(s, Last(path)) && Last(path).threads == s.threads[0 := Returned]
      ensures running == map[]
      ensures forall k | k in old(running) :: Stopped(old(running[k]))
    {
      var allKeys;
      allKeys, path := ListAll(s);
      path := StopListed(allKeys, s, path);
    }

    // The loop of stopAll.
    method StopListed(allKeys: seq<Key>, ghost s: State, ghost listed: seq<State>) returns (ghost path: seq<State>)
      requires Valid() && Path(listed) && listed[0] == s && Shows(Last(listed))
      requires |s.threads| > 0 && Elsewhere(s, Last(listed)) && Last(listed).threads
          == s.threads[0 := Ahead(allKeys, 0)]
      requires forall k | k in running :: k in allKeys && running[k].key == k
      modifies this`running, running.Values
      ensures Valid() && Path(path) && path[0] == s && Shows(Last(path))
      ensures Elsewhere(s, Last(path)) && Last(path).threads == s.threads[0 := Returned]
      ensures running == map[]
      ensures forall k | k in old(running) :: Stopped(old(running[k]))
    {
      ghost var all := running;
      path := listed;
      ghost var done := {};
      ghost var pc := Ahead(allKeys, 0);
      var i := 0;
      while i < |allKeys|
        invariant 0 <= i <= |allKeys| && pc == Ahead(allKeys, i)
        invariant Valid() && Path(path) && path[0] == s && Shows(Last(path)) && Elsewhere(s, Last(path))
        invariant Last(path).threads == s.threads[0 := pc]
        invariant running == all - done && forall j | 0 <= j < i :: allKeys[j] in done
        invariant forall k | k in all && k in done :: Stopped(all[k]) && all[k] !in running.Values
      {
        var k := allKeys[i];
        OneFewer(all, done, k);
        AheadStops(allKeys, i);
        path := StopNext(k, allKeys[i + 1..], s, path);
        assert running == all - (done + {k});
        done := done + {k};
        i := i + 1;
        pc := Ahead(allKeys, i);
      }
      NoneLeft(all, done, allKeys);
    }

    method StopNext(k: Key, rest: seq<Key>, ghost s: State, ghost path: seq<State>) returns (ghost longer: seq<State>)
      requires Valid() && Path(path) && path[0] == s && Shows(Last(path)) && Elsewhere(s, Last(path))
      requires |s.threads| > 0 && Last(path).threads == s.threads[0 := StopLock(k, NextKey(rest))]
      modifies this`running, running.Values
      ensures Valid() && Path(longer) && longer[0] == s && Shows(Last(longer)) && Elsewhere(s, Last(longer))
      ensures Last(longer).threads == s.threads[0 := AfterStop(NoKey, NextKey(rest))]
      ensures running == old(running) - {k} && sessions == old(sessions)
      ensures k in old(running) ==> Stopped(old(running[k]))
    {
      ghost var more := StopByKey(k, Last(path), 0, NextKey(rest));
      Regoto(s, 0, StopLock(k, NextKey(rest)), AfterStop(NoKey, NextKey(rest)));
      longer := Join(path, more);
    }

    // The lock section of stopAll.
    method ListAll(ghost s: State) returns (allKeys: seq<Key>, ghost path: seq<State>)
      requires Valid() && Shows(s) && s.mu == None && |s.threads| > 0 && s.threads[0] == AllLock
      ensures Path(path) && path[0] == s && Last(path) == Goto(s, 0, Ahead(allKeys, 0))
      ensures forall k | k in running :: k in allKeys && running[k].key == k
    {
      allKeys := CollectKeys();
      path := AllPath(s, allKeys);
      assert allKeys[0..] == allKeys;
      assert forall k | k in running :: k in Ids() && Serving(running[k], k);
    }

    method CollectKeys() returns (allKeys: seq<Key>)
      requires Valid()
      ensures Permutation(allKeys, Ids())
    {
      allKeys := [];
      var left := running.Keys;
      while left != {}
        invariant left <= running.Keys
        invariant forall k :: k in allKeys <==> k in running && k !in left
        invariant forall i, j | 0 <= i < j < |allKeys| :: allKeys[i] != allKeys[j]
        decreases |left|
      {
        var k :| k in left;
        allKeys := allKeys + [k];
        left := left - {k};
      }
    }

    method NewInstance(key: Key, spec: SpecRev, ghost reflector: bool) returns (x: Instance)
      requires Valid()
      modifies this`sessions
      ensures fresh(x) && x.id == |old(sessions)| && x.View() == Session(key, spec, reflector, false, false, false)
      ensures Valid() && sessions == old(sessions) + [x] && Views() == old(Views()) + [x.View()]
    {
      x := new Instance(key, spec, reflector, |sessions|);
      sessions := sessions + [x];
    }

    // factory.Build failed: the status write is the writer's business.
    method RecordFailure(key: Key, spec: SpecRev, ghost s: State, ghost t: nat) returns (ghost path: seq<State>)
      requires Valid() && Shows(s) && t < |s.threads| && s.threads[t] == Building(key, spec)
      requires s.mu == None
      modifies this`sessions
      ensures Valid() && Path(path) && path[0] == s && Shows(Last(path))
      ensures Elsewhere(s, Last(path)) && Last(path).threads == s.threads[t := Idle]
    {
      path := FailPath(s, t, key, spec);
      var mark := NewInstance(key, spec, false);
    }

    // factory.Build succeeded: insert and start.
    method Install(key: Key, spec: SpecRev, ghost s: State, ghost t: nat) returns (ghost path: seq<State>)
      requires Valid() && Shows(s) && s.mu == None && t < |s.threads| && s.threads[t] == Building(key, spec)
      modifies this`running, this`sessions
      ensures Valid() && Path(path) && path[0] == s && Shows(Last(path))
      ensures Elsewhere(s, Last(path)) && Last(path).threads == s.threads[t := Idle]
      ensures key in running && fresh(running[key]) && Watching(running[key], spec)
      ensures running == old(running)[key := running[key]]
    {
      path := StartPath(s, t, key, spec);
      var per := NewInstance(key, spec, true);
      Insert(key, per);
      assert Views() == old(Views()) + [per.View()];
    }

    method Insert(key: Key, per: Instance)
      requires Valid() && per in sessions && per.key == key && per.reflector && !per.exited
      requires forall k | k in running :: running[k] != per
      modifies this`running, per`started
      ensures Valid() && running == old(running)[key := per] && Ids() == old(Ids())[key := per.id]
      ensures per.started
    {
      running := running[key := per];
      per.Start();
    }

    // The rest of SyncOnce once nothing runs for the key.
    method Build(key: Key, spec: SpecRev, buildOk: bool, writeFails: bool, ghost s: State, ghost t: nat)
      returns (failed: bool, ghost path: seq<State>)
      requires Valid() && Shows(s) && s.mu == None && key !in running
      requires t < |s.threads| && s.threads[t] == Building(key, spec)
      modifies this`running, this`sessions
      ensures Valid() && Path(path) && path[0] == s && Shows(Last(path))
      ensures Elsewhere(s, Last(path)) && Last(path).threads == s.threads[t := Idle]
      ensures failed == (!buildOk && writeFails)
      ensures if !buildOk then running == old(running)
              else
                && key in running && Watching(running[key], spec) && fresh(running[key])
                && running == old(running)[key := running[key]]
    {
      if !buildOk {
        path := RecordFailure(key, spec, s, t);
        return writeFails, path;
      }
      path := Install(key, spec, s, t);
      failed := false;
    }

    /** SyncOnce with its fetch, build and status write answered as given: afterwards an instance
        with the spec's target runs for the key, or none does if the document is gone or the build
        failed; a replaced instance was stopped first, and no other key is touched. */
    method SyncOnce(key: Key, fetched: Fetched, buildOk: bool, writeFails: bool, ghost s: State, ghost t: nat)
      returns (failed: bool, ghost path: seq<State>)
      requires Valid() && Shows(s) && s.mu == None && t < |s.threads| && s.threads[t] == Fetching(key)
      requires fetched.Found? ==> key.name in s.latest && s.latest[key.name] == fetched.spec
      modifies this`running, this`sessions, running.Values
      ensures Valid() && Path(path) && path[0] == s && Shows(Last(path))
      ensures Elsewhere(s, Last(path)) && Last(path).threads == s.threads[t := Idle]
      ensures running - {key} == old(running) - {key}
      ensures match fetched
              case FetchError => failed && running == old(running)
              case Gone => !failed && key !in running
              case Found(spec) =>
                if key in old(running) && old(running[key]).spec.target == spec.target
                then !failed && running == old(running)
                else if buildOk then !failed && key in running && fresh(running[key]) && Watching(running[key], spec)
                else failed == writeFails && key !in running
      ensures fetched.Found? && key in running ==>
                (running[key].spec == fetched.spec <==>
                 !(key in old(running) && old(running[key]).spec.target == fetched.spec.target
                   && old(running[key]).spec != fetched.spec))
      ensures key in old(running) && (key !in running || running[key] != old(running[key]))
          ==> Stopped(old(running[key]))
    {
      if fetched == FetchError {
        ghost var s1 := Goto(s, t, Idle);
        Append([s], s1, Work(t, FetchFailed));
        path := [s] + [s1];
        return true, path;
      }
      if fetched == Gone {
        ghost var s1 := Goto(s, t, StopLock(key, ReturnNil));
        Append([s], s1, Work(t, FetchGone));
        ghost var more := StopByKey(key, s1, t, ReturnNil);
        Regoto(s, t, StopLock(key, ReturnNil), Idle);
        path := Join([s] + [s1], more);
        return false, path;
      }
      failed, path := EnsureRunning(key, fetched.spec, buildOk, writeFails, s, t);
    }

    // SyncOnce with the spec in hand.
    method EnsureRunning(key: Key, spec: SpecRev, buildOk: bool, writeFails: bool, ghost s: State, ghost t: nat)
      returns (failed: bool, ghost path: seq<State>)
      requires Valid() && Shows(s) && s.mu == None && t < |s.threads| && s.threads[t] == Fetching(key)
      requires key.name in s.latest && s.latest[key.name] == spec
      modifies this`running, this`sessions, running.Values
      ensures Valid() && Path(path) && path[0] == s && Shows(Last(path))
      ensures Elsewhere(s, Last(path)) && Last(path).threads == s.threads[t := Idle]
      ensures running - {key} == old(running) - {key}
      ensures if key in old(running) && old(running[key]).spec.target == spec.target
              then !failed && running == old(running)
              else if buildOk then !failed && key in running && fresh(running[key]) && Watching(running[key], spec)
              else failed == writeFails && key !in running
      ensures key in running ==>
                (running[key].spec == spec <==>
                 !(key in old(running) && old(running[key]).spec.target == spec.target
                     && old(running[key]).spec != spec))
      ensures key in old(running) && (key !in running || running[key] != old(running[key]))
          ==> Stopped(old(running[key]))
    {
      var kept;
      kept, path := ClearStale(key, spec, s, t);
      if kept {
        return false, path;
      }
      ghost var rest;
      failed, rest := Build(key, spec, buildOk, writeFails, Last(path), t);
      Regoto(s, t, Building(key, spec), Idle);
      path := Join(path, rest);
    }

    // Keeps an instance with the spec's target, stops one with another.
    method ClearStale(key: Key, spec: SpecRev, ghost s: State, ghost t: nat)
        returns (kept: bool, ghost path: seq<State>)
      requires Valid() && Shows(s) && s.mu == None && t < |s.threads| && s.threads[t] == Fetching(key)
      requires key.name in s.latest && s.latest[key.name] == spec
      modifies this`running, running.Values
      ensures Valid() && Path(path) && path[0] == s && Shows(Last(path)) && sessions == old(sessions)
      ensures Elsewhere(s, Last(path))
      ensures Last(path).threads == s.threads[t := if kept then Idle else Building(key, spec)]
      ensures kept == (key in old(running) && old(running[key]).spec.target == spec.target)
      ensures running == if kept then old(running) else old(running) - {key}
      ensures key in old(running) && !kept ==> Stopped(old(running[key]))
    {
      path := LookPath(s, t, key, spec);
      if key !in running {
        return false, path;
      }
      if running[key].spec.target == spec.target {
        return true, path;
      }
      ghost var more := StopByKey(key, Last(path), t, ThenBuild(spec));
      Regoto(s, t, StopLock(key, ThenBuild(spec)), Building(key, spec));
      path := Join(path, more);
      kept := false;
    }
  }
}
