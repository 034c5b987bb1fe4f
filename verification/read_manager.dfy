/** pkg/controllers/read_desire_manager/controller.go as a machine of threads. Thread 0 is Run, which
    ends in stopAll; the others are workers. Taking the mutex, the body of a lock section (which
    releases it), cancel, the wait on done, the goroutine start and the close of done are separate
    steps, and any interleaving of them is a run. */
module ReadDesireManager {
  import opened KubeApplier

  /** One fetched revision of a ReadDesire spec. */
  datatype SpecRev = SpecRev(target: ResourceReference, rev: nat)

  /** What stopByKey returns to. */
  datatype After = ReturnNil | ThenBuild(spec: SpecRev) | NextKey(rest: seq<Key>)

  datatype Pc =
    | Idle
    | Fetching(key: Key)
    | LookLock(key: Key, spec: SpecRev)
    | LookHeld(key: Key, spec: SpecRev)
    | StopLock(key: Key, after: After)
    | StopHeld(key: Key, after: After)
    | StopCancel(key: Key, inst: nat, after: After)
    | StopWait(key: Key, inst: nat, after: After)
    | Building(key: Key, spec: SpecRev)
    | FailWrite(key: Key, inst: nat)
    | InsertLock(key: Key, inst: nat)
    | InsertHeld(key: Key, inst: nat)
    | Starting(key: Key, inst: nat)
    | AwaitDone
    | AllLock
    | AllHeld
    | Returned

  /** A per-instance controller, or (`reflector` false) the manager's own build-failure write:
      the two kinds of writer a key has, numbered in order of creation. */
  datatype Session = Session(
    key: Key, spec: SpecRev, reflector: bool, cancelled: bool, started: bool, exited: bool)

  /** `published` holds every revision a spec document has had, `latest` the one a fetch returns. */
  datatype State = State(
    threads: seq<Pc>, mu: Option<nat>, running: map<Key, nat>, sessions: seq<Session>,
    shutdown: bool, published: set<(string, SpecRev)>, latest: map<string, SpecRev>)

  datatype Step =
    | Publish(name: string, spec: SpecRev)
    | Shutdown
    | Pick(t: nat, key: Key)
    | Work(t: nat, choice: Choice)
    | Exit(i: nat)

  /** What the environment decides inside a worker step. */
  datatype Choice =
    Only | FetchFailed | FetchGone | FetchFound(spec: SpecRev) | BuildOk | BuildFailed | Order(keys: seq<Key>)

  /** The key a worker holds from the queue. */
  function WorkKey(pc: Pc): Option<Key> {
    match pc
    case Fetching(k) => Some(k)
    case LookLock(k, _) => Some(k)
    case LookHeld(k, _) => Some(k)
    case StopLock(k, _) => Some(k)
    case StopHeld(k, _) => Some(k)
    case StopCancel(k, _, _) => Some(k)
    case StopWait(k, _, _) => Some(k)
    case Building(k, _) => Some(k)
    case FailWrite(k, _) => Some(k)
    case InsertLock(k, _) => Some(k)
    case InsertHeld(k, _) => Some(k)
    case Starting(k, _) => Some(k)
    case _ => None
  }

  predicate Holds(pc: Pc) {
    pc.LookHeld? || pc.StopHeld? || pc.InsertHeld? || pc.AllHeld?
  }

  predicate Cancelled(s: State, i: nat)
    requires i < |s.sessions|
  {
    s.sessions[i].cancelled || s.shutdown
  }

  function AfterStop(key: Key, after: After): Pc {
    match after
    case ReturnNil => Idle
    case ThenBuild(spec) => Building(key, spec)
    case NextKey(rest) => if rest == [] then Returned else StopLock(rest[0], NextKey(rest[1..]))
  }

  function Goto(s: State, t: nat, pc: Pc): State
    requires t < |s.threads|
  {
    s.(threads := s.threads[t := pc])
  }

  ghost predicate Permutation(keys: seq<Key>, m: map<Key, nat>) {
    (forall k :: k in keys <==> k in m) && (forall i, j | 0 <= i < j < |keys| :: keys[i] != keys[j])
  }

  /** One step of thread t, deterministic given the environment's choice; None when it is blocked
      or the choice does not fit. */
  ghost function Act(s: State, t: nat, choice: Choice): Option<State>
    requires t < |s.threads|
  {
    match s.threads[t]
    case Fetching(k) =>
      (match choice
       case FetchFailed => Some(Goto(s, t, Idle))
       case FetchGone => Some(Goto(s, t, StopLock(k, ReturnNil)))
       case FetchFound(spec) => if k.name in s.latest && s.latest[k.name] == spec
           then Some(Goto(s, t, LookLock(k, spec))) else None
       case _ => None)
    case LookLock(k, spec) => if s.mu.None? then Some(Goto(s.(mu := Some(t)), t, LookHeld(k, spec))) else None
    case LookHeld(k, spec) =>
      var s1 := s.(mu := Option.None);
      if k !in s.running then Some(Goto(s1, t, Building(k, spec)))
      else if s.running[k] < |s.sessions| && s.sessions[s.running[k]].spec.target == spec.target
      then Some(Goto(s1, t, Idle))
      else Some(Goto(s1, t, StopLock(k, ThenBuild(spec))))
    case StopLock(k, after) => if s.mu.None? then Some(Goto(s.(mu := Some(t)), t, StopHeld(k, after))) else None
    case StopHeld(k, after) =>
      var s1 := s.(mu := Option.None, running := s.running - {k});
      if k in s.running then Some(Goto(s1, t, StopCancel(k, s.running[k], after)))
      else Some(Goto(s1, t, AfterStop(k, after)))
    case StopCancel(k, i, after) =>
      if i < |s.sessions|
      then Some(Goto(s.(sessions := s.sessions[i := s.sessions[i].(cancelled := true)]), t, StopWait(k, i, after)))
      else None
    case StopWait(k, i, after) =>
      if i < |s.sessions| && s.sessions[i].exited then Some(Goto(s, t, AfterStop(k, after))) else None
    case Building(k, spec) =>
      var i := |s.sessions|;
      (match choice
       case BuildOk =>
         Some(Goto(s.(sessions := s.sessions + [Session(k, spec, true, false, false, false)]), t, InsertLock(k, i)))
       case BuildFailed =>
         Some(Goto(s.(sessions := s.sessions + [Session(k, spec, false, false, false, false)]), t, FailWrite(k, i)))
       case _ => None)
    case FailWrite(k, i) => Some(Goto(s, t, Idle))
    case InsertLock(k, i) => if s.mu.None? then Some(Goto(s.(mu := Some(t)), t, InsertHeld(k, i))) else None
    case InsertHeld(k, i) => Some(Goto(s.(mu := Option.None, running := s.running[k := i]), t, Starting(k, i)))
    case Starting(k, i) =>
      if i < |s.sessions|
      then Some(Goto(s.(sessions := s.sessions[i := s.sessions[i].(started := true)]), t, Idle))
      else None
    case AwaitDone => if s.shutdown then Some(Goto(s, t, AllLock)) else None
    case AllLock => if s.mu.None? then Some(Goto(s.(mu := Some(t)), t, AllHeld)) else None
    case AllHeld =>
      (match choice
       case Order(keys) =>
         if Permutation(keys, s.running)
         then
           var pc := if keys == [] then Returned else StopLock(keys[0], NextKey(keys[1..]));
           Some(Goto(s.(mu := Option.None), t, pc))
         else None
       case _ => None)
    case Idle => None
    case Returned => None
  }

  /** Pick hands a key to an idle worker only while no other worker holds it (the workqueue's
      contract); a reflector's Run returns only once its context is cancelled. */
  ghost predicate NextStep(s: State, s': State, step: Step) {
    match step
    case Publish(name, spec) =>
      && (name in s.latest ==> s.latest[name].rev < spec.rev)
      && s' == s.(published := s.published + {(name, spec)}, latest := s.latest[name := spec])
    case Shutdown => s' == s.(shutdown := true)
    case Pick(t, k) =>
      && 0 < t < |s.threads| && s.threads[t].Idle?
      && (forall u | 0 < u < |s.threads| :: WorkKey(s.threads[u]) != Some(k))
      && s' == Goto(s, t, Fetching(k))
    case Work(t, choice) => t < |s.threads| && Act(s, t, choice) == Some(s')
    case Exit(i) =>
      && i < |s.sessions| && s.sessions[i].reflector && s.sessions[i].started && !s.sessions[i].exited
      && Cancelled(s, i)
      && s' == s.(sessions := s.sessions[i := s.sessions[i].(exited := true)])
  }

  ghost predicate Next(s: State, s': State) {
    exists step :: NextStep(s, s', step)
  }

  ghost predicate Init(s: State) {
    && |s.threads| > 1 && s.threads[0] == AwaitDone && (forall t | 0 < t < |s.threads| :: s.threads[t] == Idle)
    && s.mu == None && s.running == map[] && s.sessions == [] && !s.shutdown
    && (forall name | name in s.latest :: (name, s.latest[name]) in s.published)
  }

  ghost predicate StepAt(ss: seq<State>, i: nat)
    requires 0 < i < |ss|
  {
    Next(ss[i - 1], ss[i])
  }

  ghost predicate Run(ss: seq<State>) {
    |ss| > 0 && Init(ss[0]) && forall i | 0 < i < |ss| :: StepAt(ss, i)
  }

  /* ---- The invariant ---- */

  // Thread 0 only stops; workers only serve keys.
  ghost predicate Role(t: nat, pc: Pc) {
    if t == 0 then
      pc.AwaitDone? || pc.AllLock? || pc.AllHeld? || pc.Returned? || (Stopping(pc) && pc.after.NextKey?)
    else
      !(pc.AwaitDone? || pc.AllLock? || pc.AllHeld? || pc.Returned?) && (Stopping(pc) ==> !pc.after.NextKey?)
  }

  predicate Stopping(pc: Pc) {
    pc.StopLock? || pc.StopHeld? || pc.StopCancel? || pc.StopWait?
  }

  ghost predicate Ref(s: State, k: Key, i: nat) {
    i < |s.sessions| && s.sessions[i].key == k && s.sessions[i].reflector
  }

  predicate Fresh(x: Session) {
    !x.cancelled && !x.started && !x.exited
  }

  // The session a thread has in hand is the right kind, for the right key, at the right stage.
  ghost predicate Hand(s: State, pc: Pc) {
    match pc
    case StopCancel(k, i, after) => Ref(s, k, i) && !s.sessions[i].cancelled && (!after.NextKey? ==> k !in s.running)
    case StopWait(k, i, after) => Ref(s, k, i) && s.sessions[i].cancelled && (!after.NextKey? ==> k !in s.running)
    case InsertLock(k, i) => Ref(s, k, i) && Fresh(s.sessions[i]) && k !in s.running
    case InsertHeld(k, i) => Ref(s, k, i) && Fresh(s.sessions[i]) && k !in s.running
    case Starting(k, i) => Ref(s, k, i) && !s.sessions[i].started
    case FailWrite(k, i) => i < |s.sessions| && s.sessions[i].key == k && !s.sessions[i].reflector && NoLater(s, k, i)
    case Building(k, _) => k !in s.running
    case _ => true
  }

  ghost predicate NoLater(s: State, k: Key, i: nat) {
    forall j | i < j < |s.sessions| :: s.sessions[j].key != k
  }

  ghost predicate Owns(pc: Pc, i: nat) {
    (pc.StopCancel? || pc.InsertLock? || pc.InsertHeld?) && pc.inst == i
  }

  ghost predicate Starts(pc: Pc, i: nat) {
    (pc.Starting? || pc.InsertLock? || pc.InsertHeld?) && pc.inst == i
  }

  ghost predicate Waits(pc: Pc, i: nat) {
    pc.StopWait? && pc.inst == i
  }

  // Every reflector is in exactly the place its flags say.
  ghost predicate Placed(s: State, i: nat)
    requires i < |s.sessions|
  {
    var x := s.sessions[i];
    x.reflector ==>
      && (x.exited ==> x.started && Cancelled(s, i))
      && (!x.cancelled ==> Listed(s, i) || exists t :: 0 <= t < |s.threads| && Owns(s.threads[t], i))
      && (x.cancelled && !x.exited ==> exists t :: 0 <= t < |s.threads| && Waits(s.threads[t], i))
      && (!x.started ==> exists t :: 0 <= t < |s.threads| && Starts(s.threads[t], i))
  }

  ghost predicate Listed(s: State, i: nat)
    requires i < |s.sessions|
  {
    s.sessions[i].key in s.running && s.running[s.sessions[i].key] == i
  }

  ghost predicate Entry(s: State, k: Key)
    requires k in s.running
  {
    Ref(s, k, s.running[k]) && !s.sessions[s.running[k]].cancelled
  }

  // A session in a thread's hand is in no other hand and not in the map.
  ghost predicate Unshared(s: State, t: nat, u: nat)
    requires t < |s.threads| && u < |s.threads|
  {
    var pc := s.threads[t];
    pc.StopCancel? || pc.InsertLock? || pc.InsertHeld? ==>
      && (t != u ==> !Owns(s.threads[u], pc.inst))
      && (pc.key in s.running ==> s.running[pc.key] != pc.inst)
  }

  ghost predicate Exclusive(s: State) {
    forall t, u | 0 < t < u < |s.threads| && WorkKey(s.threads[t]).Some? ::
      WorkKey(s.threads[t]) != WorkKey(s.threads[u])
  }

  // An earlier reflector of a key has exited before a later session of the key exists.
  ghost predicate Succeeds(s: State, i: nat, j: nat)
    requires i < j < |s.sessions|
  {
    s.sessions[i].key == s.sessions[j].key && s.sessions[i].reflector ==> s.shutdown || s.sessions[i].exited
  }

  ghost predicate Mutex(s: State) {
    && (forall t | 0 <= t < |s.threads| :: Holds(s.threads[t]) <==> s.mu == Some(t))
    && (s.mu.Some? ==> s.mu.value < |s.threads|)
  }

  ghost predicate Roles(s: State) {
    && |s.threads| > 1
    && (forall t | 0 <= t < |s.threads| :: Role(t, s.threads[t]))
    && (s.threads[0] != AwaitDone ==> s.shutdown)
  }

  ghost predicate Hands(s: State) {
    forall t | 0 <= t < |s.threads| :: Hand(s, s.threads[t])
  }

  ghost predicate NoneShared(s: State) {
    forall t, u | 0 <= t < |s.threads| && 0 <= u < |s.threads| :: Unshared(s, t, u)
  }

  ghost predicate AllPlaced(s: State) {
    forall i | 0 <= i < |s.sessions| :: Placed(s, i)
  }

  ghost predicate Entries(s: State) {
    forall k | k in s.running :: Entry(s, k)
  }

  ghost predicate Successions(s: State) {
    forall i, j | 0 <= i < j < |s.sessions| :: Succeeds(s, i, j)
  }

  ghost predicate Inv(s: State) {
    && Roles(s) && Mutex(s) && Exclusive(s) && Hands(s) && NoneShared(s)
    && Entries(s) && AllPlaced(s) && Successions(s) && Documented(s)
  }

  function SpecOf(pc: Pc): Option<SpecRev> {
    match pc
    case LookLock(_, spec) => Some(spec)
    case LookHeld(_, spec) => Some(spec)
    case Building(_, spec) => Some(spec)
    case StopLock(_, a) => if a.ThenBuild? then Some(a.spec) else None
    case StopHeld(_, a) => if a.ThenBuild? then Some(a.spec) else None
    case StopCancel(_, _, a) => if a.ThenBuild? then Some(a.spec) else None
    case StopWait(_, _, a) => if a.ThenBuild? then Some(a.spec) else None
    case _ => None
  }

  // Every spec in use is a published revision of the key's own document.
  ghost predicate Documented(s: State) {
    && (forall name | name in s.latest :: (name, s.latest[name]) in s.published)
    && (forall t | 0 <= t < |s.threads| && SpecOf(s.threads[t]).Some? && WorkKey(s.threads[t]).Some? ::
          (WorkKey(s.threads[t]).value.name, SpecOf(s.threads[t]).value) in s.published)
    && (forall i | 0 <= i < |s.sessions| :: (s.sessions[i].key.name, s.sessions[i].spec) in s.published)
  }

  /* ---- Preservation ---- */

  // Thread t moves on without touching any session or entry, dropping nothing it is needed for.
  ghost predicate Moves(s: State, s': State, t: nat, pc: Pc) {
    && t < |s.threads| && s' == Goto(s, t, pc).(mu := s'.mu)
    && Role(t, pc) && (t == 0 ==> s.shutdown) && Hand(s, pc) && Mutex(s')
    && (WorkKey(pc).Some? && t > 0 ==> WorkKey(pc) == WorkKey(s.threads[t]))
    && (WorkKey(pc).Some? && t == 0 ==> !pc.StopCancel?)
    && (SpecOf(pc).Some? && WorkKey(pc).Some? ==> (WorkKey(pc).value.name, SpecOf(pc).value) in s.published)
    && KeepsHands(s, s.threads[t], pc)
  }

  ghost predicate KeepsHands(s: State, pc: Pc, pc': Pc) {
    && (forall i :: (Owns(pc, i) <==> Owns(pc', i)) && (Starts(pc, i) ==> Starts(pc', i)))
    && (forall i: nat :: Waits(pc, i) ==> Waits(pc', i) || (i < |s.sessions| && s.sessions[i].exited))
  }

  lemma MoveHands(s: State, s': State, t: nat, pc: Pc)
    requires Hands(s) && NoneShared(s) && Moves(s, s', t, pc)
    ensures Hands(s') && NoneShared(s')
  {
    forall u | 0 <= u < |s'.threads| ensures Hand(s', s'.threads[u]) { assert u != t ==> Hand(s, s.threads[u]); }
    forall u, v | 0 <= u < |s'.threads| && 0 <= v < |s'.threads| ensures Unshared(s', u, v) {
      assert Unshared(s, u, v);
      var q := s'.threads[u];
      if q.StopCancel? || q.InsertLock? || q.InsertHeld? {
        assert Owns(q, q.inst) && Owns(s.threads[u], q.inst);
        assert Owns(s'.threads[v], q.inst) ==> Owns(s.threads[v], q.inst);
      }
    }
  }

  lemma MovePlaced(s: State, s': State, t: nat, pc: Pc)
    requires AllPlaced(s) && Entries(s) && Successions(s) && Moves(s, s', t, pc)
    ensures AllPlaced(s') && Entries(s') && Successions(s')
  {
    forall k | k in s'.running ensures Entry(s', k) { assert Entry(s, k); }
    forall i | 0 <= i < |s'.sessions| ensures Placed(s', i) { PlacedMoves(s, s', t, pc, i); }
    forall i, j | 0 <= i < j < |s'.sessions| ensures Succeeds(s', i, j) { assert Succeeds(s, i, j); }
  }

  lemma MoveRest(s: State, s': State, t: nat, pc: Pc)
    requires Roles(s) && Exclusive(s) && Documented(s) && Moves(s, s', t, pc)
    ensures Roles(s') && Exclusive(s') && Documented(s')
  {
    forall u | 0 <= u < |s'.threads| ensures Role(u, s'.threads[u]) { assert u != t ==> Role(u, s.threads[u]); }
  }

  lemma MoveInv(s: State, s': State, t: nat, pc: Pc)
    requires Inv(s) && Moves(s, s', t, pc)
    ensures Inv(s')
  {
    MoveHands(s, s', t, pc);
    MovePlaced(s, s', t, pc);
    MoveRest(s, s', t, pc);
  }

  lemma PlacedMoves(s: State, s': State, t: nat, pc: Pc, i: nat)
    requires t < |s.threads| && s' == Goto(s, t, pc).(mu := s'.mu) && i < |s.sessions| && Placed(s, i)
    requires (Owns(s.threads[t], i) ==> Owns(pc, i)) && (Starts(s.threads[t], i) ==> Starts(pc, i))
    requires Waits(s.threads[t], i) ==> Waits(pc, i) || s.sessions[i].exited
    ensures Placed(s', i)
  {
    var x := s.sessions[i];
    if x.reflector {
      if !x.cancelled && !Listed(s, i) {
        var u :| 0 <= u < |s.threads| && Owns(s.threads[u], i);
        assert Owns(s'.threads[u], i);
      }
      if x.cancelled && !x.exited {
        var u :| 0 <= u < |s.threads| && Waits(s.threads[u], i);
        assert Waits(s'.threads[u], i);
      }
      if !x.started {
        var u :| 0 <= u < |s.threads| && Starts(s.threads[u], i);
        assert Starts(s'.threads[u], i);
      }
    }
  }

  // Lines 281-286 with an entry: it leaves the map and is in this thread's hand only.
  ghost predicate Take(s: State, s': State, t: nat, k: Key, i: nat, after: After) {
    && t < |s.threads| && s.threads[t] == StopHeld(k, after) && k in s.running && s.running[k] == i
    && s' == Goto(s.(mu := Option.None, running := s.running - {k}), t, StopCancel(k, i, after))
  }

  lemma TakeUnshared(s: State, s': State, t: nat, k: Key, i: nat, after: After)
    requires Inv(s) && Take(s, s', t, k, i, after)
    ensures NoneShared(s')
  {
    assert Entry(s, k);
    forall u, v | 0 <= u < |s'.threads| && 0 <= v < |s'.threads| ensures Unshared(s', u, v) {
      assert Unshared(s, u, v) && Unshared(s, v, u);
      assert Hand(s, s.threads[u]) && Hand(s, s.threads[v]);
    }
  }

  lemma TakePlaced(s: State, s': State, t: nat, k: Key, i: nat, after: After)
    requires Inv(s) && Take(s, s', t, k, i, after)
    ensures AllPlaced(s')
  {
    forall j | 0 <= j < |s'.sessions| ensures Placed(s', j) {
      assert Placed(s, j);
      PlacedElsewhere(s, s', t, j);
    }
  }

  lemma TakeInv(s: State, s': State, t: nat, k: Key, i: nat, after: After)
    requires Inv(s) && Take(s, s', t, k, i, after)
    ensures Inv(s')
  {
    TakeUnshared(s, s', t, k, i, after);
    TakePlaced(s, s', t, k, i, after);
    TakeHands(s, s', t, k, i, after);
    forall u | 0 <= u < |s'.threads| ensures Role(u, s'.threads[u]) { assert Role(u, s.threads[u]); }
    forall k' | k' in s'.running ensures Entry(s', k') { assert Entry(s, k'); }
    SameSuccessions(s, s');
  }

  lemma TakeHands(s: State, s': State, t: nat, k: Key, i: nat, after: After)
    requires Roles(s) && Hands(s) && Entries(s) && Take(s, s', t, k, i, after)
    ensures Hands(s')
  {
    assert Entry(s, k) && Role(t, s.threads[t]);
    forall u | 0 <= u < |s'.threads| ensures Hand(s', s'.threads[u]) { assert Hand(s, s.threads[u]); }
  }

  // What places a session survives a step of a thread that has nothing to do with it.
  lemma PlacedElsewhere(s: State, s': State, t: nat, j: nat)
    requires t < |s.threads| && |s'.threads| == |s.threads| && j < |s.sessions| && j < |s'.sessions| && Placed(s, j)
    requires forall u | 0 <= u < |s.threads| && u != t :: s'.threads[u] == s.threads[u]
    requires s'.sessions[j] == s.sessions[j] && (s.shutdown ==> s'.shutdown)
    requires Owns(s.threads[t], j) ==> Owns(s'.threads[t], j) || Listed(s', j)
    requires Starts(s.threads[t], j) ==> Starts(s'.threads[t], j)
    requires Waits(s.threads[t], j) ==> Waits(s'.threads[t], j)
    requires Listed(s, j) ==> Listed(s', j) || Owns(s'.threads[t], j)
    ensures Placed(s', j)
  {
    var x := s.sessions[j];
    if x.reflector {
      if !x.cancelled && !Listed(s, j) {
        var u :| 0 <= u < |s.threads| && Owns(s.threads[u], j);
        assert u != t ==> Owns(s'.threads[u], j);
      }
      if x.cancelled && !x.exited {
        var u :| 0 <= u < |s.threads| && Waits(s.threads[u], j);
        assert Waits(s'.threads[u], j);
      }
      if !x.started {
        var u :| 0 <= u < |s.threads| && Starts(s.threads[u], j);
        assert Starts(s'.threads[u], j);
      }
    }
  }

  // Line 290: the thread that took the entry cancels it and goes on to wait for it.
  ghost predicate Cancel(s: State, s': State, t: nat, k: Key, i: nat, after: After) {
    && t < |s.threads| && s.threads[t] == StopCancel(k, i, after) && i < |s.sessions|
    && s' == Goto(s.(sessions := s.sessions[i := s.sessions[i].(cancelled := true)]), t, StopWait(k, i, after))
  }

  lemma CancelHands(s: State, s': State, t: nat, k: Key, i: nat, after: After)
    requires Inv(s) && Cancel(s, s', t, k, i, after)
    ensures Hands(s') && NoneShared(s')
  {
    forall u | 0 <= u < |s'.threads| ensures Hand(s', s'.threads[u]) {
      assert Hand(s, s.threads[u]) && Unshared(s, t, u);
    }
    forall u, v | 0 <= u < |s'.threads| && 0 <= v < |s'.threads| ensures Unshared(s', u, v) {
      assert Unshared(s, u, v);
    }
  }

  lemma CancelPlaced(s: State, s': State, t: nat, k: Key, i: nat, after: After)
    requires Inv(s) && Cancel(s, s', t, k, i, after)
    ensures AllPlaced(s')
  {
    assert Hand(s, s.threads[t]);
    forall j | 0 <= j < |s'.sessions| ensures Placed(s', j) {
      assert Placed(s, j);
      if j == i {
        assert Waits(s'.threads[t], i);
        if !s.sessions[i].started {
          var u :| 0 <= u < |s.threads| && Starts(s.threads[u], i);
          assert Unshared(s, t, u) && Starts(s'.threads[u], i);
        }
      } else {
        PlacedElsewhere(s, s', t, j);
      }
    }
  }

  lemma CancelInv(s: State, s': State, t: nat, k: Key, i: nat, after: After)
    requires Inv(s) && Cancel(s, s', t, k, i, after)
    ensures Inv(s')
  {
    CancelHands(s, s', t, k, i, after);
    CancelPlaced(s, s', t, k, i, after);
    assert Hand(s, s.threads[t]);
    forall u | 0 <= u < |s'.threads| ensures Role(u, s'.threads[u]) { assert Role(u, s.threads[u]); }
    forall k' | k' in s'.running ensures Entry(s', k') { assert Entry(s, k') && Unshared(s, t, t); }
    forall a, b | 0 <= a < b < |s'.sessions| ensures Succeeds(s', a, b) { assert Succeeds(s, a, b); }
  }

  // No other worker has a session of this key in hand, and Run's thread only after shutdown.
  lemma HandOfKey(s: State, t: nat, k: Key, u: nat, i: nat)
    requires Inv(s) && 0 < t < |s.threads| && u < |s.threads| && t != u
    requires WorkKey(s.threads[t]) == Some(k) && i < |s.sessions| && s.sessions[i].key == k
    requires Owns(s.threads[u], i) || Waits(s.threads[u], i)
    ensures s.shutdown
  {
    assert Hand(s, s.threads[u]) && Role(u, s.threads[u]);
    assert WorkKey(s.threads[u]) == Some(k);
  }

  // When a worker may build for a key, every earlier reflector of it has exited, or shutdown began.
  lemma NothingLives(s: State, t: nat, k: Key, spec: SpecRev, i: nat)
    requires Inv(s) && t < |s.threads| && s.threads[t] == Building(k, spec)
    requires i < |s.sessions| && s.sessions[i].key == k && s.sessions[i].reflector
    ensures s.shutdown || s.sessions[i].exited
  {
    assert Placed(s, i) && Role(t, s.threads[t]) && Hand(s, s.threads[t]);
    if !s.sessions[i].cancelled {
      var u :| 0 <= u < |s.threads| && Owns(s.threads[u], i);
      HandOfKey(s, t, k, u, i);
    } else if !s.sessions[i].exited {
      var u :| 0 <= u < |s.threads| && Waits(s.threads[u], i);
      HandOfKey(s, t, k, u, i);
    }
  }

  // Lines 256-266: a new session of the key exists, in this thread's hand.
  ghost predicate Build(s: State, s': State, t: nat, k: Key, spec: SpecRev, ok: bool) {
    && t < |s.threads| && s.threads[t] == Building(k, spec)
    && s' == Goto(s.(sessions := s.sessions + [Session(k, spec, ok, false, false, false)]), t,
                  if ok then InsertLock(k, |s.sessions|) else FailWrite(k, |s.sessions|))
  }

  lemma BuildHands(s: State, s': State, t: nat, k: Key, spec: SpecRev, ok: bool)
    requires Inv(s) && Build(s, s', t, k, spec, ok)
    ensures Hands(s') && NoneShared(s')
  {
    assert Role(t, s.threads[t]);
    forall u | 0 <= u < |s'.threads| ensures Hand(s', s'.threads[u]) {
      assert Hand(s, s.threads[u]) && Role(u, s.threads[u]);
    }
    forall u, v | 0 <= u < |s'.threads| && 0 <= v < |s'.threads| ensures Unshared(s', u, v) {
      assert Unshared(s, u, v) && Hand(s, s.threads[u]) && Hand(s, s.threads[v]);
    }
  }

  lemma BuildPlaced(s: State, s': State, t: nat, k: Key, spec: SpecRev, ok: bool)
    requires Inv(s) && Build(s, s', t, k, spec, ok)
    ensures AllPlaced(s')
  {
    forall j | 0 <= j < |s'.sessions| ensures Placed(s', j) {
      if j == |s.sessions| {
        assert ok ==> Owns(s'.threads[t], j) && Starts(s'.threads[t], j);
      } else {
        assert Placed(s, j);
        PlacedElsewhere(s, s', t, j);
      }
    }
  }

  lemma BuildInv(s: State, s': State, t: nat, k: Key, spec: SpecRev, ok: bool)
    requires Inv(s) && Build(s, s', t, k, spec, ok)
    ensures Inv(s')
  {
    BuildHands(s, s', t, k, spec, ok);
    BuildPlaced(s, s', t, k, spec, ok);
    forall u | 0 <= u < |s'.threads| ensures Role(u, s'.threads[u]) { assert Role(u, s.threads[u]); }
    forall k' | k' in s'.running ensures Entry(s', k') { assert Entry(s, k'); }
    forall a, b | 0 <= a < b < |s'.sessions| ensures Succeeds(s', a, b) {
      if b == |s.sessions| {
        if s.sessions[a].key == k && s.sessions[a].reflector { NothingLives(s, t, k, spec, a); }
      } else {
        assert Succeeds(s, a, b);
      }
    }
  }

  // Lines 267-269: the store into the map. The key had no entry, so none is overwritten.
  ghost predicate Insert(s: State, s': State, t: nat, k: Key, i: nat) {
    && t < |s.threads| && s.threads[t] == InsertHeld(k, i)
    && s' == Goto(s.(mu := Option.None, running := s.running[k := i]), t, Starting(k, i))
  }

  lemma InsertHands(s: State, s': State, t: nat, k: Key, i: nat)
    requires Inv(s) && Insert(s, s', t, k, i)
    ensures Hands(s') && NoneShared(s')
  {
    assert Hand(s, s.threads[t]) && Role(t, s.threads[t]);
    forall u | 0 <= u < |s'.threads| ensures Hand(s', s'.threads[u]) {
      assert Hand(s, s.threads[u]) && Role(u, s.threads[u]);
    }
    forall u, v | 0 <= u < |s'.threads| && 0 <= v < |s'.threads| ensures Unshared(s', u, v) {
      assert Unshared(s, u, v) && Unshared(s, t, u) && Hand(s, s.threads[u]);
    }
  }

  lemma InsertPlaced(s: State, s': State, t: nat, k: Key, i: nat)
    requires AllPlaced(s) && Insert(s, s', t, k, i) && k !in s.running && Ref(s, k, i)
    ensures AllPlaced(s')
  {
    forall j | 0 <= j < |s'.sessions| ensures Placed(s', j) {
      assert Placed(s, j);
      PlacedElsewhere(s, s', t, j);
    }
  }

  lemma InsertEntries(s: State, s': State, t: nat, k: Key, i: nat)
    requires Entries(s) && Insert(s, s', t, k, i) && Ref(s, k, i) && !s.sessions[i].cancelled
    ensures Entries(s')
  {
    forall k' | k' in s'.running ensures Entry(s', k') { assert k' != k ==> Entry(s, k'); }
  }

  lemma InsertInv(s: State, s': State, t: nat, k: Key, i: nat)
    requires Inv(s) && Insert(s, s', t, k, i)
    ensures Inv(s') && k !in s.running
  {
    InsertHands(s, s', t, k, i);
    assert Hand(s, s.threads[t]);
    InsertPlaced(s, s', t, k, i);
    InsertEntries(s, s', t, k, i);
    forall u | 0 <= u < |s'.threads| ensures Role(u, s'.threads[u]) { assert Role(u, s.threads[u]); }
    SameSuccessions(s, s');
  }

  lemma SameSuccessions(s: State, s': State)
    requires Successions(s) && s'.sessions == s.sessions && (s.shutdown ==> s'.shutdown)
    ensures Successions(s')
  {
    forall a, b | 0 <= a < b < |s'.sessions| ensures Succeeds(s', a, b) { assert Succeeds(s, a, b); }
  }

  // A reflector's Run returns and closes done.
  lemma ExitInv(s: State, s': State, i: nat)
    requires Inv(s) && NextStep(s, s', Exit(i))
    ensures Inv(s')
  {
    forall u | 0 <= u < |s'.threads| ensures Hand(s', s'.threads[u]) && Role(u, s'.threads[u]) {
      assert Hand(s, s.threads[u]) && Role(u, s.threads[u]);
    }
    forall u, v | 0 <= u < |s'.threads| && 0 <= v < |s'.threads| ensures Unshared(s', u, v) {
      assert Unshared(s, u, v);
    }
    forall k' | k' in s'.running ensures Entry(s', k') { assert Entry(s, k'); }
    forall j | 0 <= j < |s'.sessions| ensures Placed(s', j) { assert Placed(s, j); }
    forall a, b | 0 <= a < b < |s'.sessions| ensures Succeeds(s', a, b) { assert Succeeds(s, a, b); }
  }

  // Line 271: the goroutine starts.
  ghost predicate Start(s: State, s': State, t: nat, k: Key, i: nat) {
    && t < |s.threads| && s.threads[t] == Starting(k, i) && i < |s.sessions|
    && s' == Goto(s.(sessions := s.sessions[i := s.sessions[i].(started := true)]), t, Idle)
  }

  lemma StartHands(s: State, s': State, t: nat, k: Key, i: nat)
    requires Inv(s) && Start(s, s', t, k, i)
    ensures Hands(s') && NoneShared(s')
  {
    assert Hand(s, s.threads[t]) && Role(t, s.threads[t]);
    forall u | 0 <= u < |s'.threads| ensures Hand(s', s'.threads[u]) {
      assert Hand(s, s.threads[u]) && Role(u, s.threads[u]);
    }
    forall u, v | 0 <= u < |s'.threads| && 0 <= v < |s'.threads| ensures Unshared(s', u, v) {
      assert Unshared(s, u, v);
    }
  }

  lemma StartPlaced(s: State, s': State, t: nat, k: Key, i: nat)
    requires Inv(s) && Start(s, s', t, k, i)
    ensures AllPlaced(s')
  {
    forall j | 0 <= j < |s'.sessions| ensures Placed(s', j) {
      assert Placed(s, j);
      if j != i {
        PlacedElsewhere(s, s', t, j);
      } else if s.sessions[i].reflector {
        if !s.sessions[i].cancelled && !Listed(s, i) {
          var u :| 0 <= u < |s.threads| && Owns(s.threads[u], i);
          assert Owns(s'.threads[u], i);
        }
        if s.sessions[i].cancelled && !s.sessions[i].exited {
          var u :| 0 <= u < |s.threads| && Waits(s.threads[u], i);
          assert Waits(s'.threads[u], i);
        }
      }
    }
  }

  lemma StartInv(s: State, s': State, t: nat, k: Key, i: nat)
    requires Inv(s) && Start(s, s', t, k, i)
    ensures Inv(s')
  {
    StartHands(s, s', t, k, i);
    StartPlaced(s, s', t, k, i);
    forall u | 0 <= u < |s'.threads| ensures Role(u, s'.threads[u]) { assert Role(u, s.threads[u]); }
    forall k' | k' in s'.running ensures Entry(s', k') { assert Entry(s, k'); }
    forall a, b | 0 <= a < b < |s'.sessions| ensures Succeeds(s', a, b) { assert Succeeds(s, a, b); }
  }

  // The context is cancelled, or a spec is published: threads, map and sessions are untouched.
  lemma EnvironmentInv(s: State, s': State)
    requires Inv(s) && s' == s.(shutdown := s'.shutdown, published := s'.published, latest := s'.latest)
    requires forall name | name in s'.latest :: (name, s'.latest[name]) in s'.published
    requires (s.shutdown ==> s'.shutdown) && s.published <= s'.published
    ensures Inv(s')
  {
    forall u | 0 <= u < |s'.threads| ensures Hand(s', s'.threads[u]) && Role(u, s'.threads[u]) {
      assert Hand(s, s.threads[u]) && Role(u, s.threads[u]);
    }
    forall u, v | 0 <= u < |s'.threads| && 0 <= v < |s'.threads| ensures Unshared(s', u, v) {
      assert Unshared(s, u, v);
    }
    forall k' | k' in s'.running ensures Entry(s', k') { assert Entry(s, k'); }
    forall j | 0 <= j < |s'.sessions| ensures Placed(s', j) { assert Placed(s, j); }
    forall a, b | 0 <= a < b < |s'.sessions| ensures Succeeds(s', a, b) { assert Succeeds(s, a, b); }
  }

  lemma PickInv(s: State, s': State, t: nat, k: Key)
    requires Inv(s) && NextStep(s, s', Pick(t, k))
    ensures Inv(s')
  {
    forall u | 0 <= u < |s'.threads| ensures Hand(s', s'.threads[u]) && Role(u, s'.threads[u]) {
      assert Hand(s, s.threads[u]) && Role(u, s.threads[u]);
    }
    forall u, v | 0 <= u < |s'.threads| && 0 <= v < |s'.threads| ensures Unshared(s', u, v) {
      assert Unshared(s, u, v);
    }
    forall k' | k' in s'.running ensures Entry(s', k') { assert Entry(s, k'); }
    forall j | 0 <= j < |s'.sessions| ensures Placed(s', j) { PlacedElsewhere(s, s', t, j); }
    forall a, b | 0 <= a < b < |s'.sessions| ensures Succeeds(s', a, b) { assert Succeeds(s, a, b); }
  }

  // Whoever holds the mutex is the one thread inside a lock section, before and after.
  ghost predicate MutexMoves(s: State, s': State, t: nat) {
    t < |s'.threads| == |s.threads| && Mutex(s')
  }

  ghost predicate MuMoves(s: State, s': State, t: nat)
    requires t < |s.threads| && t < |s'.threads|
  {
    && s'.mu == (if Holds(s'.threads[t]) then Some(t) else if Holds(s.threads[t]) then None else s.mu)
    && (Holds(s'.threads[t]) ==> s.mu == None)
  }

  lemma TakesMu(s: State, s': State, t: nat, choice: Choice)
    requires t < |s.threads| && Act(s, t, choice) == Some(s')
    requires var pc := s.threads[t]; pc.LookLock? || pc.StopLock? || pc.InsertLock? || pc.AllLock?
    ensures |s'.threads| == |s.threads| && MuMoves(s, s', t)
  {
  }

  lemma FreesMu(s: State, s': State, t: nat, choice: Choice)
    requires t < |s.threads| && Act(s, t, choice) == Some(s') && Holds(s.threads[t])
    ensures |s'.threads| == |s.threads| && MuMoves(s, s', t)
  {
  }

  lemma LeavesMu(s: State, s': State, t: nat, choice: Choice)
    requires t < |s.threads| && Act(s, t, choice) == Some(s')
    requires var pc := s.threads[t]; pc.Fetching? || pc.StopWait? || pc.FailWrite? || pc.AwaitDone?
    ensures |s'.threads| == |s.threads| && MuMoves(s, s', t)
  {
  }

  lemma MutexHolds(s: State, s': State, t: nat)
    requires Mutex(s) && t < |s.threads| == |s'.threads| && MuMoves(s, s', t)
    requires forall u | 0 <= u < |s.threads| && u != t :: s'.threads[u] == s.threads[u]
    ensures MutexMoves(s, s', t)
  {
  }

  // The spec a thread holds is published.
  ghost predicate Papers(s: State, pc: Pc) {
    SpecOf(pc).Some? && WorkKey(pc).Some? ==> (WorkKey(pc).value.name, SpecOf(pc).value) in s.published
  }

  // Working moves one thread.
  lemma WorkMovesOne(s: State, s': State, t: nat, choice: Choice, u: nat)
    requires t < |s.threads| && Act(s, t, choice) == Some(s') && u < |s.threads| && u != t
    ensures |s'.threads| == |s.threads| && s'.threads[u] == s.threads[u]
  {
    var pc := s.threads[t];
    if Stopping(pc) { StopMovesOne(s, s', t, choice, u); }
    else if pc.Fetching? || pc.LookLock? || pc.LookHeld? { LookMovesOne(s, s', t, choice, u); }
    else { LastMovesOne(s, s', t, choice, u); }
  }

  lemma StopMovesOne(s: State, s': State, t: nat, choice: Choice, u: nat)
    requires t < |s.threads| && Act(s, t, choice) == Some(s') && u < |s.threads| && u != t && Stopping(s.threads[t])
    ensures |s'.threads| == |s.threads| && s'.threads[u] == s.threads[u]
  {
  }

  lemma LookMovesOne(s: State, s': State, t: nat, choice: Choice, u: nat)
    requires t < |s.threads| && Act(s, t, choice) == Some(s') && u < |s.threads| && u != t
    requires s.threads[t].Fetching? || s.threads[t].LookLock? || s.threads[t].LookHeld?
    ensures |s'.threads| == |s.threads| && s'.threads[u] == s.threads[u]
  {
  }

  lemma LastMovesOne(s: State, s': State, t: nat, choice: Choice, u: nat)
    requires t < |s.threads| && Act(s, t, choice) == Some(s') && u < |s.threads| && u != t
    requires var pc := s.threads[t]; !pc.Fetching? && !pc.LookLock? && !pc.LookHeld? && !Stopping(pc)
    ensures |s'.threads| == |s.threads| && s'.threads[u] == s.threads[u]
  {
  }

  // Any step moves at most one thread, and a thread that is not moved stays or is handed a key.
  lemma OthersStay(s: State, s': State, step: Step, t: nat)
    requires NextStep(s, s', step) && t < |s.threads| && !(step.Work? && step.t == t)
    ensures |s'.threads| == |s.threads|
    ensures s'.threads[t] == s.threads[t] || (step.Pick? && step.t == t && s'.threads[t] == Fetching(step.key))
  {
    if step.Work? { WorkMovesOne(s, s', step.t, step.choice, t); }
  }

  // Taking the mutex.
  lemma AcquireMoves(s: State, s': State, t: nat, choice: Choice)
    requires t < |s.threads| && Act(s, t, choice) == Some(s') && Role(t, s.threads[t]) && (t == 0 ==> s.shutdown)
    requires MutexMoves(s, s', t) && Papers(s, s.threads[t])
    requires Hand(s, s.threads[t])
    requires var pc := s.threads[t]; pc.LookLock? || pc.StopLock? || pc.InsertLock? || pc.AllLock?
    ensures |s'.threads| == |s.threads| && Moves(s, s', t, s'.threads[t])
  {
  }

  // A lock section that changes no entry.
  lemma LookMoves(s: State, s': State, t: nat, choice: Choice)
    requires t < |s.threads| && Act(s, t, choice) == Some(s') && Role(t, s.threads[t]) && (t == 0 ==> s.shutdown)
    requires MutexMoves(s, s', t) && Papers(s, s.threads[t])
    requires s.threads[t].LookHeld?
    ensures |s'.threads| == |s.threads| && Moves(s, s', t, s'.threads[t])
  {
  }

  lemma SkipMoves(s: State, s': State, t: nat, choice: Choice)
    requires t < |s.threads| && Act(s, t, choice) == Some(s') && Role(t, s.threads[t]) && (t == 0 ==> s.shutdown)
    requires MutexMoves(s, s', t) && Papers(s, s.threads[t])
    requires s.threads[t].StopHeld? && s.threads[t].key !in s.running
    ensures |s'.threads| == |s.threads| && Moves(s, s', t, s'.threads[t])
  {
    assert s.running - {s.threads[t].key} == s.running;
  }

  lemma ListMoves(s: State, s': State, t: nat, choice: Choice)
    requires t < |s.threads| && Act(s, t, choice) == Some(s') && Role(t, s.threads[t]) && (t == 0 ==> s.shutdown)
    requires MutexMoves(s, s', t) && Papers(s, s.threads[t])
    requires s.threads[t].AllHeld?
    ensures |s'.threads| == |s.threads| && Moves(s, s', t, s'.threads[t])
  {
  }

  // Steps outside the mutex that change no session.
  lemma FetchMoves(s: State, s': State, t: nat, choice: Choice)
    requires t < |s.threads| && Act(s, t, choice) == Some(s') && Role(t, s.threads[t]) && (t == 0 ==> s.shutdown)
    requires MutexMoves(s, s', t) && Papers(s, s.threads[t])
    requires s.threads[t].Fetching?
    requires var name := s.threads[t].key.name; name in s.latest ==> (name, s.latest[name]) in s.published
    ensures |s'.threads| == |s.threads| && Moves(s, s', t, s'.threads[t])
  {
  }

  lemma QuietMoves(s: State, s': State, t: nat, choice: Choice)
    requires t < |s.threads| && Act(s, t, choice) == Some(s') && Role(t, s.threads[t]) && (t == 0 ==> s.shutdown)
    requires MutexMoves(s, s', t) && Papers(s, s.threads[t])
    requires Hand(s, s.threads[t]) && (s.threads[t].StopWait? || s.threads[t].FailWrite?)
    ensures |s'.threads| == |s.threads| && Moves(s, s', t, s'.threads[t])
  {
  }

  lemma WakeMoves(s: State, s': State, t: nat, choice: Choice)
    requires t < |s.threads| && Act(s, t, choice) == Some(s') && Role(t, s.threads[t]) && s.threads[t].AwaitDone?
    requires MutexMoves(s, s', t)
    ensures |s'.threads| == |s.threads| && Moves(s, s', t, s'.threads[t])
  {
  }

  lemma StillMutex(s: State, s': State, t: nat, choice: Choice)
    requires Mutex(s) && t < |s.threads| && Act(s, t, choice) == Some(s')
    requires var pc := s.threads[t]; !pc.StopCancel? && !pc.Building? && !pc.Starting?
    ensures MutexMoves(s, s', t)
  {
    var pc := s.threads[t];
    if pc.LookLock? || pc.StopLock? || pc.InsertLock? || pc.AllLock? { TakesMu(s, s', t, choice); }
    else if Holds(pc) { FreesMu(s, s', t, choice); }
    else { LeavesMu(s, s', t, choice); }
    forall u | 0 <= u < |s.threads| && u != t ensures s'.threads[u] == s.threads[u] {
      WorkMovesOne(s, s', t, choice, u);
    }
    MutexHolds(s, s', t);
  }

  // A step that touches neither session nor entry.
  lemma StillMoves(s: State, s': State, t: nat, choice: Choice)
    requires Inv(s) && t < |s.threads| && Act(s, t, choice) == Some(s')
    requires var pc := s.threads[t];
             !(pc.StopHeld? && pc.key in s.running) && !pc.StopCancel? && !pc.Building?
                 && !pc.InsertHeld? && !pc.Starting?
    ensures |s'.threads| == |s.threads| && Moves(s, s', t, s'.threads[t])
  {
    var pc := s.threads[t];
    assert Role(t, pc) && Hand(s, pc) && Papers(s, pc);
    StillMutex(s, s', t, choice);
    if pc.LookLock? || pc.StopLock? || pc.InsertLock? || pc.AllLock? { AcquireMoves(s, s', t, choice); }
    else if pc.LookHeld? { LookMoves(s, s', t, choice); }
    else if pc.StopHeld? { SkipMoves(s, s', t, choice); }
    else if pc.AllHeld? { ListMoves(s, s', t, choice); }
    else if pc.Fetching? { FetchMoves(s, s', t, choice); }
    else if pc.AwaitDone? { WakeMoves(s, s', t, choice); }
    else { QuietMoves(s, s', t, choice); }
  }

  lemma WorkInv(s: State, s': State, t: nat, choice: Choice)
    requires Inv(s) && NextStep(s, s', Work(t, choice))
    ensures Inv(s')
  {
    var pc := s.threads[t];
    if pc.StopHeld? && pc.key in s.running { TakeInv(s, s', t, pc.key, s.running[pc.key], pc.after); }
    else if pc.StopCancel? { CancelInv(s, s', t, pc.key, pc.inst, pc.after); }
    else if pc.Building? { BuildInv(s, s', t, pc.key, pc.spec, choice.BuildOk?); }
    else if pc.InsertHeld? { InsertInv(s, s', t, pc.key, pc.inst); }
    else if pc.Starting? { StartInv(s, s', t, pc.key, pc.inst); }
    else {
      StillMoves(s, s', t, choice);
      MoveInv(s, s', t, s'.threads[t]);
    }
  }

  lemma NextInv(s: State, s': State)
    requires Inv(s) && Next(s, s')
    ensures Inv(s')
  {
    var step :| NextStep(s, s', step);
    match step
    case Publish(_, _) => EnvironmentInv(s, s');
    case Shutdown => EnvironmentInv(s, s');
    case Pick(t, k) => PickInv(s, s', t, k);
    case Work(t, choice) => WorkInv(s, s', t, choice);
    case Exit(i) => ExitInv(s, s', i);
  }

  lemma InitInv(s: State)
    requires Init(s)
    ensures Inv(s)
  {
  }

  lemma {:induction false} RunInv(ss: seq<State>, n: nat)
    requires Run(ss) && n < |ss|
    ensures Inv(ss[n])
  {
    if n == 0 {
      InitInv(ss[0]);
    } else {
      RunInv(ss, n - 1);
      assert StepAt(ss, n);
      NextInv(ss[n - 1], ss[n]);
    }
  }
}
