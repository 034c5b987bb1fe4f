/** Any number of UpdateStatus calls (pkg/controllers/desirestatuswriter/desirestatuswriter.go)
    interleaving on one store. Each Get, each decision and each delivery of a Create or Replace is
    one atomic step. A request that was sent may reach the store at any later time, more than
    once, or never, whatever its caller was told: a timed-out write is a late delivery. A caller hears
    the answer of one delivery, or gives up with an error.

    Every call belongs to a generation of its key. A call of an older generation can no longer send
    (its context is cancelled, or its sync has returned), but what it sent before may still arrive. */
module StatusWriteProtocol {
  import opened KubeApplier
  import opened Outcomes
  import SW = StatusWriter
  import VS = VersionedStore

  /** `mark` is the length of the log when the document was fetched. */
  datatype Phase =
    | Begun
    | Fetched(seen: Option<Doc>, mark: nat)
    | Unchanged(seen: Option<Doc>, mark: nat)
    | Sent(seen: Option<Doc>, mark: nat)

  /** What UpdateStatus has returned to its caller. */
  datatype Answer = Pending | Nil | Errored

  /** Who writes: the key, the generation of that key, and the closure passed to UpdateStatus. */
  datatype Writer = Writer(key: Key, gen: nat, mutation: Mutation)

  datatype Call = Call(who: Writer, phase: Phase, answer: Answer)

  datatype Landing = Landing(call: nat, who: Writer, before: Option<Doc>, after: Doc)

  /** `base` is what the store held when this process started; status documents are never deleted. */
  datatype World = World(
    base: map<string, Doc>, store: VS.Store, calls: seq<Call>, epoch: map<Key, nat>, log: seq<Landing>)

  datatype Step =
    | NewEpoch(key: Key, gen: nat)
    | Begin(key: Key, mutation: Mutation)
    | Fetch(c: nat)
    | Decide(c: nat)
    | Deliver(c: nat, heard: bool)
    | GiveUp(c: nat)

  function Epoch(w: World, key: Key): nat {
    if key in w.epoch then w.epoch[key] else 0
  }

  function Request(who: Writer, seen: Option<Doc>): Doc {
    SW.Request(who.key.name, who.mutation, seen)
  }

  function Execute(s: VS.Store, who: Writer, seen: Option<Doc>): (VS.Store, VS.Reply) {
    SW.Execute(s, who.key.name, who.mutation, seen)
  }

  ghost predicate Init(w: World) {
    && w.store.docs == w.base && VS.Valid(w.store)
    && w.calls == [] && w.log == [] && w.epoch == map[]
  }

  ghost predicate NextStep(w: World, w': World, step: Step) {
    match step
    case NewEpoch(key, gen) =>
      gen > Epoch(w, key) && w' == w.(epoch := w.epoch[key := gen])
    case Begin(key, m) =>
      w' == w.(calls := w.calls + [Call(Writer(key, Epoch(w, key), m), Begun, Pending)])
    case Fetch(c) =>
      && c < |w.calls| && w.calls[c].phase.Begun? && w.calls[c].answer.Pending?
      && var seen := VS.Get(w.store, w.calls[c].who.key.name);
         w' == w.(calls := w.calls[c := w.calls[c].(phase := Fetched(seen, |w.log|))])
    case Decide(c) =>
      && c < |w.calls| && w.calls[c].phase.Fetched? && w.calls[c].answer.Pending?
      && (IsNoop(w.calls[c]) || w.calls[c].who.gen == Epoch(w, w.calls[c].who.key))
      && w' == w.(calls := w.calls[c := Decided(w.calls[c])])
    case Deliver(c, heard) =>
      && c < |w.calls| && w.calls[c].phase.Sent? && (heard ==> w.calls[c].answer.Pending?)
      && w' == if heard then Hear(Arrive(w, c), c, AnswerTo(w, c)) else Arrive(w, c)
    case GiveUp(c) =>
      c < |w.calls| && w.calls[c].answer.Pending? && w' == Hear(w, c, Errored)
  }

  predicate IsNoop(c: Call)
    requires c.phase.Fetched?
  {
    c.phase.seen.Some? && Request(c.who, c.phase.seen) == c.phase.seen.value
  }

  /** Return nil if there is nothing to write, or send the request. */
  function Decided(c: Call): Call
    requires c.phase.Fetched?
  {
    if IsNoop(c) then c.(phase := Unchanged(c.phase.seen, c.phase.mark), answer := Nil)
    else c.(phase := Sent(c.phase.seen, c.phase.mark))
  }

  /** A delivery: the store carries the request out or refuses it. */
  function Arrive(w: World, c: nat): World
    requires c < |w.calls| && w.calls[c].phase.Sent?
  {
    var who, seen := w.calls[c].who, w.calls[c].phase.seen;
    var (store', reply) := Execute(w.store, who, seen);
    if reply.Stored?
    then w.(store := store', log := w.log + [Landing(c, who, VS.Get(w.store, who.key.name), reply.doc)])
    else w
  }

  /** What UpdateStatus makes of the store's reply: a failed precondition is swallowed. */
  function AnswerTo(w: World, c: nat): Answer
    requires c < |w.calls| && w.calls[c].phase.Sent?
  {
    var reply := Execute(w.store, w.calls[c].who, w.calls[c].phase.seen).1;
    if reply.Stored? || reply.PreconditionFailed? then Nil else Errored
  }

  function Hear(w: World, c: nat, a: Answer): World
    requires c < |w.calls|
  {
    w.(calls := w.calls[c := w.calls[c].(answer := a)])
  }

  ghost predicate Next(w: World, w': World) {
    exists step :: NextStep(w, w', step)
  }

  ghost predicate StepAt(ws: seq<World>, i: nat)
    requires 0 < i < |ws|
  {
    Next(ws[i - 1], ws[i])
  }

  ghost predicate Run(ws: seq<World>) {
    |ws| > 0 && Init(ws[0]) && forall i | 0 < i < |ws| :: StepAt(ws, i)
  }

  /** The document the log says a name holds: its last landing, or what was there at the start. */
  ghost function Current(base: map<string, Doc>, log: seq<Landing>, name: string): Option<Doc> {
    if log == [] then (if name in base then Some(base[name]) else None)
    else if log[|log| - 1].who.key.name == name then Some(log[|log| - 1].after)
    else Current(base, log[..|log| - 1], name)
  }

  /** What one landing must be: its writer's mutation of exactly the version before it, never a no-op. */
  ghost predicate GoodLanding(base: map<string, Doc>, before: seq<Landing>, l: Landing) {
    && l.before == Current(base, before, l.who.key.name)
    && l.after.id == l.who.key.name
    && l.after.body == Mutate(l.who.mutation, SW.BodyOf(l.before))
    && (l.before.Some? ==>
          && l.before.value.updateTime < l.after.updateTime
          && l.before.value.createTime == l.after.createTime
          && l.before.value.body != l.after.body)
    && (l.before.None? ==> l.after.createTime == l.after.updateTime)
  }

  /** The landings on each document form one chain, tokens rise, no call lands twice, and on each
      key the generations never go back. */
  ghost predicate GoodLog(base: map<string, Doc>, log: seq<Landing>) {
    && (forall p | 0 <= p < |log| :: GoodLanding(base, log[..p], log[p]))
    && (forall p, q | 0 <= p < q < |log| :: InOrder(log[p], log[q]))
  }

  ghost predicate InOrder(l: Landing, m: Landing) {
    && l.after.updateTime < m.after.updateTime
    && l.call != m.call
    && (l.who.key == m.who.key ==> l.who.gen <= m.who.gen)
  }

  /** The store refuses this request: what it was computed from is no longer what is stored. */
  ghost predicate Dead(s: VS.Store, c: Call) {
    c.phase.Sent? && (c.who.key.name == "" || Token(VS.Get(s, c.who.key.name)) != Token(c.phase.seen))
  }

  function Token(seen: Option<Doc>): Option<nat> {
    if seen.Some? then Some(seen.value.updateTime) else None
  }

  lemma DeadMeansRefused(s: VS.Store, c: Call)
    requires VS.Valid(s) && c.phase.Sent? && Seen(s, c.who.key.name, c.phase.seen)
    ensures Dead(s, c) <==> !Execute(s, c.who, c.phase.seen).1.Stored?
  {
  }

  // A document that was read is older than the stored one, or it is the stored one.
  ghost predicate Seen(s: VS.Store, name: string, seen: Option<Doc>) {
    seen.Some? ==>
      && name in s.docs && seen.value.id == name
      && seen.value.updateTime <= s.docs[name].updateTime
      && (seen.value.updateTime == s.docs[name].updateTime ==> seen.value == s.docs[name])
  }

  ghost predicate GoodCall(s: VS.Store, log: seq<Landing>, epoch: nat, c: Call) {
    && c.who.gen <= epoch
    && (!c.phase.Begun? ==> Seen(s, c.who.key.name, c.phase.seen))
    && (c.phase.Sent? && c.phase.seen.Some? ==> Request(c.who, c.phase.seen) != c.phase.seen.value)
    && (c.phase.Sent? && !Dead(s, c) ==> NoneNewer(log, c.who))
    && (c.phase.Sent? && c.answer.Nil? ==> c.who.key.name != "" && Dead(s, c))
    && (c.answer.Nil? ==> c.phase.Sent? || c.phase.Unchanged?)
    && (c.answer.Nil? && c.phase.Unchanged? ==>
          c.phase.seen.Some? && Request(c.who, c.phase.seen) == c.phase.seen.value)
  }

  // What a call fetched is what its document held when the log had `mark` landings.
  ghost predicate Marked(base: map<string, Doc>, log: seq<Landing>, c: Call) {
    !c.phase.Begun? ==> c.phase.mark <= |log| && c.phase.seen == Current(base, log[..c.phase.mark], c.who.key.name)
  }

  ghost predicate NoneNewer(log: seq<Landing>, who: Writer) {
    forall p | 0 <= p < |log| && log[p].who.key == who.key :: log[p].who.gen <= who.gen
  }

  // A landing left its call unable to land again, and is not of a future generation.
  ghost predicate Settled(w: World, l: Landing) {
    && l.call < |w.calls| && w.calls[l.call].who == l.who && Dead(w.store, w.calls[l.call])
    && l.before == w.calls[l.call].phase.seen
    && l.who.gen <= Epoch(w, l.who.key)
    && l.after.updateTime <= w.store.seqNo
  }

  ghost predicate Inv(w: World) {
    && VS.Valid(w.store)
    && GoodLog(w.base, w.log)
    && (forall name :: VS.Get(w.store, name) == Current(w.base, w.log, name))
    && (forall c | 0 <= c < |w.calls| :: GoodCall(w.store, w.log, Epoch(w, w.calls[c].who.key), w.calls[c]))
    && (forall c | 0 <= c < |w.calls| :: Marked(w.base, w.log, w.calls[c]))
    && (forall p | 0 <= p < |w.log| :: Settled(w, w.log[p]))
  }

  /* ---- Every step keeps the invariant ---- */

  lemma EpochStepInv(w: World, w': World, key: Key, gen: nat)
    requires Inv(w) && NextStep(w, w', NewEpoch(key, gen))
    ensures Inv(w')
  {
    forall c | 0 <= c < |w'.calls|
      ensures GoodCall(w'.store, w'.log, Epoch(w', w'.calls[c].who.key), w'.calls[c])
    {
      assert GoodCall(w.store, w.log, Epoch(w, w.calls[c].who.key), w.calls[c]);
      assert Epoch(w, w.calls[c].who.key) <= Epoch(w', w.calls[c].who.key);
    }
    forall p | 0 <= p < |w'.log| ensures Settled(w', w'.log[p]) {
      assert Settled(w, w.log[p]);
    }
  }

  // A step that changes at most one call, and of a call that was already sent only the answer.
  lemma CallStepInv(w: World, w': World, c: nat)
    requires Inv(w) && w' == w.(calls := w'.calls) && c < |w'.calls|
    requires |w.calls| <= |w'.calls|
    requires forall d | 0 <= d < |w'.calls| && d != c :: d < |w.calls| && w'.calls[d] == w.calls[d]
    requires c < |w.calls| && w.calls[c].phase.Sent? ==> w'.calls[c] == w.calls[c].(answer := w'.calls[c].answer)
    requires GoodCall(w'.store, w'.log, Epoch(w', w'.calls[c].who.key), w'.calls[c])
    requires Marked(w.base, w.log, w'.calls[c])
    ensures Inv(w')
  {
    forall d | 0 <= d < |w'.calls|
      ensures GoodCall(w'.store, w'.log, Epoch(w', w'.calls[d].who.key), w'.calls[d])
      ensures Marked(w'.base, w'.log, w'.calls[d])
    {
      var e := w'.calls[d];
      if d != c {
        assert GoodCall(w.store, w.log, Epoch(w, w.calls[d].who.key), w.calls[d]);
        assert Marked(w.base, w.log, w.calls[d]);
      }
    }
    forall p | 0 <= p < |w'.log| ensures Settled(w', w'.log[p]) {
      assert Settled(w, w.log[p]);
    }
  }

  lemma DecideInv(w: World, w': World, c: nat)
    requires Inv(w) && c < |w.calls| && NextStep(w, w', Decide(c))
    ensures Inv(w')
  {
    assert GoodCall(w.store, w.log, Epoch(w, w.calls[c].who.key), w.calls[c]);
    assert Marked(w.base, w.log, w.calls[c]);
    if w'.calls[c].phase.Sent? {
      forall p | 0 <= p < |w.log| && w.log[p].who.key == w.calls[c].who.key
        ensures w.log[p].who.gen <= w.calls[c].who.gen
      {
        assert Settled(w, w.log[p]);
      }
    }
    CallStepInv(w, w', c);
  }

  lemma BeginInv(w: World, w': World, key: Key, m: Mutation)
    requires Inv(w) && NextStep(w, w', Begin(key, m))
    ensures Inv(w')
  {
    CallStepInv(w, w', |w.calls|);
  }

  lemma FetchInv(w: World, w': World, c: nat)
    requires Inv(w) && NextStep(w, w', Fetch(c))
    ensures Inv(w')
  {
    assert GoodCall(w.store, w.log, Epoch(w, w.calls[c].who.key), w.calls[c]);
    assert w.log[..|w.log|] == w.log;
    CallStepInv(w, w', c);
  }

  lemma GiveUpInv(w: World, w': World, c: nat)
    requires Inv(w) && NextStep(w, w', GiveUp(c))
    ensures Inv(w')
  {
    assert GoodCall(w.store, w.log, Epoch(w, w.calls[c].who.key), w.calls[c]);
    assert Marked(w.base, w.log, w.calls[c]);
    CallStepInv(w, w', c);
  }

  lemma QuietStepInv(w: World, w': World, step: Step)
    requires Inv(w) && NextStep(w, w', step) && !step.Deliver?
    ensures Inv(w')
  {
    match step
    case NewEpoch(key, gen) => EpochStepInv(w, w', key, gen);
    case Begin(key, m) => BeginInv(w, w', key, m);
    case Fetch(c) => FetchInv(w, w', c);
    case Decide(c) => DecideInv(w, w', c);
    case GiveUp(c) => GiveUpInv(w, w', c);
  }

  // A landing kills every request that was on its way to the same document, and no other.
  lemma LandingKills(w: World, c: nat, d: Call)
    requires VS.Valid(w.store) && c < |w.calls| && w.calls[c].phase.Sent?
    requires Seen(w.store, w.calls[c].who.key.name, w.calls[c].phase.seen)
    requires !d.phase.Begun? ==> Seen(w.store, d.who.key.name, d.phase.seen)
    requires Execute(w.store, w.calls[c].who, w.calls[c].phase.seen).1.Stored?
    ensures var s' := Execute(w.store, w.calls[c].who, w.calls[c].phase.seen).0;
            && (!d.phase.Begun? ==> Seen(s', d.who.key.name, d.phase.seen))
            && (d.phase.Sent? && d.who.key.name == w.calls[c].who.key.name ==> Dead(s', d))
            && (d.who.key.name != w.calls[c].who.key.name ==> Dead(s', d) == Dead(w.store, d))
  {
  }

  // The request in hand is one the store carries out.
  ghost predicate Lands(w: World, c: nat) {
    c < |w.calls| && w.calls[c].phase.Sent? && Execute(w.store, w.calls[c].who, w.calls[c].phase.seen).1.Stored?
  }

  // What the store stored for a request is exactly one good landing on top of the log.
  lemma StoredIsGood(w: World, c: nat)
    requires Inv(w) && Lands(w, c)
    ensures var (s', reply) := Execute(w.store, w.calls[c].who, w.calls[c].phase.seen);
            var name := w.calls[c].who.key.name;
            && VS.Valid(s') && s'.seqNo == reply.doc.updateTime == w.store.seqNo + 1
            && s'.docs == w.store.docs[name := reply.doc]
            && VS.Get(w.store, name) == w.calls[c].phase.seen
            && GoodLanding(w.base, w.log, Landing(c, w.calls[c].who, VS.Get(w.store, name), reply.doc))
  {
    var who, seen := w.calls[c].who, w.calls[c].phase.seen;
    assert GoodCall(w.store, w.log, Epoch(w, who.key), w.calls[c]);
    var (s', reply) := Execute(w.store, who, seen);
    assert reply.doc.id == who.key.name && reply.doc.body == Request(who, seen).body;
    assert VS.Get(w.store, who.key.name) == seen;
  }

  lemma CurrentSnoc(base: map<string, Doc>, log: seq<Landing>, l: Landing, name: string)
    ensures Current(base, log + [l], name) == if l.who.key.name == name then Some(l.after) else Current(base, log, name)
  {
    assert (log + [l])[..|log|] == log;
  }

  // A request that can still land is of the newest generation that landed on its key.
  lemma LandingInOrder(w: World, c: nat, p: nat)
    requires Inv(w) && Lands(w, c) && p < |w.log|
    ensures w.log[p].after.updateTime <= w.store.seqNo && w.log[p].call != c
    ensures w.log[p].who.key == w.calls[c].who.key ==> w.log[p].who.gen <= w.calls[c].who.gen
  {
    assert GoodCall(w.store, w.log, Epoch(w, w.calls[c].who.key), w.calls[c]);
    assert Settled(w, w.log[p]);
  }

  lemma GoodLogSnoc(base: map<string, Doc>, log: seq<Landing>, l: Landing)
    requires GoodLog(base, log) && GoodLanding(base, log, l)
    requires forall p | 0 <= p < |log| :: InOrder(log[p], l)
    ensures GoodLog(base, log + [l])
  {
    var log' := log + [l];
    forall p | 0 <= p < |log'| ensures GoodLanding(base, log'[..p], log'[p]) {
      assert log'[..p] == log[..p];
    }
  }

  // The new landing extends the log correctly.
  lemma LandingGood(w: World, w': World, c: nat)
    requires Inv(w) && Lands(w, c) && w' == Arrive(w, c)
    ensures |w'.log| == |w.log| + 1 && w'.log[..|w.log|] == w.log
    ensures GoodLog(w'.base, w'.log)
    ensures VS.Valid(w'.store)
    ensures forall name :: VS.Get(w'.store, name) == Current(w'.base, w'.log, name)
  {
    var l := w'.log[|w.log|];
    assert w'.log == w.log + [l];
    StoredIsGood(w, c);
    forall p | 0 <= p < |w.log| ensures InOrder(w.log[p], l) {
      LandingInOrder(w, c, p);
    }
    GoodLogSnoc(w.base, w.log, l);
    forall name ensures VS.Get(w'.store, name) == Current(w'.base, w'.log, name) {
      CurrentSnoc(w.base, w.log, l, name);
    }
  }

  lemma CallAfterLanding(w: World, w': World, c: nat, d: nat)
    requires VS.Valid(w.store) && Lands(w, c) && w' == Arrive(w, c) && d < |w.calls|
    requires GoodCall(w.store, w.log, Epoch(w, w.calls[c].who.key), w.calls[c])
    requires GoodCall(w.store, w.log, Epoch(w, w.calls[d].who.key), w.calls[d])
    ensures GoodCall(w'.store, w'.log, Epoch(w', w.calls[d].who.key), w.calls[d])
  {
    LandingKills(w, c, w.calls[d]);
  }

  lemma MarkStays(base: map<string, Doc>, log: seq<Landing>, log': seq<Landing>, c: Call)
    requires Marked(base, log, c) && log <= log'
    ensures Marked(base, log', c)
  {
    if !c.phase.Begun? {
      assert log'[..c.phase.mark] == log[..c.phase.mark];
    }
  }

  lemma OldStaysSettled(w: World, w': World, c: nat, l: Landing)
    requires VS.Valid(w.store) && Lands(w, c) && w' == Arrive(w, c) && Settled(w, l)
    requires GoodCall(w.store, w.log, Epoch(w, w.calls[c].who.key), w.calls[c])
    requires GoodCall(w.store, w.log, Epoch(w, w.calls[l.call].who.key), w.calls[l.call])
    ensures Settled(w', l)
  {
    LandingKills(w, c, w.calls[l.call]);
  }

  lemma NewIsSettled(w: World, w': World, c: nat)
    requires Inv(w) && Lands(w, c) && w' == Arrive(w, c)
    ensures Settled(w', w'.log[|w.log|])
  {
    assert GoodCall(w.store, w.log, Epoch(w, w.calls[c].who.key), w.calls[c]);
    StoredIsGood(w, c);
    LandingKills(w, c, w.calls[c]);
  }

  lemma SettledAfterLanding(w: World, w': World, c: nat, p: nat)
    requires Inv(w) && Lands(w, c) && w' == Arrive(w, c) && p <= |w.log|
    ensures Settled(w', w'.log[p])
  {
    if p < |w.log| {
      assert Settled(w, w.log[p]);
      var d := w.log[p].call;
      assert GoodCall(w.store, w.log, Epoch(w, w.calls[c].who.key), w.calls[c]);
      assert GoodCall(w.store, w.log, Epoch(w, w.calls[d].who.key), w.calls[d]);
      OldStaysSettled(w, w', c, w.log[p]);
    } else {
      NewIsSettled(w, w', c);
    }
  }

  lemma ArriveInv(w: World, c: nat)
    requires Inv(w) && c < |w.calls| && w.calls[c].phase.Sent?
    ensures Inv(Arrive(w, c))
  {
    var w' := Arrive(w, c);
    if Lands(w, c) {
      LandingGood(w, w', c);
      forall d | 0 <= d < |w'.calls|
        ensures GoodCall(w'.store, w'.log, Epoch(w', w'.calls[d].who.key), w'.calls[d])
        ensures Marked(w'.base, w'.log, w'.calls[d])
      {
        assert GoodCall(w.store, w.log, Epoch(w, w.calls[c].who.key), w.calls[c]);
        assert GoodCall(w.store, w.log, Epoch(w, w.calls[d].who.key), w.calls[d]);
        CallAfterLanding(w, w', c, d);
        assert Marked(w.base, w.log, w.calls[d]);
        MarkStays(w.base, w.log, w'.log, w.calls[d]);
      }
      forall p | 0 <= p < |w'.log| ensures Settled(w', w'.log[p]) {
        SettledAfterLanding(w, w', c, p);
      }
    }
  }

  // A heard nil means the request is dead: it has landed, or it was refused.
  lemma NilMeansDead(w: World, c: nat)
    requires Inv(w) && c < |w.calls| && w.calls[c].phase.Sent? && AnswerTo(w, c).Nil?
    ensures w.calls[c].who.key.name != "" && Dead(Arrive(w, c).store, w.calls[c])
  {
    assert GoodCall(w.store, w.log, Epoch(w, w.calls[c].who.key), w.calls[c]);
    if Lands(w, c) {
      LandingKills(w, c, w.calls[c]);
    }
  }

  lemma HearInv(w: World, c: nat, a: Answer)
    requires Inv(w) && c < |w.calls| && w.calls[c].phase.Sent?
    requires a.Nil? ==> w.calls[c].who.key.name != "" && Dead(w.store, w.calls[c])
    ensures Inv(Hear(w, c, a))
  {
    assert GoodCall(w.store, w.log, Epoch(w, w.calls[c].who.key), w.calls[c]);
    assert Marked(w.base, w.log, w.calls[c]);
    CallStepInv(w, Hear(w, c, a), c);
  }

  lemma DeliverInv(w: World, w': World, c: nat, heard: bool)
    requires Inv(w) && NextStep(w, w', Deliver(c, heard))
    ensures Inv(w')
  {
    ArriveInv(w, c);
    if heard {
      if AnswerTo(w, c).Nil? { NilMeansDead(w, c); }
      HearInv(Arrive(w, c), c, AnswerTo(w, c));
    }
  }

  lemma StepInv(w: World, w': World, step: Step)
    requires Inv(w) && NextStep(w, w', step)
    ensures Inv(w')
  {
    if step.Deliver? {
      DeliverInv(w, w', step.c, step.heard);
    } else {
      QuietStepInv(w, w', step);
    }
  }

  lemma {:induction false} RunInv(ws: seq<World>, i: nat)
    requires Run(ws) && i < |ws|
    ensures Inv(ws[i])
  {
    if i > 0 {
      RunInv(ws, i - 1);
      assert StepAt(ws, i);
      var step :| NextStep(ws[i - 1], ws[i], step);
      StepInv(ws[i - 1], ws[i], step);
    }
  }

  /* ---- No lost update, and fencing ---- */

  /** No lost update: over any run of any number of writers, the landings on each document form one
      chain from what was there at the start to what is there now. Each landed value is its writer's
      mutation of exactly the version before it, no call lands twice, at most one Create lands on a
      document, and no two landed versions share a token. */
  lemma NoLostUpdate(ws: seq<World>, p: nat, q: nat)
    requires Run(ws) && p < |ws[|ws| - 1].log|
    ensures var w := ws[|ws| - 1];
            var l := w.log[p];
            var name := l.who.key.name;
            && l.before == Current(w.base, w.log[..p], name)
            && l.after.body == Mutate(l.who.mutation, SW.BodyOf(l.before))
            && (l.before.Some? ==> l.before.value.updateTime < l.after.updateTime
                                   && l.before.value.body != l.after.body)
            && VS.Get(w.store, name) == Current(w.base, w.log, name)
            && (p < q < |w.log| ==>
                  && w.log[q].call != l.call && w.log[q].after.updateTime > l.after.updateTime
                  && (w.log[q].who.key.name == name ==> w.log[q].before.Some?))
  {
    RunInv(ws, |ws| - 1);
    var w := ws[|ws| - 1];
    assert GoodLanding(w.base, w.log[..p], w.log[p]);
    if p < q < |w.log| {
      assert InOrder(w.log[p], w.log[q]);
      assert GoodLanding(w.base, w.log[..q], w.log[q]);
      LandedIsCurrent(w.base, w.log[..q], p);
    }
  }

  lemma {:induction false} LandedIsCurrent(base: map<string, Doc>, log: seq<Landing>, p: nat)
    requires p < |log|
    ensures Current(base, log, log[p].who.key.name).Some?
  {
    if log[|log| - 1].who.key.name != log[p].who.key.name {
      LandedIsCurrent(base, log[..|log| - 1], p);
    }
  }

  /** A refused delivery leaves no trace in the store. */
  lemma RefusedLeavesNoTrace(w: World, w': World, c: nat, heard: bool)
    requires Inv(w) && NextStep(w, w', Deliver(c, heard))
    ensures Dead(w.store, w.calls[c]) <==> w'.store == w.store && w'.log == w.log
    ensures !Dead(w.store, w.calls[c]) ==> |w'.log| == |w.log| + 1 && w'.log[..|w.log|] == w.log
  {
    assert GoodCall(w.store, w.log, Epoch(w, w.calls[c].who.key), w.calls[c]);
    DeadMeansRefused(w.store, w.calls[c]);
  }

  // A request as sent, whatever its caller has heard since.
  ghost predicate SameRequest(c: Call, d: Call) {
    c.phase.Sent? && d == c.(answer := d.answer)
  }

  lemma DeadStays(w: World, w': World, step: Step, c: nat)
    requires Inv(w) && NextStep(w, w', step) && c < |w.calls| && Dead(w.store, w.calls[c])
    ensures c < |w'.calls| && SameRequest(w.calls[c], w'.calls[c]) && Dead(w'.store, w'.calls[c])
  {
    if step.Deliver? && Lands(w, step.c) {
      DeadStaysAcross(w, step.c, c);
      LandingStep(w, w', step, c);
    } else {
      StillStep(w, w', step, c);
    }
  }

  lemma LandingStep(w: World, w': World, step: Step, c: nat)
    requires NextStep(w, w', step) && step.Deliver? && c < |w.calls| && w.calls[c].phase.Sent?
    ensures c < |w'.calls| && SameRequest(w.calls[c], w'.calls[c]) && w'.store == Arrive(w, step.c).store
  {
  }

  lemma StillStep(w: World, w': World, step: Step, c: nat)
    requires NextStep(w, w', step) && !(step.Deliver? && Lands(w, step.c)) && c < |w.calls| && w.calls[c].phase.Sent?
    ensures c < |w'.calls| && SameRequest(w.calls[c], w'.calls[c]) && w'.store == w.store
  {
  }

  lemma DeadStaysAcross(w: World, d: nat, c: nat)
    requires Inv(w) && Lands(w, d) && c < |w.calls| && Dead(w.store, w.calls[c])
    ensures Dead(Arrive(w, d).store, w.calls[c])
  {
    assert GoodCall(w.store, w.log, Epoch(w, w.calls[c].who.key), w.calls[c]);
    assert GoodCall(w.store, w.log, Epoch(w, w.calls[d].who.key), w.calls[d]);
    LandingKills(w, d, w.calls[c]);
  }

  /** A request that was refused or has landed is refused ever after. */
  lemma {:induction false} RefusedForever(ws: seq<World>, i: nat, j: nat, c: nat)
    requires Run(ws) && i <= j < |ws| && c < |ws[i].calls| && Dead(ws[i].store, ws[i].calls[c])
    ensures c < |ws[j].calls| && SameRequest(ws[i].calls[c], ws[j].calls[c]) && Dead(ws[j].store, ws[j].calls[c])
    decreases j - i
  {
    if i < j {
      RefusedForever(ws, i, j - 1, c);
      RunInv(ws, j - 1);
      assert StepAt(ws, j);
      var step :| NextStep(ws[j - 1], ws[j], step);
      DeadStays(ws[j - 1], ws[j], step, c);
    }
  }

  /** Fencing by generation: once a generation of a key has landed a write, no write of an earlier
      generation of that key lands, however late it arrives. */
  lemma LaterGenerationFences(ws: seq<World>, p: nat, q: nat)
    requires Run(ws) && p < q < |ws[|ws| - 1].log|
    requires ws[|ws| - 1].log[p].who.key == ws[|ws| - 1].log[q].who.key
    ensures ws[|ws| - 1].log[p].who.gen <= ws[|ws| - 1].log[q].who.gen
  {
    RunInv(ws, |ws| - 1);
    assert InOrder(ws[|ws| - 1].log[p], ws[|ws| - 1].log[q]);
  }
}
