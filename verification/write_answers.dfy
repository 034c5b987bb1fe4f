/** What the caller of UpdateStatus learns from its return value, in any interleaving with other
    writers, late deliveries and repeated deliveries. */
module StatusWriteAnswers {
  import opened KubeApplier
  import opened Outcomes
  import opened StatusWriteProtocol
  import SW = StatusWriter
  import VS = VersionedStore

  /** The document is this call's own landing, or still the version it found in need of no write. */
  ghost predicate Holds(w: World, c: nat)
    requires c < |w.calls|
  {
    var name, phase := w.calls[c].who.key.name, w.calls[c].phase;
    if phase.Sent? then
      exists p :: 0 <= p < |w.log| && w.log[p].call == c && VS.Get(w.store, name) == Some(w.log[p].after)
    else phase.Unchanged? && VS.Get(w.store, name) == phase.seen
  }

  /** No other call has landed on the document since this one fetched it. */
  ghost predicate NoOtherSince(w: World, c: nat)
    requires c < |w.calls| && !w.calls[c].phase.Begun?
  {
    forall p | w.calls[c].phase.mark <= p < |w.log| && w.log[p].who.key.name == w.calls[c].who.key.name ::
      w.log[p].call == c
  }

  ghost predicate Touched(log: seq<Landing>, i: nat, j: nat, name: string)
    requires j <= |log|
  {
    exists p :: i <= p < j && log[p].who.key.name == name
  }

  lemma TouchedNext(log: seq<Landing>, i: nat, j: nat, name: string)
    requires i <= j < |log|
    ensures Touched(log, i, j + 1, name) <==> Touched(log, i, j, name) || log[j].who.key.name == name
  {
  }

  ghost predicate GoodAt(base: map<string, Doc>, log: seq<Landing>, p: nat)
    requires p < |log|
  {
    GoodLanding(base, log[..p], log[p])
  }

  // What one more landing makes of a document.
  lemma CurrentNext(base: map<string, Doc>, log: seq<Landing>, j: nat, name: string)
    requires j < |log| && GoodAt(base, log, j)
    ensures var a, b := Current(base, log[..j], name), Current(base, log[..j + 1], name);
            if log[j].who.key.name == name
            then b.Some? && (a.Some? ==> a.value.updateTime < b.value.updateTime)
            else b == a
  {
    assert log[..j + 1][..j] == log[..j] && log[..j + 1][j] == log[j];
  }

  // What a stretch of the log makes of a document: nothing, or a newer version.
  ghost predicate Evolves(a: Option<Doc>, b: Option<Doc>, touched: bool) {
    if touched then b.Some? && (a.Some? ==> a.value.updateTime < b.value.updateTime) else b == a
  }

  // Between two points a document's token never falls, and rises at every landing.
  lemma {:induction false} TokensRise(vs: seq<Option<Doc>>, log: seq<Landing>, i: nat, j: nat, name: string)
    requires |vs| == |log| + 1 && i <= j <= |log|
    requires forall p | i <= p < j :: Evolves(vs[p], vs[p + 1], log[p].who.key.name == name)
    ensures Evolves(vs[i], vs[j], Touched(log, i, j, name))
    decreases j
  {
    if i < j {
      TokensRise(vs, log, i, j - 1, name);
      TouchedNext(log, i, j - 1, name);
    }
  }

  // The versions of a document along a log.
  ghost function Versions(base: map<string, Doc>, log: seq<Landing>, name: string): (vs: seq<Option<Doc>>)
    ensures |vs| == |log| + 1
  {
    seq(|log| + 1, p requires 0 <= p <= |log| => Current(base, log[..p], name))
  }

  lemma VersionsEvolve(w: World, p: nat, name: string)
    requires Inv(w) && p < |w.log|
    ensures var vs := Versions(w.base, w.log, name); Evolves(vs[p], vs[p + 1], w.log[p].who.key.name == name)
  {
    assert GoodAt(w.base, w.log, p);
    CurrentNext(w.base, w.log, p, name);
  }

  lemma LastVersion(w: World, name: string)
    requires Inv(w)
    ensures Current(w.base, w.log[..|w.log|], name) == VS.Get(w.store, name)
  {
    assert w.log[..|w.log|] == w.log;
  }

  // The same of a world's log, whose end is what the store holds.
  lemma Rises(w: World, i: nat, j: nat, name: string)
    requires Inv(w) && i <= j <= |w.log|
    ensures Evolves(Current(w.base, w.log[..i], name), Current(w.base, w.log[..j], name), Touched(w.log, i, j, name))
    ensures j == |w.log| ==> Current(w.base, w.log[..j], name) == VS.Get(w.store, name)
  {
    var vs := Versions(w.base, w.log, name);
    forall p | i <= p < j ensures Evolves(vs[p], vs[p + 1], w.log[p].who.key.name == name) {
      VersionsEvolve(w, p, name);
    }
    TokensRise(vs, w.log, i, j, name);
    assert vs[i] == Current(w.base, w.log[..i], name) && vs[j] == Current(w.base, w.log[..j], name);
    LastVersion(w, name);
  }

  lemma RightAfter(w: World, p: nat)
    requires p < |w.log|
    ensures Current(w.base, w.log[..p + 1], w.log[p].who.key.name) == Some(w.log[p].after)
  {
    CurrentSnoc(w.base, w.log[..p], w.log[p], w.log[p].who.key.name);
    assert w.log[..p] + [w.log[p]] == w.log[..p + 1];
  }

  // Before a landing of a call, nothing else has landed on the document since its fetch.
  lemma NoneBeforeOwn(w: World, p: nat, q: nat)
    requires Inv(w) && p < |w.log| && w.log[p].call < |w.calls|
    requires var c := w.calls[w.log[p].call]; c.phase.Sent? && c.phase.mark <= q < p
    ensures w.log[q].who.key.name != w.log[p].who.key.name
  {
    var c := w.calls[w.log[p].call];
    assert Settled(w, w.log[p]) && GoodLanding(w.base, w.log[..p], w.log[p]) && Marked(w.base, w.log, c);
    Rises(w, c.phase.mark, p, c.who.key.name);
  }

  // A landing of call c that is still current was followed by nothing.
  lemma NoneAfterCurrent(w: World, p: nat, q: nat)
    requires Inv(w) && p < q < |w.log| && w.log[q].who.key.name == w.log[p].who.key.name
    ensures VS.Get(w.store, w.log[p].who.key.name) != Some(w.log[p].after)
  {
    var name := w.log[p].who.key.name;
    RightAfter(w, p);
    Rises(w, p + 1, |w.log|, name);
    assert Touched(w.log, p + 1, |w.log|, name);
  }

  lemma HoldsMeansAlone(w: World, c: nat)
    requires Inv(w) && c < |w.calls| && w.calls[c].answer.Nil? && Holds(w, c)
    ensures NoOtherSince(w, c)
  {
    var call := w.calls[c];
    var name := call.who.key.name;
    assert GoodCall(w.store, w.log, Epoch(w, call.who.key), call) && Marked(w.base, w.log, call);
    forall q | call.phase.mark <= q < |w.log| && w.log[q].who.key.name == name ensures w.log[q].call == c {
      if call.phase.Sent? {
        var p :| 0 <= p < |w.log| && w.log[p].call == c && VS.Get(w.store, name) == Some(w.log[p].after);
        assert Settled(w, w.log[p]);
        if q < p { NoneBeforeOwn(w, p, q); }
        if q > p { NoneAfterCurrent(w, p, q); }
      } else {
        Rises(w, call.phase.mark, |w.log|, name);
        assert Touched(w.log, call.phase.mark, |w.log|, name);
      }
    }
  }

  // A dead request to which nothing else happened has landed.
  lemma AloneMeansLanded(w: World, c: nat) returns (p: nat)
    requires Inv(w) && c < |w.calls| && w.calls[c].phase.Sent? && w.calls[c].answer.Nil? && NoOtherSince(w, c)
    ensures w.calls[c].phase.mark <= p < |w.log| && w.log[p].call == c && w.log[p].who == w.calls[c].who
  {
    var call := w.calls[c];
    assert GoodCall(w.store, w.log, Epoch(w, call.who.key), call) && Marked(w.base, w.log, call);
    Rises(w, call.phase.mark, |w.log|, call.who.key.name);
    assert Touched(w.log, call.phase.mark, |w.log|, call.who.key.name);
    p :| call.phase.mark <= p < |w.log| && w.log[p].who.key.name == call.who.key.name;
    assert Settled(w, w.log[p]);
  }

  lemma LandedStands(w: World, c: nat, p: nat)
    requires Inv(w) && c < |w.calls| && w.calls[c].phase.Sent? && NoOtherSince(w, c)
    requires w.calls[c].phase.mark <= p < |w.log| && w.log[p].call == c && w.log[p].who == w.calls[c].who
    ensures VS.Get(w.store, w.calls[c].who.key.name) == Some(w.log[p].after)
  {
    forall q | p < q < |w.log| ensures w.log[q].who.key.name != w.calls[c].who.key.name {
      assert InOrder(w.log[p], w.log[q]);
    }
    RightAfter(w, p);
    Rises(w, p + 1, |w.log|, w.calls[c].who.key.name);
  }

  lemma AloneMeansHolds(w: World, c: nat)
    requires Inv(w) && c < |w.calls| && w.calls[c].answer.Nil? && !w.calls[c].phase.Begun? && NoOtherSince(w, c)
    ensures Holds(w, c)
  {
    var call := w.calls[c];
    assert GoodCall(w.store, w.log, Epoch(w, call.who.key), call) && Marked(w.base, w.log, call);
    if call.phase.Sent? {
      var p := AloneMeansLanded(w, c);
      LandedStands(w, c, p);
    } else {
      NothingOfOurs(w, c);
      Rises(w, call.phase.mark, |w.log|, call.who.key.name);
    }
  }

  lemma NothingOfOurs(w: World, c: nat)
    requires Inv(w) && c < |w.calls| && w.calls[c].phase.Unchanged?
    ensures forall p | 0 <= p < |w.log| :: w.log[p].call != c
  {
    forall p | 0 <= p < |w.log| ensures w.log[p].call != c {
      assert Settled(w, w.log[p]);
    }
  }

  // A document that holds a call's outcome reads as that call's mutation of what it fetched.
  lemma HoldsReads(w: World, c: nat)
    requires Inv(w) && c < |w.calls| && w.calls[c].answer.Nil? && Holds(w, c)
    ensures var call := w.calls[c];
            var now := VS.Get(w.store, call.who.key.name);
            now.Some? && now.value.body == Mutate(call.who.mutation, SW.BodyOf(call.phase.seen))
  {
    var call := w.calls[c];
    assert GoodCall(w.store, w.log, Epoch(w, call.who.key), call);
    if call.phase.Sent? {
      var p :| 0 <= p < |w.log| && w.log[p].call == c && VS.Get(w.store, call.who.key.name) == Some(w.log[p].after);
      assert Settled(w, w.log[p]) && GoodLanding(w.base, w.log[..p], w.log[p]);
    } else {
      assert Request(call.who, call.phase.seen).body == Mutate(call.who.mutation, SW.BodyOf(call.phase.seen));
    }
  }

  /** What nil means. At any point of any run, for any call that has returned nil: the document holds
      that call's outcome, and reads as its mutation of what it fetched, if and only if no other
      call's write has landed on the document since the fetch. */
  lemma NilHoldsIff(ws: seq<World>, n: nat, c: nat)
    requires Run(ws) && n < |ws| && c < |ws[n].calls| && ws[n].calls[c].answer.Nil?
    ensures !ws[n].calls[c].phase.Begun?
    ensures Holds(ws[n], c) <==> NoOtherSince(ws[n], c)
    ensures Holds(ws[n], c) ==>
              var call := ws[n].calls[c];
              var now := VS.Get(ws[n].store, call.who.key.name);
              now.Some? && now.value.body == Mutate(call.who.mutation, SW.BodyOf(call.phase.seen))
  {
    RunInv(ws, n);
    NilHoldsAt(ws[n], c);
  }

  lemma NilHoldsAt(w: World, c: nat)
    requires Inv(w) && c < |w.calls| && w.calls[c].answer.Nil?
    ensures !w.calls[c].phase.Begun?
    ensures Holds(w, c) <==> NoOtherSince(w, c)
    ensures Holds(w, c) ==>
              var call := w.calls[c];
              var now := VS.Get(w.store, call.who.key.name);
              now.Some? && now.value.body == Mutate(call.who.mutation, SW.BodyOf(call.phase.seen))
  {
    assert GoodCall(w.store, w.log, Epoch(w, w.calls[c].who.key), w.calls[c]);
    if Holds(w, c) {
      HoldsMeansAlone(w, c);
      HoldsReads(w, c);
    } else if NoOtherSince(w, c) {
      AloneMeansHolds(w, c);
    }
  }

  /** Every call is an UpdateStatus of the specification, whatever came between: with the store as it
      was at the fetch and the store the delivery reaches, it leaves that store and returns that error. */
  lemma HeardDelivery(w: World, w': World, c: nat, read: VS.Store)
    requires NextStep(w, w', Deliver(c, true)) && c < |w.calls|
    requires VS.Get(read, w.calls[c].who.key.name) == w.calls[c].phase.seen
    requires var who, seen := w.calls[c].who, w.calls[c].phase.seen;
             seen.Some? ==> Request(who, seen) != seen.value
    ensures var who := w.calls[c].who;
            var o := SW.UpdateStatus(read, w.store, who.key.name, who.mutation, SW.Answered, SW.Answered);
            && o.attempted && w'.store == o.store && c < |w'.calls|
            && w'.calls[c].answer == if o.failed then Errored else Nil
  {
  }

  lemma QuietDecision(w: World, w': World, c: nat, read: VS.Store, s: VS.Store)
    requires NextStep(w, w', Decide(c)) && c < |w.calls| && IsNoop(w.calls[c])
    requires VS.Get(read, w.calls[c].who.key.name) == w.calls[c].phase.seen
    ensures var who := w.calls[c].who;
            var o := SW.UpdateStatus(read, s, who.key.name, who.mutation, SW.Answered, SW.Answered);
            o == SW.Outcome(s, false, false) && c < |w'.calls| && w'.calls[c].answer.Nil? && w'.store == w.store
  {
  }

  /** Every answer is one UpdateStatus of the specification could give: whenever a call is answered, in
      any interleaving, there is a way its fetch and its write can fare with which UpdateStatus, on the
      store as fetched and the store of that moment, leaves the same store and returns the same error. */
  lemma EveryAnswerIsUpdateStatus(w: World, w': World, step: Step, c: nat, read: VS.Store)
    returns (fetch: SW.Wire, write: SW.Wire)
    requires Inv(w) && NextStep(w, w', step) && c < |w.calls| && c < |w'.calls|
    requires w.calls[c].answer.Pending? && !w'.calls[c].answer.Pending?
    requires !w.calls[c].phase.Begun? ==> VS.Get(read, w.calls[c].who.key.name) == w.calls[c].phase.seen
    ensures var who := w.calls[c].who;
            var o := SW.UpdateStatus(read, w.store, who.key.name, who.mutation, fetch, write);
            w'.store == o.store && w'.calls[c].answer == if o.failed then Errored else Nil
  {
    AnswerSteps(w, w', step, c);
    assert GoodCall(w.store, w.log, Epoch(w, w.calls[c].who.key), w.calls[c]);
    fetch, write := SW.Answered, SW.Answered;
    if step.Deliver? {
      HeardDelivery(w, w', c, read);
    } else if step.Decide? {
      QuietDecision(w, w', c, read, w.store);
    } else if w.calls[c].phase.Sent? {
      write := SW.Lost;
    } else {
      fetch := SW.Lost;
    }
  }

  /** A call errs exactly when it gives up, or hears that its Create was refused: it had found no
      document, and it has no name or the document exists when the Create arrives. A refused Replace is
      nil. */
  lemma ErrsIff(w: World, w': World, step: Step, c: nat)
    requires Inv(w) && NextStep(w, w', step) && c < |w.calls| && c < |w'.calls|
    requires w.calls[c].answer.Pending? && !w'.calls[c].answer.Pending?
    ensures w'.calls[c].answer.Errored? <==>
            || step == GiveUp(c)
            || (step == Deliver(c, true) && w.calls[c].phase.seen.None?
                && (w.calls[c].who.key.name == "" || w.calls[c].who.key.name in w.store.docs))
  {
    AnswerSteps(w, w', step, c);
    assert GoodCall(w.store, w.log, Epoch(w, w.calls[c].who.key), w.calls[c]);
  }

  // Which steps answer a call.
  lemma AnswerSteps(w: World, w': World, step: Step, c: nat)
    requires NextStep(w, w', step) && c < |w.calls| && c < |w'.calls|
    requires w.calls[c].answer.Pending? && !w'.calls[c].answer.Pending?
    ensures step == Deliver(c, true) || step == GiveUp(c)
            || (step == Decide(c) && w.calls[c].phase.Fetched? && IsNoop(w.calls[c]))
    ensures step.GiveUp? ==> w'.store == w.store && w'.calls[c].answer == Errored
  {
  }

  // Begin, Fetch and Decide with nothing in between.
  lemma DecidedCall(w: World, key: Key, m: Mutation) returns (w1: World, w2: World, w3: World)
    ensures Next(w, w1) && Next(w1, w2) && Next(w2, w3)
    ensures var fetched := Call(Writer(key, Epoch(w, key), m), Fetched(VS.Get(w.store, key.name), |w.log|), Pending);
            w3 == w.(calls := w.calls + [Decided(fetched)])
  {
    var c, who := |w.calls|, Writer(key, Epoch(w, key), m);
    var fetched := Call(who, Fetched(VS.Get(w.store, key.name), |w.log|), Pending);
    w1 := w.(calls := w.calls + [Call(who, Begun, Pending)]);
    assert NextStep(w, w1, Begin(key, m));
    w2 := w.(calls := w.calls + [fetched]);
    assert w1.calls[c := fetched] == w2.calls;
    assert NextStep(w1, w2, Fetch(c));
    w3 := w.(calls := w.calls + [Decided(fetched)]);
    assert w2.calls[c := Decided(fetched)] == w3.calls;
    assert NextStep(w2, w3, Decide(c));
  }

  /** A call that nothing interrupts leaves the store, and returns the error, of UpdateStatus on that
      one store. */
  lemma UninterruptedCall(w: World, key: Key, m: Mutation) returns (w1: World, w2: World, w3: World, w4: World)
    ensures Next(w, w1) && Next(w1, w2) && Next(w2, w3) && (w4 == w3 || Next(w3, w4))
    ensures var o := SW.UpdateStatus(w.store, w.store, key.name, m, SW.Answered, SW.Answered);
            && w4.store == o.store && |w4.calls| == |w.calls| + 1
            && w4.calls[|w.calls|].answer == if o.failed then Errored else Nil
  {
    w1, w2, w3 := DecidedCall(w, key, m);
    w4 := w3;
    var c := |w.calls|;
    if w3.calls[c].phase.Sent? {
      w4 := Hear(Arrive(w3, c), c, AnswerTo(w3, c));
      assert NextStep(w3, w4, Deliver(c, true));
      HeardDelivery(w3, w4, c, w.store);
    }
  }

  lemma Extend(ws: seq<World>, w': World, step: Step)
    requires Run(ws) && NextStep(ws[|ws| - 1], w', step)
    ensures Run(ws + [w'])
  {
    var ws' := ws + [w'];
    forall i | 0 < i < |ws'| ensures StepAt(ws', i) {
      if i < |ws| { assert StepAt(ws, i); }
    }
  }

  // A call begins, fetches and sends.
  lemma Sending(ws: seq<World>, key: Key, m: Mutation) returns (longer: seq<World>)
    requires Run(ws) && ws[|ws| - 1].store.docs.Keys == {key.name}
    requires Mutate(m, ws[|ws| - 1].store.docs[key.name].body) != ws[|ws| - 1].store.docs[key.name].body
    ensures var w := ws[|ws| - 1];
            && Run(longer) && longer[0] == ws[0]
            && var sent := Call(Writer(key, Epoch(w, key), m), Sent(VS.Get(w.store, key.name), |w.log|), Pending);
               longer[|longer| - 1] == w.(calls := w.calls + [sent])
  {
    var w, c := ws[|ws| - 1], |ws[|ws| - 1].calls|;
    var who, seen := Writer(key, Epoch(w, key), m), VS.Get(w.store, key.name);
    var w1 := w.(calls := w.calls + [Call(who, Begun, Pending)]);
    Extend(ws, w1, Begin(key, m));
    var w2 := w.(calls := w.calls + [Call(who, Fetched(seen, |w.log|), Pending)]);
    assert w1.calls[c := Call(who, Fetched(seen, |w.log|), Pending)] == w2.calls;
    Extend(ws + [w1], w2, Fetch(c));
    var w3 := w.(calls := w.calls + [Call(who, Sent(seen, |w.log|), Pending)]);
    assert w2.calls[c := Call(who, Sent(seen, |w.log|), Pending)] == w3.calls;
    assert Request(who, seen).body == Mutate(m, seen.value.body);
    Extend(ws + [w1] + [w2], w3, Decide(c));
    longer := ws + [w1] + [w2] + [w3];
  }

  // Two requests made from the same version: the first to arrive lands, the second is refused.
  lemma Overtaken(w: World, key: Key, older: Mutation, newer: Mutation, seen: Doc)
    requires VS.Valid(w.store) && VS.Get(w.store, key.name) == Some(seen) && w.log == []
    requires w.calls ==
             [Call(Writer(key, 0, older), Sent(Some(seen), 0), Pending),
              Call(Writer(key, 1, newer), Sent(Some(seen), 0), Pending)]
    ensures var w1 := Arrive(w, 0);
            && AnswerTo(w1, 1).Nil? && Arrive(w1, 1) == w1
            && key.name in w1.store.docs && w1.store.docs[key.name].body == Mutate(older, seen.body)
            && |w1.log| == 1 && w1.log[0].call == 0
  {
    assert Request(Writer(key, 0, older), Some(seen)).body == Mutate(older, seen.body);
  }

  /** The other case is real: an older generation times out, its write arrives after the fetch of the
      next one, and the next one returns nil although the document holds the older outcome. */
  lemma NilCanHoldNothing(w0: World, key: Key, older: Mutation, newer: Mutation) returns (ws: seq<World>)
    requires Init(w0) && w0.store.docs.Keys == {key.name}
    requires var b := w0.store.docs[key.name].body; Mutate(older, b) != b && Mutate(newer, b) != b
    ensures Run(ws) && ws[0] == w0
    ensures var w := ws[|ws| - 1];
            && |w.calls| == 2 && w.calls[1].who == Writer(key, 1, newer) && w.calls[1].answer.Nil? && !Holds(w, 1)
            && key.name in w.store.docs && w.store.docs[key.name].body == Mutate(older, w0.store.docs[key.name].body)
  {
    var seen := w0.store.docs[key.name];
    ws := Sending([w0], key, older);
    var w1 := ws[|ws| - 1];
    var w2 := w1.(epoch := w1.epoch[key := 1]);
    Extend(ws, w2, NewEpoch(key, 1));
    ws := Sending(ws + [w2], key, newer);
    var w3 := ws[|ws| - 1];
    Overtaken(w3, key, older, newer, seen);
    var w4 := Arrive(w3, 0);
    Extend(ws, w4, Deliver(0, false));
    var w5 := Hear(w4, 1, Nil);
    Extend(ws + [w4], w5, Deliver(1, true));
    ws := ws + [w4] + [w5];
  }
}
