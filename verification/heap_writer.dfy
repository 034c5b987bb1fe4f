/** UpdateStatus, and the SyncOnce of the three writing controllers, run on the heap. */
module StatusWriting {
  import opened KubeApplier
  import opened Outcomes
  import opened DesireHeap
  import opened DesireStore
  import SW = StatusWriter
  import VS = VersionedStore
  import RM = ReadDesireMirror
  import SO = SyncOncePass
  import A = ApplyDesire
  import D = DeleteDesire

  /** Other writers' requests reach the store. */
  method Interfere(crud: FakeCRUD, rivals: seq<VS.Rival>)
    requires crud.Valid()
    modifies crud
    ensures crud.Valid() && crud.Contents == VS.After(old(crud.Contents), rivals)
  {
    var i := 0;
    assert rivals[..0] == [];
    while i < |rivals|
      invariant 0 <= i <= |rivals|
      invariant crud.Valid() && crud.Contents == VS.After(old(crud.Contents), rivals[..i])
    {
      RivalLands(crud, rivals[i]);
      assert rivals[..i + 1][..i] == rivals[..i];
      i := i + 1;
    }
    assert rivals[..i] == rivals;
  }

  method RivalLands(crud: FakeCRUD, rival: VS.Rival)
    requires crud.Valid()
    modifies crud
    ensures crud.Valid() && crud.Contents == VS.Step(old(crud.Contents), rival)
  {
    var obj := NewDesire(rival.obj);
    if rival.Creating? {
      var _, _ := crud.Create(obj);
    } else {
      var _, _ := crud.Replace(obj);
    }
  }

  /** Fetch, deep-copy, mutate the copy in place, compare, write once; `rivals` reach the store after
      the fetch, and `fetch` and `write` say how the two calls to the store fare. The outcome is
      exactly that of the specification, so mutating the copy never reaches `existing`: the comparison
      would then always find them equal. */
  method UpdateStatus(crud: FakeCRUD, name: string, m: Mutation, rivals: seq<VS.Rival>, fetch: SW.Wire, write: SW.Wire)
    returns (failed: bool, attempted: bool)
    requires crud.Valid()
    modifies crud
    ensures crud.Valid()
    ensures SW.Outcome(crud.Contents, failed, attempted) ==
            SW.UpdateStatus(old(crud.Contents), VS.After(old(crud.Contents), rivals), name, m, fetch, write)
  {
    ghost var read := crud.Contents;
    var existing := FetchAmidst(crud, name, rivals);
    if fetch != SW.Answered {
      return true, false;
    }
    if existing == null {
      failed := CreateInitialStatus(crud, name, m, write);
      attempted := true;
    } else {
      failed, attempted := WriteIfChanged(crud, existing, read.docs[name], name, m, write);
    }
  }

  // The fetched object stays as it was while the store moves on.
  method FetchAmidst(crud: FakeCRUD, name: string, rivals: seq<VS.Rival>) returns (existing: Desire?)
    requires crud.Valid()
    modifies crud
    ensures crud.Valid() && crud.Contents == VS.After(old(crud.Contents), rivals)
    ensures existing == null <==> name !in old(crud.Contents.docs)
    ensures existing != null ==> existing.View() == old(crud.Contents.docs)[name]
  {
    existing := crud.Get(name);
    Interfere(crud, rivals);
  }

  method WriteIfChanged(crud: FakeCRUD, existing: Desire, ghost seen: Doc, name: string, m: Mutation, write: SW.Wire)
    returns (failed: bool, attempted: bool)
    requires crud.Valid() && existing.View() == seen
    modifies crud
    ensures crud.Valid()
    ensures SW.Outcome(crud.Contents, failed, attempted) == SW.Decide(Some(seen), old(crud.Contents), name, m, write)
  {
    var desired := DesiredFrom(existing, name, m);
    if existing.View() == desired.View() {
      return false, false;
    }
    failed := ReplaceStatus(crud, desired, write, name, m, seen);
    attempted := true;
  }

  /** Mutates a copy in place; having no modifies clause, it leaves `existing` as it was. */
  method DesiredFrom(existing: Desire, name: string, m: Mutation) returns (desired: Desire)
    ensures desired.View() == SW.Request(name, m, Some(old(existing.View())))
    ensures existing.View() == old(existing.View())
  {
    ghost var was := existing.View();
    desired := existing.DeepCopy();
    assert desired.View() == was;
    MutateInPlace(desired, name, m);
    assert existing.View() == was;
  }

  method ReplaceStatus(
    crud: FakeCRUD, desired: Desire, write: SW.Wire, ghost name: string, ghost m: Mutation, ghost seen: Doc)
    returns (failed: bool)
    requires crud.Valid() && desired.View() == SW.Request(name, m, Some(seen))
    modifies crud
    ensures crud.Valid()
    ensures SW.Outcome(crud.Contents, failed, true) == SW.Attempt(old(crud.Contents), name, m, Some(seen), write)
  {
    if write == SW.Lost {
      return true;
    }
    var _, err := crud.Replace(desired);
    failed := write == SW.AnswerLost || (err != None && err != Some(PreconditionFailed));
  }

  method InitialFrom(name: string, m: Mutation) returns (initial: Desire)
    ensures initial.View() == SW.Request(name, m, None)
  {
    initial := new Desire();
    MutateInPlace(initial, name, m);
  }

  method CreateInitialStatus(crud: FakeCRUD, name: string, m: Mutation, write: SW.Wire) returns (failed: bool)
    requires crud.Valid()
    modifies crud
    ensures crud.Valid()
    ensures SW.Outcome(crud.Contents, failed, true) == SW.Decide(None, old(crud.Contents), name, m, write)
  {
    var initial := InitialFrom(name, m);
    if write == SW.Lost {
      return true;
    }
    var _, err := crud.Create(initial);
    failed := write == SW.AnswerLost || err != None;
  }

  /** Whatever a caller does to an object it holds, one it was handed or one it passed in, the store
      reads as before. */
  method CallerMutates(crud: FakeCRUD, d: Desire, name: string, m: Mutation)
    requires crud.Valid() && d.Cells() !! crud.Repr
    modifies d, d.conditions
    ensures crud.Valid() && unchanged(crud)
    ensures d.View() == old(Mutated(d.View(), name, m))
  {
    MutateInPlace(d, name, m);
  }

  /** And so it does after any change at all to objects outside the store. */
  twostate lemma OutsideNeverShows(crud: FakeCRUD)
    requires old(crud.Valid()) && unchanged(crud) && unchanged(crud.Repr)
    ensures crud.Valid() && crud.Contents == old(crud.Contents)
    ensures forall id | id in crud.store :: crud.store[id].View() == old(crud.store[id].View())
  {
    forall id | id in crud.store ensures crud.store[id].View() == old(crud.store[id].View()) {
      assert old(Holds(crud.store[id], crud.Contents.docs[id], crud.Repr));
      assert Holds(crud.store[id], crud.Contents.docs[id], crud.Repr);
    }
  }

  /** ReadDesireKubernetesController.SyncOnce; `between` reach the store after its own fetch, `rivals`
      after UpdateStatus's. */
  method ReadSyncOnce(
    crud: FakeCRUD, name: string, rev: nat, o: RM.Observation, between: seq<VS.Rival>, rivals: seq<VS.Rival>,
    ownFetch: SW.Wire, fetch: SW.Wire, write: SW.Wire, now: nat)
    returns (failed: bool, attempted: bool)
    requires crud.Valid()
    modifies crud
    ensures crud.Valid()
    ensures var own := old(crud.Contents);
            var stops := o.NotSynced? || ownFetch != SW.Answered;
            var read := if stops then own else VS.After(own, between);
            var s := if stops then own else VS.After(read, rivals);
            SW.Outcome(crud.Contents, failed, attempted) ==
            RM.SyncOnce(own, read, s, name, rev, o, ownFetch, fetch, write, now)
  {
    if o.NotSynced? {
      return false, false;
    }
    if ownFetch != SW.Answered {
      return true, false;
    }
    var m := FetchAndChoose(crud, name, rev, o, between, now);
    failed, attempted := UpdateStatus(crud, name, m, rivals, fetch, write);
  }

  method FetchAndChoose(crud: FakeCRUD, name: string, rev: nat, o: RM.Observation, between: seq<VS.Rival>, now: nat)
    returns (m: Mutation)
    requires crud.Valid() && !o.NotSynced?
    modifies crud
    ensures crud.Valid() && crud.Contents == VS.After(old(crud.Contents), between)
    ensures m == RM.Chosen(o, RM.ShownBy(VS.Get(old(crud.Contents), name)), rev, now)
  {
    var desire := crud.Get(name);
    m := Choose(desire, rev, o, now);
    Interfere(crud, between);
  }

  // The closure SyncOnce passes on, from the object it fetched itself.
  method Choose(desire: Desire?, rev: nat, o: RM.Observation, now: nat) returns (m: Mutation)
    requires !o.NotSynced?
    ensures m == RM.Chosen(o, if desire == null then [] else RM.Bytes(desire.View().body.statusKubeContent), rev, now)
  {
    match o {
      case CacheError(err) => return ReadFailed(rev, Wrapped("read cache", err), now);
      case UnexpectedType(note) => return ReadFailed(rev, PreCheckError(PlainError(note)), now);
      case MarshalError(err) => return ReadFailed(rev, Wrapped("marshal observed object", err), now);
      case _ =>
    }
    var newRaw := RM.NewRaw(o);
    var existingRaw := ExistingRaw(desire);
    m := if RM.Bytes(newRaw) == existingRaw then ReadKept(rev, now) else ReadStored(rev, newRaw, now);
  }

  method ExistingRaw(desire: Desire?) returns (raw: seq<byte>)
    ensures raw == if desire == null then [] else RM.Bytes(desire.View().body.statusKubeContent)
  {
    raw := [];
    if desire != null && desire.statusKubeContent != null {
      raw := desire.statusKubeContent.Bytes();
    }
  }

  /** ApplyDesireController.SyncOnce; a spec document is fetched under its own id. */
  method ApplySyncOnce(
    crud: FakeCRUD, spec: SO.SpecAnswer, undecodable: Option<Error>, answer: A.ApplyAnswer, rivals: seq<VS.Rival>,
    fetch: SW.Wire, write: SW.Wire, now: nat)
    returns (failed: bool, attempted: bool)
    requires crud.Valid()
    modifies crud
    ensures crud.Valid()
    ensures var read := old(crud.Contents);
            var s := if spec.Fetched? then VS.After(read, rivals) else read;
            SW.Outcome(crud.Contents, failed, attempted) ==
            SO.ApplySync(read, s, spec, undecodable, answer, fetch, write, now)
  {
    if spec.Unreadable? {
      return true, false;
    }
    if spec.NoSpec? {
      return false, false;
    }
    var desire := spec.doc;
    var target, content := desire.body.spec.target, desire.body.specKubeContent;
    var (appliedGen, syncErr) := A.ApplyDesired(target, content, undecodable, answer);
    var statusFailed;
    statusFailed, attempted :=
      UpdateStatus(crud, desire.id, ApplyOutcome(desire.updateTime, appliedGen, syncErr, now), rivals, fetch, write);
    failed := syncErr.Some? || statusFailed;
  }

  /** DeleteDesireController.SyncOnce. */
  method DeleteSyncOnce(
    crud: FakeCRUD, spec: SO.SpecAnswer, answers: D.Answers, rivals: seq<VS.Rival>,
    fetch: SW.Wire, write: SW.Wire, now: nat)
    returns (failed: bool, attempted: bool)
    requires crud.Valid()
    modifies crud
    ensures crud.Valid()
    ensures var read := old(crud.Contents);
            var s := if spec.Fetched? then VS.After(read, rivals) else read;
            SW.Outcome(crud.Contents, failed, attempted) ==
            SO.DeleteSync(read, s, spec, answers, fetch, write, now)
  {
    if spec.Unreadable? {
      return true, false;
    }
    if spec.NoSpec? {
      return false, false;
    }
    var desire := spec.doc;
    var verdict := D.Evaluate(desire.body.spec.target, answers);
    var statusFailed;
    statusFailed, attempted :=
      UpdateStatus(crud, desire.id, DeleteOutcome(desire.updateTime, verdict, now), rivals, fetch, write);
    failed := verdict.Failed? || statusFailed;
  }
}
