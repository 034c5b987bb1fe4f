/** One UpdateStatus call (pkg/controllers/desirestatuswriter): fetch, mutate a copy, compare, then
    Replace or Create once. Other writers may change the store between the fetch and the write. */
module StatusWriter {
  import opened KubeApplier
  import opened Outcomes
  import VS = VersionedStore

  function BodyOf(seen: Option<Doc>): Body {
    if seen.Some? then seen.value.body else ZeroBody
  }

  /** The object sent: a mutated copy of what was read, or of a zero desire. */
  function Request(name: string, m: Mutation, seen: Option<Doc>): Doc {
    (if seen.Some? then seen.value else ZeroDoc).(id := name, body := Mutate(m, BodyOf(seen)))
  }

  function Execute(s: VS.Store, name: string, m: Mutation, seen: Option<Doc>): (VS.Store, VS.Reply) {
    if seen.Some? then VS.Replace(s, Request(name, m, seen)) else VS.Create(s, Request(name, m, seen))
  }

  /** A call to the store: answered; lost on the way there; or carried out with its answer lost. */
  datatype Wire = Answered | Lost | AnswerLost

  datatype Outcome = Outcome(store: VS.Store, failed: bool, attempted: bool)

  /** `read` is the store at the fetch, `s` the store the write reaches. */
  function UpdateStatus(read: VS.Store, s: VS.Store, name: string, m: Mutation, fetch: Wire, write: Wire): Outcome {
    if !fetch.Answered? then Outcome(s, true, false)
    else
      Decide(VS.Get(read, name), s, name, m, write)
  }

  /** From what was fetched on: compare, and write if there is something to write. */
  function Decide(seen: Option<Doc>, s: VS.Store, name: string, m: Mutation, write: Wire): Outcome {
    if seen.Some? && Request(name, m, seen) == seen.value then Outcome(s, false, false)
    else Attempt(s, name, m, seen, write)
  }

  /** The one write; a failed precondition is swallowed. */
  function Attempt(s: VS.Store, name: string, m: Mutation, seen: Option<Doc>, write: Wire): Outcome {
    var (s', reply) := Execute(s, name, m, seen);
    match write
    case Lost => Outcome(s, true, true)
    case AnswerLost => Outcome(s', true, true)
    case Answered => Outcome(s', !reply.Stored? && !reply.PreconditionFailed?, true)
  }

  /** Nothing landed on the document between the fetch and the write. */
  predicate Undisturbed(read: VS.Store, s: VS.Store, name: string) {
    VS.Get(read, name) == VS.Get(s, name)
  }

  /** The document is left as this call wrote it, or as this call found it in need of no write. */
  predicate Recorded(read: VS.Store, s: VS.Store, name: string, o: Outcome) {
    if o.attempted then o.store != s else VS.Get(o.store, name) == VS.Get(read, name)
  }

  // The store carries out a request exactly when the document is as it was read.
  lemma ExecuteStores(read: VS.Store, s: VS.Store, name: string, m: Mutation)
    requires VS.Later(read, s, name)
    ensures var seen := VS.Get(read, name);
            var (s', reply) := Execute(s, name, m, seen);
            && VS.Valid(s') && (reply.Stored? <==> Undisturbed(read, s, name) && name != "")
            && (if reply.Stored? then
                  s'.docs == s.docs[name := reply.doc] && s'.seqNo == s.seqNo + 1
                  && reply.doc.body == Mutate(m, BodyOf(seen))
                else s' == s)
  {
  }

  /** What nil means: the mutation is recorded if and only if nothing landed on the document between
      the fetch and the write. Otherwise the write was refused, which is swallowed, or none was
      needed by then outdated data; either way the call leaves no trace. */
  lemma NilIsRecordedIff(read: VS.Store, s: VS.Store, name: string, m: Mutation, fetch: Wire, write: Wire)
    requires VS.Later(read, s, name)
    requires !UpdateStatus(read, s, name, m, fetch, write).failed
    ensures var o := UpdateStatus(read, s, name, m, fetch, write);
            && (Recorded(read, s, name, o) <==> Undisturbed(read, s, name))
            && (if Undisturbed(read, s, name)
                then name in o.store.docs && o.store.docs[name].body == Mutate(m, BodyOf(VS.Get(read, name)))
                else o.store == s)
  {
    ExecuteStores(read, s, name, m);
    var seen := VS.Get(read, name);
    assert Request(name, m, seen).body == Mutate(m, BodyOf(seen));
  }

  /** No call touches another document, and the store stays a store. */
  lemma OthersUntouched(read: VS.Store, s: VS.Store, name: string, m: Mutation, fetch: Wire, write: Wire, other: string)
    requires VS.Later(read, s, name)
    ensures var o := UpdateStatus(read, s, name, m, fetch, write);
            VS.Valid(o.store) && (other != name ==> VS.Get(o.store, other) == VS.Get(s, other))
  {
    ExecuteStores(read, s, name, m);
  }

  /** The failing family has members: a rival write between fetch and Replace makes a call return nil
      that has recorded nothing. */
  lemma NilWithoutRecord(read: VS.Store, name: string, m: Mutation) returns (rival: VS.Rival)
    requires VS.Valid(read) && name in read.docs && Mutate(m, read.docs[name].body) != read.docs[name].body
    ensures var s := VS.After(read, [rival]);
            var o := UpdateStatus(read, s, name, m, Answered, Answered);
            && rival == VS.Replacing(read.docs[name])
            && !o.failed && o.attempted && o.store == s && !Recorded(read, s, name, o)
  {
    rival := VS.Replacing(read.docs[name]);
    assert [rival][..0] == [];
    assert VS.After(read, [rival]) == VS.Step(read, rival);
  }

  /** A call attempts a write on an existing document exactly when mutate changes what was fetched,
      and a store that changed was written to. */
  lemma WriteDecision(read: VS.Store, s: VS.Store, name: string, m: Mutation, fetch: Wire, write: Wire)
    requires VS.Later(read, s, name)
    ensures var o := UpdateStatus(read, s, name, m, fetch, write);
            && (fetch.Answered? && name in read.docs ==>
                  (o.attempted <==> Mutate(m, read.docs[name].body) != read.docs[name].body))
            && (fetch.Answered? && name !in read.docs ==> o.attempted)
            && (o.store != s ==> o.attempted && Undisturbed(read, s, name))
  {
    ExecuteStores(read, s, name, m);
  }

  /** There is something to write: no document yet, or mutate changes it. */
  predicate Needed(read: VS.Store, name: string, m: Mutation) {
    name !in read.docs || Mutate(m, read.docs[name].body) != read.docs[name].body
  }

  /** What makes UpdateStatus return an error, said over the stores and the two calls alone: the fetch was
      not answered; or a write was needed and was not answered, or was a Create with no name or of a
      document that had come to exist. */
  predicate MustFail(read: VS.Store, s: VS.Store, name: string, m: Mutation, fetch: Wire, write: Wire) {
    || !fetch.Answered?
    || (Needed(read, name, m) && (!write.Answered? || (name !in read.docs && (name == "" || name in s.docs))))
  }

  /** UpdateStatus fails exactly then: a refused Replace is the one failure it swallows. */
  lemma FailsIff(read: VS.Store, s: VS.Store, name: string, m: Mutation, fetch: Wire, write: Wire)
    requires VS.Later(read, s, name)
    ensures UpdateStatus(read, s, name, m, fetch, write).failed <==> MustFail(read, s, name, m, fetch, write)
  {
    ExecuteStores(read, s, name, m);
  }

  /** What a failing call leaves: a write that got lost leaves the store alone, one whose answer got lost
      leaves what it would have left had it been heard; with no fetch nothing is attempted. */
  lemma LostCalls(read: VS.Store, s: VS.Store, name: string, m: Mutation, fetch: Wire, write: Wire)
    requires VS.Later(read, s, name)
    ensures var o := UpdateStatus(read, s, name, m, fetch, write);
            && (!fetch.Answered? ==> o == Outcome(s, true, false))
            && (fetch.Answered? && write.Lost? ==> o.store == s)
            && (fetch.Answered? && write.AnswerLost?
                ==> o.store == UpdateStatus(read, s, name, m, Answered, Answered).store)
            && (fetch.Answered? && Needed(read, name, m) && !write.Lost? && Undisturbed(read, s, name) && name != "" ==>
                  name in o.store.docs && o.store.docs[name].body == Mutate(m, BodyOf(VS.Get(read, name))))
            && (fetch.Answered? ==> (o.attempted <==> Needed(read, name, m)))
  {
    ExecuteStores(read, s, name, m);
  }
}
