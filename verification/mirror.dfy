/** ReadDesireKubernetesController.SyncOnce (pkg/controllers/read_desire_kubernetes): mirror the cached
    object into the status document. The document is read twice: once to compare bytes, once by
    UpdateStatus; other writers may land before, between and after. */
module ReadDesireMirror {
  import opened KubeApplier
  import opened Conditions
  import opened Outcomes
  import opened StatusWriter
  import VS = VersionedStore

  /** What the per-instance informer has to say. */
  datatype Observation =
    | NotSynced
    | CacheError(err: Error)
    | UnexpectedType(note: string)
    | MarshalError(err: Error)
    | Absent
    | Present(raw: seq<byte>)
  {
    predicate Readable() { Absent? || Present? }
  }

  // nil when absent
  function NewRaw(o: Observation): Option<seq<byte>> {
    if o.Present? then Some(o.raw) else None
  }

  /** What bytes.Equal sees: nil and empty are equal. */
  function Bytes(raw: Option<seq<byte>>): seq<byte> {
    if raw.Some? then raw.value else []
  }

  function ShownBy(seen: Option<Doc>): seq<byte> {
    Bytes(BodyOf(seen).statusKubeContent)
  }

  /** The closure SyncOnce hands to UpdateStatus. */
  function Chosen(o: Observation, existingRaw: seq<byte>, rev: nat, now: nat): Mutation {
    match o
    case CacheError(e) => ReadFailed(rev, Wrapped("read cache", e), now)
    case UnexpectedType(note) => ReadFailed(rev, PreCheckError(PlainError(note)), now)
    case MarshalError(e) => ReadFailed(rev, Wrapped("marshal observed object", e), now)
    case _ => if Bytes(NewRaw(o)) == existingRaw then ReadKept(rev, now) else ReadStored(rev, NewRaw(o), now)
  }

  /** `own` is the store at SyncOnce's own fetch, `read` at UpdateStatus's, `s` the one the write reaches. */
  function SyncOnce(
    own: VS.Store, read: VS.Store, s: VS.Store, name: string, rev: nat, o: Observation,
    ownFetch: Wire, fetch: Wire, write: Wire, now: nat): Outcome
  {
    if o.NotSynced? then Outcome(s, false, false)
    else if !ownFetch.Answered? then Outcome(s, true, false)
    else UpdateStatus(read, s, name, Chosen(o, ShownBy(VS.Get(own, name)), rev, now), fetch, write)
  }

  /** The status document says what the instance observed: the condition, the revision, the bytes. */
  predicate Mirrors(s: VS.Store, name: string, rev: nat, raw: seq<byte>) {
    && name in s.docs
    && s.docs[name].body.observed == rev
    && Reads(s.docs[name].body.conditions, TYPE_SUCCESSFUL) == Some(SuccessfulCondition(None))
    && ShownBy(VS.Get(s, name)) == raw
  }

  /** An instance whose informer has not synced skips the sync: it writes nothing, attempts nothing and
      returns nil, whatever the calls would have answered. One whose own fetch fails returns that error
      and does nothing either. */
  lemma WhenNothingIsDone(
    own: VS.Store, read: VS.Store, s: VS.Store, name: string, rev: nat, o: Observation,
    ownFetch: Wire, fetch: Wire, write: Wire, now: nat)
    ensures var r := SyncOnce(own, read, s, name, rev, o, ownFetch, fetch, write, now);
            && (o == NotSynced ==> !r.failed && !r.attempted && r.store == s)
            && (o != NotSynced && ownFetch != Answered ==> r.failed && !r.attempted && r.store == s)
  {
  }

  /** A sync fails exactly when it is not skipped and its own fetch, the status fetch or a needed write
      fails; what it would write is told from the observation. */
  lemma SyncFailsIff(
    own: VS.Store, read: VS.Store, s: VS.Store, name: string, rev: nat, o: Observation,
    ownFetch: Wire, fetch: Wire, write: Wire, now: nat)
    requires VS.Later(read, s, name)
    ensures SyncOnce(own, read, s, name, rev, o, ownFetch, fetch, write, now).failed <==>
            && o != NotSynced
            && (ownFetch != Answered
                || MustFail(read, s, name, Chosen(o, ShownBy(VS.Get(own, name)), rev, now), fetch, write))
  {
    FailsIff(read, s, name, Chosen(o, ShownBy(VS.Get(own, name)), rev, now), fetch, write);
  }

  /** The mirrored content of a document changes only in a sync that could read the object; then it can
      only become that object's bytes. No other document changes at all. */
  lemma ContentChangesOnlyIfReadable(
    own: VS.Store, read: VS.Store, s: VS.Store, name: string, rev: nat, o: Observation,
    ownFetch: Wire, fetch: Wire, write: Wire, now: nat, id: string)
    requires VS.Later(read, s, name)
    ensures var s' := SyncOnce(own, read, s, name, rev, o, ownFetch, fetch, write, now).store;
            var before, after := BodyOf(VS.Get(s, id)).statusKubeContent, BodyOf(VS.Get(s', id)).statusKubeContent;
            && (id != name ==> VS.Get(s', id) == VS.Get(s, id))
            && (after != before ==>
                  && id == name && o.Readable()
                  && (o == Absent ==> after == None) && (o.Present? ==> after == Some(o.raw)))
  {
    var m := Chosen(o, ShownBy(VS.Get(own, name)), rev, now);
    ExecuteStores(read, s, name, m);
    if o != NotSynced && ownFetch == Answered { OthersUntouched(read, s, name, m, fetch, write, id); }
    StoredOrLeft(read, s, name, m, fetch, write);
  }

  // A call leaves the document as it is, or as mutate makes what is there.
  lemma StoredOrLeft(read: VS.Store, s: VS.Store, name: string, m: Mutation, fetch: Wire, write: Wire)
    requires VS.Later(read, s, name)
    ensures var s' := UpdateStatus(read, s, name, m, fetch, write).store;
            s' == s || (name in s'.docs && s'.docs[name].body == Mutate(m, BodyOf(VS.Get(s, name))))
  {
    ExecuteStores(read, s, name, m);
  }

  /** What a failed observation reports: each kind under its own words. */
  lemma FailureTexts(o: Observation, existingRaw: seq<byte>, rev: nat, now: nat)
    requires !o.Readable() && o != NotSynced
    ensures var m := Chosen(o, existingRaw, rev, now);
            && m.ReadFailed? && m.rev == rev && m.now == now
            && (o.CacheError? ==> m.cause.Text() == "read cache: " + o.err.Text() && !m.cause.PreCheckError?)
            && (o.MarshalError? ==>
                  m.cause.Text() == "marshal observed object: " + o.err.Text() && !m.cause.PreCheckError?)
            && (o.UnexpectedType? ==> m.cause.Text() == o.note && m.cause.PreCheckError?)
  {
  }

  // What a document holds compares equal to an object's bytes, where an empty object, an absent one and a
  // missing document are all alike.
  ghost predicate SameBytes(seen: Option<Doc>, o: Observation) {
    var content := if seen.Some? then seen.value.body.statusKubeContent else None;
    if o.Present? && o.raw != [] then content == Some(o.raw) else content == None || content == Some([])
  }

  /** What a sync that can read the object asks for: the object's bytes, or nil for an absent one, exactly
      if its own fetch saw others. */
  lemma WhatIsAskedFor(seen: Option<Doc>, o: Observation, rev: nat, now: nat)
    requires o.Readable()
    ensures Chosen(o, ShownBy(seen), rev, now) ==
            if SameBytes(seen, o) then ReadKept(rev, now)
            else ReadStored(rev, if o.Present? then Some(o.raw) else None, now)
  {
  }

  /** What it is to mirror, for a reader of the document. */
  lemma WhatMirrorsMeans(s: VS.Store, name: string, rev: nat, o: Observation)
    requires o.Readable()
    ensures Mirrors(s, name, rev, Bytes(NewRaw(o))) <==>
            && VS.Get(s, name).Some?
            && var b := VS.Get(s, name).value.body;
            && b.observed == rev && SameBytes(VS.Get(s, name), o)
            && Reads(b.conditions, "Successful") ==
                 Some(Condition("Successful", ConditionTrue, "NoErrors", "As expected.", 0, 0))
  {
  }

  /** Mirror correctness, whatever lands between the two reads and between the second read and the
      write. If nothing landed on the document between UpdateStatus's fetch and its write, a nil
      return means mirrored if and only if SyncOnce's own read saw other bytes than the cached ones (so
      they are written) or UpdateStatus's read still saw the cached ones. If something did, the nil
      hides a refused write: the sync leaves no trace, and what is there is what the others left. */
  lemma MirrorsIff(
    own: VS.Store, read: VS.Store, s: VS.Store, name: string, rev: nat, o: Observation,
    ownFetch: Wire, fetch: Wire, write: Wire, now: nat)
    requires VS.Later(read, s, name) && o.Readable()
    requires !SyncOnce(own, read, s, name, rev, o, ownFetch, fetch, write, now).failed
    ensures var raw := Bytes(NewRaw(o));
            var s' := SyncOnce(own, read, s, name, rev, o, ownFetch, fetch, write, now).store;
            if Undisturbed(read, s, name)
            then
              Mirrors(s', name, rev, raw) <==>
              ShownBy(VS.Get(own, name)) != raw || ShownBy(VS.Get(read, name)) == raw
            else s' == s
  {
    var m := Chosen(o, ShownBy(VS.Get(own, name)), rev, now);
    NilIsRecordedIff(read, s, name, m, fetch, write);
    SetReads(BodyOf(VS.Get(read, name)).conditions, SuccessfulCondition(None), now, TYPE_SUCCESSFUL);
  }

  /** The bytes failing family: own read and cache agree, UpdateStatus's read does not. */
  lemma StaleBytesStay(
    own: VS.Store, s: VS.Store, name: string, rev: nat, o: Observation, now: nat)
    requires VS.Valid(s) && o.Readable() && name in s.docs
    requires ShownBy(VS.Get(own, name)) == Bytes(NewRaw(o)) != ShownBy(VS.Get(s, name))
    ensures var r := SyncOnce(own, s, s, name, rev, o, Answered, Answered, Answered, now);
            !r.failed && ShownBy(VS.Get(r.store, name)) == ShownBy(VS.Get(s, name))
  {
    var m := Chosen(o, ShownBy(VS.Get(own, name)), rev, now);
    ExecuteStores(s, s, name, m);
    NilIsRecordedIff(s, s, name, m, Answered, Answered);
  }

  /** The refused failing family: a rival write between UpdateStatus's fetch and its write. */
  lemma RefusedMirrorIsSwallowed(read: VS.Store, name: string, rev: nat, o: Observation, now: nat)
      returns (rival: VS.Rival)
    requires VS.Valid(read) && o.Readable() && name in read.docs
    requires ShownBy(VS.Get(read, name)) != Bytes(NewRaw(o))
    ensures var s := VS.After(read, [rival]);
            var r := SyncOnce(read, read, s, name, rev, o, Answered, Answered, Answered, now);
            !r.failed && r.store == s && !Mirrors(r.store, name, rev, Bytes(NewRaw(o)))
  {
    var m := Chosen(o, ShownBy(VS.Get(read, name)), rev, now);
    rival := NilWithoutRecord(read, name, m);
    VS.AfterIsLater(read, [rival], name);
    assert [rival][..0] == [];
    assert VS.After(read, [rival]) == VS.Step(read, rival);
  }

  /** As sole writer (nothing lands in between), nil always means mirrored; the next sync of the same
      observation attempts no write. */
  lemma SoleWriterMirrors(
    s: VS.Store, name: string, rev: nat, o: Observation, fetch: Wire, write: Wire, now: nat, later: nat)
    requires VS.Valid(s) && o.Readable()
    requires !SyncOnce(s, s, s, name, rev, o, Answered, fetch, write, now).failed
    ensures var s' := SyncOnce(s, s, s, name, rev, o, Answered, fetch, write, now).store;
            && Mirrors(s', name, rev, Bytes(NewRaw(o)))
            && SyncOnce(s', s', s', name, rev, o, Answered, Answered, Answered, later) == Outcome(s', false, false)
  {
    MirrorsIff(s, s, s, name, rev, o, Answered, fetch, write, now);
    var s' := SyncOnce(s, s, s, name, rev, o, Answered, fetch, write, now).store;
    var m := Chosen(o, ShownBy(VS.Get(s, name)), rev, now);
    ExecuteStores(s, s, name, m);
    NilIsRecordedIff(s, s, name, m, fetch, write);
    SetIsNoop(s'.docs[name].body.conditions, SuccessfulCondition(None), later);
  }

  /** The status document reports a failed observation, over the bytes that were there. */
  predicate ReportsUnreadable(s: VS.Store, name: string, rev: nat, o: Observation, raw: seq<byte>) {
    && name in s.docs && s.docs[name].body.observed == rev && ShownBy(VS.Get(s, name)) == raw
    && var c := Lookup(s.docs[name].body.conditions, TYPE_SUCCESSFUL);
       c.Some? && c.value.status == ConditionFalse && (c.value.reason == REASON_PRE_CHECK_FAILED <==> o.UnexpectedType?)
  }

  /** An unreadable observation reports itself and leaves the mirrored bytes alone, unless something
      landed between UpdateStatus's fetch and its write: then it leaves no trace. */
  lemma UnreadableKeepsTheBytes(
    own: VS.Store, read: VS.Store, s: VS.Store, name: string, rev: nat, o: Observation,
    ownFetch: Wire, fetch: Wire, write: Wire, now: nat)
    requires VS.Later(read, s, name) && !o.Readable() && !o.NotSynced?
    requires !SyncOnce(own, read, s, name, rev, o, ownFetch, fetch, write, now).failed
    ensures var s' := SyncOnce(own, read, s, name, rev, o, ownFetch, fetch, write, now).store;
            if Undisturbed(read, s, name) then ReportsUnreadable(s', name, rev, o, ShownBy(VS.Get(read, name)))
            else s' == s
  {
    var m := Chosen(o, ShownBy(VS.Get(own, name)), rev, now);
    NilIsRecordedIff(read, s, name, m, fetch, write);
    SetReads(BodyOf(VS.Get(read, name)).conditions, SuccessfulCondition(Some(m.cause)), now, TYPE_SUCCESSFUL);
    assert REASON_PRE_CHECK_FAILED[0] != REASON_KUBE_API_ERROR[0];
  }
}
