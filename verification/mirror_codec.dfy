/** Mirroring through Firestore: the mirrored bytes come back from the document respelled, and the next
    sync compares them with the cached object again. */
module MirrorThroughFirestore {
  import opened KubeApplier
  import opened Conditions
  import opened Outcomes
  import opened Json
  import opened JsonNumbers
  import opened JsonLexer
  import opened JsonValues
  import opened JsonNormal
  import F = Float64s
  import C = DocumentCodec
  import SW = StatusWriter
  import VS = VersionedStore
  import RM = ReadDesireMirror

  // The body read back after a sync stored these bytes.
  function ReadBackAfter(format: Formatter, b: Body, raw: seq<byte>, rev: nat, now: nat): Body {
    C.NormalBody(format, Mutate(ReadStored(rev, Some(raw), now), b))
  }

  // What the next sync of the same object makes of it.
  function NextMutation(back: Body, raw: seq<byte>, rev: nat, later: nat): Mutation {
    RM.Chosen(RM.Present(raw), RM.Bytes(back.statusKubeContent), rev, later)
  }

  /** A mirrored object settles if and only if its bytes come back unchanged: the next sync of the same
      object then changes nothing, and otherwise it writes again, every time. */
  lemma SettlesIffBytesComeBack(format: Formatter, b: Body, raw: seq<byte>, rev: nat, now: nat, later: nat)
    requires raw != []
    ensures var back := ReadBackAfter(format, b, raw, rev, now);
            Mutate(NextMutation(back, raw, rev, later), back) == back <==> C.NormalRaw(format, Some(raw)) == Some(raw)
  {
    var back := ReadBackAfter(format, b, raw, rev, now);
    SetReads(b.conditions, SuccessfulCondition(None), now, TYPE_SUCCESSFUL);
    SetIsNoop(back.conditions, SuccessfulCondition(None), later);
  }

  /** So for an object as json.Marshal writes it, syncs fall silent exactly when every number in it is
      spelled as its double: an integer beyond 2^53 that no double equals keeps them writing. */
  lemma SettlesIffOwnSpelling(format: Formatter, t: Text, b: Body, rev: nat, now: nat, later: nat)
    requires Faithful(format) && t.Obj? && Sorted(t) && InRange(t)
    ensures var raw := SpellText(t);
            var back := ReadBackAfter(format, b, raw, rev, now);
            Mutate(NextMutation(back, raw, rev, later), back) == back <==> OwnSpelling(format, t)
  {
    InRangeNumbers(t);
    UnmarshalUndoesSpell(t);
    C.MarshalledSurvivesIff(format, t);
    SettlesIffBytesComeBack(format, b, SpellText(t), rev, now, later);
  }

  /** What a reader of the status document sees of KubeContent: the stored bytes, respelled on the way
      back from Firestore. */
  function SeenBytes(format: Formatter, s: VS.Store, name: string): seq<byte> {
    RM.Bytes(C.NormalRaw(format, SW.BodyOf(VS.Get(s, name)).statusKubeContent))
  }

  /** The document, as a reader sees it, mirrors the object. */
  predicate SeenToMirror(format: Formatter, s: VS.Store, name: string, rev: nat, raw: seq<byte>) {
    && name in s.docs
    && s.docs[name].body.observed == rev
    && Reads(s.docs[name].body.conditions, TYPE_SUCCESSFUL) == Some(SuccessfulCondition(None))
    && SeenBytes(format, s, name) == raw
  }

  /** A document that was fetched came through the codec, so another trip leaves its bytes alone. */
  predicate CameThrough(format: Formatter, seen: Option<Doc>) {
    var kube := SW.BodyOf(seen).statusKubeContent;
    RM.Bytes(C.NormalRaw(format, kube)) == RM.Bytes(kube)
  }

  /** Whatever was stored, what is read back came through. */
  lemma ReadBackCameThrough(format: Formatter, ext: Option<seq<byte>>)
    requires Faithful(format) && C.Storable(ext)
    ensures C.NormalRaw(format, C.NormalRaw(format, ext)) == C.NormalRaw(format, ext)
  {
    C.OtherContentIsAbsent(format, ext);
    if C.NormalRaw(format, ext).Some? { C.ContentIsNormalised(format, ext.value); }
  }

  // What a readable observation makes of a body.
  lemma MirroredBody(b: Body, o: RM.Observation, ownRaw: seq<byte>, rev: nat, now: nat)
    requires o.Readable()
    ensures var b' := Mutate(RM.Chosen(o, ownRaw, rev, now), b);
            && b'.observed == rev
            && Reads(b'.conditions, TYPE_SUCCESSFUL) == Some(SuccessfulCondition(None))
            && b'.statusKubeContent == if RM.Bytes(RM.NewRaw(o)) == ownRaw then b.statusKubeContent else RM.NewRaw(o)
  {
    SetReads(b.conditions, SuccessfulCondition(None), now, TYPE_SUCCESSFUL);
  }

  lemma StoredBody(
    own: VS.Store, read: VS.Store, s: VS.Store, name: string, rev: nat, o: RM.Observation,
    ownFetch: SW.Wire, fetch: SW.Wire, write: SW.Wire, now: nat)
    requires VS.Later(read, s, name) && o.Readable() && SW.Undisturbed(read, s, name)
    requires !RM.SyncOnce(own, read, s, name, rev, o, ownFetch, fetch, write, now).failed
    ensures var s' := RM.SyncOnce(own, read, s, name, rev, o, ownFetch, fetch, write, now).store;
            && name in s'.docs
            && s'.docs[name].body ==
               Mutate(RM.Chosen(o, RM.ShownBy(VS.Get(own, name)), rev, now), SW.BodyOf(VS.Get(read, name)))
  {
    SW.NilIsRecordedIff(read, s, name, RM.Chosen(o, RM.ShownBy(VS.Get(own, name)), rev, now), fetch, write);
  }

  /** Mirror correctness through Firestore. If nothing landed between UpdateStatus's fetch and its write,
      a nil return means that readers see the object mirrored if and only if: where SyncOnce's own read
      saw other bytes, so that the object's were written, those bytes come back unchanged; and where it
      saw the same ones, so that nothing was written, UpdateStatus's read saw them too. */
  lemma SeenToMirrorIff(
    format: Formatter, own: VS.Store, read: VS.Store, s: VS.Store, name: string, rev: nat, o: RM.Observation,
    ownFetch: SW.Wire, fetch: SW.Wire, write: SW.Wire, now: nat)
    requires VS.Later(read, s, name) && o.Readable() && SW.Undisturbed(read, s, name)
    requires CameThrough(format, VS.Get(read, name))
    requires !RM.SyncOnce(own, read, s, name, rev, o, ownFetch, fetch, write, now).failed
    ensures var raw := RM.Bytes(RM.NewRaw(o));
            var s' := RM.SyncOnce(own, read, s, name, rev, o, ownFetch, fetch, write, now).store;
            SeenToMirror(format, s', name, rev, raw) <==>
            if RM.ShownBy(VS.Get(own, name)) != raw then RM.Bytes(C.NormalRaw(format, RM.NewRaw(o))) == raw
            else RM.ShownBy(VS.Get(read, name)) == raw
  {
    StoredBody(own, read, s, name, rev, o, ownFetch, fetch, write, now);
    MirroredBody(SW.BodyOf(VS.Get(read, name)), o, RM.ShownBy(VS.Get(own, name)), rev, now);
  }

  /** As sole writer, for an object as json.Marshal writes it: readers see it mirrored after a nil sync
      that had to write if and only if every number in it is spelled as its double. */
  lemma SoleWriterSeenToMirrorIff(
    format: Formatter, t: Text, s: VS.Store, name: string, rev: nat, fetch: SW.Wire, write: SW.Wire, now: nat)
    requires Faithful(format) && t.Obj? && Sorted(t) && InRange(t)
    requires VS.Valid(s) && CameThrough(format, VS.Get(s, name)) && RM.ShownBy(VS.Get(s, name)) != SpellText(t)
    requires !RM.SyncOnce(s, s, s, name, rev, RM.Present(SpellText(t)), SW.Answered, fetch, write, now).failed
    ensures var s' := RM.SyncOnce(s, s, s, name, rev, RM.Present(SpellText(t)), SW.Answered, fetch, write, now).store;
            SeenToMirror(format, s', name, rev, SpellText(t)) <==> OwnSpelling(format, t)
  {
    InRangeNumbers(t);
    UnmarshalUndoesSpell(t);
    C.MarshalledSurvivesIff(format, t);
    C.NormalRawOfObject(format, SpellText(t));
    SeenToMirrorIff(format, s, s, s, name, rev, RM.Present(SpellText(t)), SW.Answered, fetch, write, now);
  }

  // The first sync of a document that does not exist yet.
  lemma FirstSyncMirrors(s: VS.Store, name: string, rev: nat, raw: seq<byte>, now: nat)
    requires VS.Valid(s) && name !in s.docs && name != "" && raw != []
    ensures var o := RM.SyncOnce(s, s, s, name, rev, RM.Present(raw), SW.Answered, SW.Answered, SW.Answered, now);
            !o.failed && RM.Mirrors(o.store, name, rev, raw)
  {
    SW.ExecuteStores(s, s, name, RM.Chosen(RM.Present(raw), [], rev, now));
    RM.MirrorsIff(s, s, s, name, rev, RM.Present(raw), SW.Answered, SW.Answered, SW.Answered, now);
  }

  /** The third way a nil sync can fail to mirror: nobody interferes, and the object holds
      9007199254740993. */
  lemma LargeIntegerIsNotMirrored(
    format: Formatter, lost: seq<byte>, s: VS.Store, name: string, rev: nat, now: nat)
    requires Faithful(format) && lost == Sign(false) + JsonNumbers.Decimal(F.TWO53 + 1)
    requires VS.Valid(s) && name !in s.docs && name != ""
    ensures var raw := SpellText(C.OneNumber(lost));
            var o := RM.SyncOnce(s, s, s, name, rev, RM.Present(raw), SW.Answered, SW.Answered, SW.Answered, now);
            !o.failed && RM.Mirrors(o.store, name, rev, raw) && !SeenToMirror(format, o.store, name, rev, raw)
  {
    FirstIntegerDoesNotSurvive(format, false);
    LostNumberIsNotMirrored(format, lost, s, name, rev, now);
  }

  lemma LostNumberIsNotMirrored(format: Formatter, lost: seq<byte>, s: VS.Store, name: string, rev: nat, now: nat)
    requires Faithful(format) && HasDouble(lost) && !Survives(format, lost)
    requires VS.Valid(s) && name !in s.docs && name != ""
    ensures var raw := SpellText(C.OneNumber(lost));
            var o := RM.SyncOnce(s, s, s, name, rev, RM.Present(raw), SW.Answered, SW.Answered, SW.Answered, now);
            !o.failed && RM.Mirrors(o.store, name, rev, raw) && !SeenToMirror(format, o.store, name, rev, raw)
  {
    var t := C.OneNumber(lost);
    C.OneNumberInRange(lost);
    UnmarshalUndoesSpell(t);
    FirstSyncMirrors(s, name, rev, SpellText(t), now);
    C.OneNumberOwn(format, lost);
    SoleWriterSeenToMirrorIff(format, t, s, name, rev, SW.Answered, SW.Answered, now);
  }
}
