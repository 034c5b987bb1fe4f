/** The bridge from Firestore snapshots to watch events (internal/database/informers/listener_watcher.go)
    and the cache it feeds. */
module SnapshotWatcher {
  import opened KubeApplier

  datatype ChangeKind = DocumentAdded | DocumentModified | DocumentRemoved

  datatype Change<D> = Change(kind: ChangeKind, id: string, doc: D)

  datatype EventKind = Added | Modified | Deleted

  datatype Event<O> = Event(kind: EventKind, id: string, obj: O) | ExpiredError

  function EventTypeOf(kind: ChangeKind): EventKind {
    match kind
    case DocumentAdded => Added
    case DocumentModified => Modified
    case DocumentRemoved => Deleted
  }

  function EventOf<D, O>(c: Change<D>, convert: D -> Option<O>): seq<Event<O>> {
    match convert(c.doc)
    case None => []
    case Some(o) => [Event(EventTypeOf(c.kind), c.id, o)]
  }

  /** The events for a snapshot's first n changes; a document that does not convert is skipped. */
  function EventsOf<D, O>(changes: seq<Change<D>>, n: nat, convert: D -> Option<O>): seq<Event<O>>
    requires n <= |changes|
  {
    if n == 0 then [] else EventsOf(changes, n - 1, convert) + EventOf(changes[n - 1], convert)
  }

  /** The events for the first n snapshots. */
  function AllEvents<D, O>(snaps: seq<seq<Change<D>>>, n: nat, convert: D -> Option<O>): seq<Event<O>>
    requires n <= |snaps|
  {
    if n == 0 then [] else AllEvents(snaps, n - 1, convert) + EventsOf(snaps[n - 1], |snaps[n - 1]|, convert)
  }

  class FirestoreWatcher<O> {
    var resultCh: seq<Event<O>>

    constructor ()
      ensures resultCh == []
    {
      resultCh := [];
    }

    /** run: `snaps` are the snapshots the iterator yields before it fails, `sends` how many sends
        succeed before a select takes the cancelled branch, `cancelled` whether the context is
        cancelled when the iterator fails. What is emitted is a prefix of the events of all snapshots,
        the whole of it unless a send was cancelled, then one expiry error if the stream broke. */
    method Run<D>(snaps: seq<seq<Change<D>>>, convert: D -> Option<O>, sends: nat, cancelled: bool)
      requires resultCh == []
      modifies this
      ensures resultCh == Clip(AllEvents(snaps, |snaps|, convert) + if cancelled then [] else [ExpiredError], sends)
    {
      var i := 0;
      while i < |snaps|
        invariant 0 <= i <= |snaps|
        invariant resultCh == AllEvents(snaps, i, convert) && |resultCh| <= sends
      {
        var j := 0;
        EmittedBounds(snaps, i, convert);
        while j < |snaps[i]|
          invariant 0 <= j <= |snaps[i]|
          invariant resultCh == Emitted(snaps, i, j, convert) && |resultCh| <= sends
        {
          var change := snaps[i][j];
          EmittedNext(snaps, i, j, convert);
          var obj := convert(change.doc);
          if obj.Some? {
            if |resultCh| == sends {
              return;
            }
            resultCh := resultCh + [Event(EventTypeOf(change.kind), change.id, obj.value)];
          }
          j := j + 1;
        }
        i := i + 1;
      }
      if !cancelled && |resultCh| < sends {
        resultCh := resultCh + [ExpiredError];
      }
    }
  }

  function Clip<E>(events: seq<E>, sends: nat): seq<E> {
    events[..if sends < |events| then sends else |events|]
  }

  /** What is emitted is the longest beginning of the events that takes no more than the sends. */
  lemma ClipIsLongest<E>(events: seq<E>, sends: nat, p: seq<E>)
    requires p <= events && |p| <= sends
    ensures p <= Clip(events, sends) <= events && |Clip(events, sends)| <= sends
  {
  }

  /** The changes of the first n snapshots, one after the other. */
  function Flat<D>(snaps: seq<seq<Change<D>>>, n: nat): seq<Change<D>>
    requires n <= |snaps|
  {
    if n == 0 then [] else Flat(snaps, n - 1) + snaps[n - 1]
  }

  /** How many of the first n changes convert. */
  function Converting<D, O>(changes: seq<Change<D>>, n: nat, convert: D -> Option<O>): nat
    requires n <= |changes|
  {
    if n == 0 then 0 else Converting(changes, n - 1, convert) + if convert(changes[n - 1].doc).Some? then 1 else 0
  }

  /** Which change yields which event: the events are those of the converting changes, in order, an
      addition yields Added, a modification Modified and a removal Deleted, each with the change's own
      document. */
  lemma {:induction false} EventAt<D, O>(changes: seq<Change<D>>, i: nat, n: nat, convert: D -> Option<O>)
    requires i < n <= |changes|
    ensures |EventsOf(changes, n, convert)| == Converting(changes, n, convert)
    ensures convert(changes[i].doc).Some? ==>
              var at, kind := Converting(changes, i, convert), changes[i].kind;
              && at < Converting(changes, n, convert)
              && EventsOf(changes, n, convert)[at].Event?
              && EventsOf(changes, n, convert)[at].id == changes[i].id
              && Some(EventsOf(changes, n, convert)[at].obj) == convert(changes[i].doc)
              && (EventsOf(changes, n, convert)[at].kind == Added <==> kind == DocumentAdded)
              && (EventsOf(changes, n, convert)[at].kind == Modified <==> kind == DocumentModified)
              && (EventsOf(changes, n, convert)[at].kind == Deleted <==> kind == DocumentRemoved)
  {
    CountEvents(changes, n - 1, convert);
    if i < n - 1 { EventAt(changes, i, n - 1, convert); }
  }

  lemma {:induction false} CountEvents<D, O>(changes: seq<Change<D>>, n: nat, convert: D -> Option<O>)
    requires n <= |changes|
    ensures |EventsOf(changes, n, convert)| == Converting(changes, n, convert)
  {
    if n > 0 { CountEvents(changes, n - 1, convert); }
  }

  /** Snapshot boundaries do not show. */
  lemma {:induction false} SnapshotsAreOneStream<D, O>(snaps: seq<seq<Change<D>>>, n: nat, convert: D -> Option<O>)
    requires n <= |snaps|
    ensures AllEvents(snaps, n, convert) == EventsOf(Flat(snaps, n), |Flat(snaps, n)|, convert)
  {
    if n > 0 {
      SnapshotsAreOneStream(snaps, n - 1, convert);
      EventsConcat(Flat(snaps, n - 1), snaps[n - 1], |snaps[n - 1]|, convert);
    }
  }

  lemma {:induction false} EventsConcat<D, O>(a: seq<Change<D>>, b: seq<Change<D>>, n: nat, convert: D -> Option<O>)
    requires n <= |b|
    ensures EventsOf(a + b, |a| + n, convert) == EventsOf(a, |a|, convert) + EventsOf(b, n, convert)
  {
    if n == 0 {
      EventsPrefix(a, b, |a|, convert);
    } else {
      EventsConcat(a, b, n - 1, convert);
    }
  }

  lemma {:induction false} EventsPrefix<D, O>(a: seq<Change<D>>, b: seq<Change<D>>, n: nat, convert: D -> Option<O>)
    requires n <= |a|
    ensures EventsOf(a + b, n, convert) == EventsOf(a, n, convert)
  {
    if n > 0 { EventsPrefix(a, b, n - 1, convert); }
  }

  /** What has been pushed after i whole snapshots and j changes of the next. */
  ghost function Emitted<D, O>(snaps: seq<seq<Change<D>>>, i: nat, j: nat, convert: D -> Option<O>): seq<Event<O>>
    requires i < |snaps| && j <= |snaps[i]|
  {
    AllEvents(snaps, i, convert) + EventsOf(snaps[i], j, convert)
  }

  lemma EmittedBounds<D, O>(snaps: seq<seq<Change<D>>>, i: nat, convert: D -> Option<O>)
    requires i < |snaps|
    ensures Emitted(snaps, i, 0, convert) == AllEvents(snaps, i, convert)
    ensures Emitted(snaps, i, |snaps[i]|, convert) == AllEvents(snaps, i + 1, convert)
  {
  }

  // One more change emits its event, and what is emitted stays a prefix of all the events.
  lemma EmittedNext<D, O>(snaps: seq<seq<Change<D>>>, i: nat, j: nat, convert: D -> Option<O>)
    requires i < |snaps| && j < |snaps[i]|
    ensures Emitted(snaps, i, j + 1, convert) == Emitted(snaps, i, j, convert) + EventOf(snaps[i][j], convert)
    ensures Emitted(snaps, i, j + 1, convert) <= AllEvents(snaps, |snaps|, convert)
  {
    EventsGrow(snaps[i], j + 1, |snaps[i]|, convert);
    AllEventsGrow(snaps, i + 1, |snaps|, convert);
    EmittedBounds(snaps, i, convert);
  }

  lemma {:induction false} EventsGrow<D, O>(changes: seq<Change<D>>, j: nat, n: nat, convert: D -> Option<O>)
    requires j <= n <= |changes|
    ensures EventsOf(changes, j, convert) <= EventsOf(changes, n, convert)
  {
    if j < n {
      EventsGrow(changes, j, n - 1, convert);
    }
  }

  lemma {:induction false} AllEventsGrow<D, O>(snaps: seq<seq<Change<D>>>, i: nat, n: nat, convert: D -> Option<O>)
    requires i <= n <= |snaps|
    ensures AllEvents(snaps, i, convert) <= AllEvents(snaps, n, convert)
  {
    if i < n {
      AllEventsGrow(snaps, i, n - 1, convert);
    }
  }

  /* ---- The cache ---- */

  function ApplyEvent<O>(cache: map<string, O>, e: Event<O>): map<string, O> {
    match e
    case Event(Deleted, id, _) => cache - {id}
    case Event(_, id, o) => cache[id := o]
    case ExpiredError => cache
  }

  function ApplyAll<O>(cache: map<string, O>, events: seq<Event<O>>): map<string, O> {
    if events == [] then cache else ApplyEvent(ApplyAll(cache, events[..|events| - 1]), events[|events| - 1])
  }

  lemma {:induction false} ApplyConcat<O>(cache: map<string, O>, a: seq<Event<O>>, b: seq<Event<O>>)
    ensures ApplyAll(cache, a + b) == ApplyAll(ApplyAll(cache, a), b)
  {
    if b == [] {
      assert a + b == a;
    } else {
      var init := b[..|b| - 1];
      assert (a + b)[..|a + b| - 1] == a + init;
      ApplyConcat(cache, a, init);
    }
  }

  function At<V>(m: map<string, V>, id: string): Option<V> {
    if id in m then Some(m[id]) else None
  }

  function Converted<D, O>(d: Option<D>, convert: D -> Option<O>): Option<O> {
    if d.Some? then convert(d.value) else None
  }

  /** A snapshot's changes against the snapshot before it: at most one per document, one wherever the
      two differ, each telling what is there now, or for a removal what was there last. */
  ghost predicate IsDiff<D>(prev: map<string, D>, cur: map<string, D>, changes: seq<Change<D>>) {
    && (forall i, j | 0 <= i < j < |changes| :: changes[i].id != changes[j].id)
    && (forall i | 0 <= i < |changes| :: Describes(prev, cur, changes[i]))
    && (forall id | At(prev, id) != At(cur, id) :: Mentions(changes, |changes|, id))
  }

  ghost predicate Describes<D>(prev: map<string, D>, cur: map<string, D>, c: Change<D>) {
    match c.kind
    case DocumentAdded => At(prev, c.id) == None && At(cur, c.id) == Some(c.doc)
    case DocumentModified => At(prev, c.id).Some? && At(cur, c.id) == Some(c.doc)
    case DocumentRemoved => At(prev, c.id) == Some(c.doc) && At(cur, c.id) == None
  }

  ghost predicate Mentions<D>(changes: seq<Change<D>>, n: nat, id: string)
    requires n <= |changes|
  {
    exists i :: 0 <= i < n && changes[i].id == id
  }

  function Settle<D, O>(cache: map<string, O>, c: Change<D>, convert: D -> Option<O>): map<string, O> {
    match convert(c.doc)
    case None => cache
    case Some(o) => ApplyEvent(cache, Event(EventTypeOf(c.kind), c.id, o))
  }

  /** What the change leaves in the snapshot. */
  ghost predicate Tells<D>(cur: map<string, D>, c: Change<D>) {
    At(cur, c.id) == if c.kind.DocumentRemoved? then None else Some(c.doc)
  }

  lemma SettleAt<D, O>(cache: map<string, O>, cur: map<string, D>, c: Change<D>, id: string, convert: D -> Option<O>)
    requires Tells(cur, c) && (c.id == id ==> convert(c.doc).Some?)
    ensures At(Settle(cache, c, convert), id) == if c.id == id then Converted(At(cur, id), convert) else At(cache, id)
  {
  }

  function SettleAll<D, O>(
    cache: map<string, O>, changes: seq<Change<D>>, n: nat, convert: D -> Option<O>): map<string, O>
    requires n <= |changes|
  {
    if n == 0 then cache else Settle(SettleAll(cache, changes, n - 1, convert), changes[n - 1], convert)
  }

  // Applying the events of a snapshot settles its changes one by one.
  lemma {:induction false} EventsSettle<D, O>(
    cache: map<string, O>, changes: seq<Change<D>>, n: nat, convert: D -> Option<O>)
    requires n <= |changes|
    ensures ApplyAll(cache, EventsOf(changes, n, convert)) == SettleAll(cache, changes, n, convert)
  {
    if n > 0 {
      EventsSettle(cache, changes, n - 1, convert);
      ApplyNext(cache, EventsOf(changes, n - 1, convert), changes[n - 1], convert);
    }
  }

  lemma ApplyNext<D, O>(cache: map<string, O>, events: seq<Event<O>>, c: Change<D>, convert: D -> Option<O>)
    ensures ApplyAll(cache, events + EventOf(c, convert)) == Settle(ApplyAll(cache, events), c, convert)
  {
    if convert(c.doc).Some? {
      assert (events + EventOf(c, convert))[..|events|] == events;
    } else {
      assert events + [] == events;
    }
  }

  // A snapshot's changes settle the documents they mention and no other.
  lemma {:induction false} ChangesSettle<D, O>(
    cache: map<string, O>, cur: map<string, D>, changes: seq<Change<D>>, n: nat, id: string, convert: D -> Option<O>)
    requires n <= |changes|
    requires forall i | 0 <= i < n :: Tells(cur, changes[i]) && (changes[i].id == id ==> convert(changes[i].doc).Some?)
    ensures At(SettleAll(cache, changes, n, convert), id) ==
            if Mentions(changes, n, id) then Converted(At(cur, id), convert) else At(cache, id)
  {
    if n > 0 {
      ChangesSettle(cache, cur, changes, n - 1, id, convert);
      SettleAt(SettleAll(cache, changes, n - 1, convert), cur, changes[n - 1], id, convert);
    }
  }

  /** A stream of snapshots with the changes delivered for each, the first against the empty one. */
  datatype Stream<D> = Stream(snapshots: seq<map<string, D>>, changes: seq<seq<Change<D>>>)

  function Snapshot<D>(s: Stream<D>, n: nat): map<string, D>
    requires n <= |s.snapshots|
  {
    if n == 0 then map[] else s.snapshots[n - 1]
  }

  ghost predicate Faithful<D>(s: Stream<D>) {
    |s.changes| == |s.snapshots| && forall n | 0 <= n < |s.snapshots| :: DiffAt(s, n)
  }

  ghost predicate DiffAt<D>(s: Stream<D>, n: nat)
    requires n < |s.snapshots| == |s.changes|
  {
    IsDiff(Snapshot(s, n), Snapshot(s, n + 1), s.changes[n])
  }

  /** Some snapshot holds this document. */
  ghost predicate Appears<D>(s: Stream<D>, n: nat, id: string)
    requires n <= |s.snapshots|
  {
    exists i :: 0 <= i < n && id in s.snapshots[i]
  }

  /** Cache agreement: start from any list and apply the events of the first n snapshots. Every
      document all of whose versions convert is then cached exactly as the last snapshot has it; only
      if it appeared in no snapshot does the list's entry stay. */
  lemma {:induction false} CacheAgreesWithSnapshots<D, O>(
    list: map<string, O>, s: Stream<D>, n: nat, id: string, convert: D -> Option<O>)
    requires Faithful(s) && n <= |s.snapshots|
    requires forall i | 0 <= i < n && id in s.snapshots[i] :: convert(s.snapshots[i][id]).Some?
    ensures At(ApplyAll(list, AllEvents(s.changes, n, convert)), id) ==
            if Appears(s, n, id) then Converted(At(Snapshot(s, n), id), convert) else At(list, id)
  {
    if n > 0 {
      var m := n - 1;
      var prev, cur, changes := Snapshot(s, m), Snapshot(s, n), s.changes[m];
      CacheAgreesWithSnapshots(list, s, m, id, convert);
      assert DiffAt(s, m);
      var mid := ApplyAll(list, AllEvents(s.changes, m, convert));
      ApplyConcat(list, AllEvents(s.changes, m, convert), EventsOf(changes, |changes|, convert));
      forall i | 0 <= i < |changes|
        ensures Tells(cur, changes[i]) && (changes[i].id == id ==> convert(changes[i].doc).Some?)
      {
        assert Describes(prev, cur, changes[i]);
        assert m > 0 ==> prev == s.snapshots[m - 1];
      }
      EventsSettle(mid, changes, |changes|, convert);
      ChangesSettle(mid, cur, changes, |changes|, id, convert);
      AppearsNext(s, m, id);
    }
  }

  lemma AppearsNext<D>(s: Stream<D>, m: nat, id: string)
    requires Faithful(s) && m < |s.snapshots|
    ensures Appears(s, m + 1, id) <==> Appears(s, m, id) || id in Snapshot(s, m + 1)
    ensures id in Snapshot(s, m) ==> Appears(s, m, id)
    ensures Mentions(s.changes[m], |s.changes[m]|, id) ==> Appears(s, m + 1, id)
  {
    assert DiffAt(s, m);
    if Mentions(s.changes[m], |s.changes[m]|, id) {
      var i :| 0 <= i < |s.changes[m]| && s.changes[m][i].id == id;
      assert Describes(Snapshot(s, m), Snapshot(s, m + 1), s.changes[m][i]);
    }
    if id in Snapshot(s, m) { assert id in s.snapshots[m - 1]; }
    if id in Snapshot(s, m + 1) { assert id in s.snapshots[m]; }
  }

  /** Without the conversion premise it fails: when a cached document turns into one that does not
      convert, its event is skipped and the old version stays cached. */
  lemma UnconvertibleStaysStale<D, O>(good: D, bad: D, convert: D -> Option<O>) returns (s: Stream<D>)
    requires convert(good).Some? && convert(bad).None?
    ensures Faithful(s) && |s.snapshots| == 2 && Snapshot(s, 2) == map["a" := bad]
    ensures At(ApplyAll(map[], AllEvents(s.changes, 2, convert)), "a") == convert(good)
  {
    var c1, c2 := [Change(DocumentAdded, "a", good)], [Change(DocumentModified, "a", bad)];
    s := Stream([map["a" := good], map["a" := bad]], [c1, c2]);
    assert Mentions(c1, 1, "a") && Mentions(c2, 1, "a") by { assert c1[0].id == c2[0].id == "a"; }
    assert DiffAt(s, 0) && DiffAt(s, 1);
    CacheAgreesWithSnapshots(map[], s, 1, "a", convert);
    assert "a" in s.snapshots[0];
    assert EventsOf(c2, 1, convert) == EventsOf(c2, 0, convert) + [];
    assert AllEvents(s.changes, 2, convert) == AllEvents(s.changes, 1, convert);
  }
}
