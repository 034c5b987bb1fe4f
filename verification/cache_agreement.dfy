/** Exactly when the informer cache agrees with the last snapshot, whatever converts. */
module CacheAgreement {
  import opened KubeApplier
  import opened SnapshotWatcher

  /** The last of the first k changes that is about this document and satisfies p. */
  function LastChange<D>(changes: seq<Change<D>>, k: nat, id: string, p: D -> bool): (c: Option<Change<D>>)
    requires k <= |changes|
    ensures c.Some? ==> c.value.id == id && p(c.value.doc)
  {
    if k == 0 then None
    else if changes[k - 1].id == id && p(changes[k - 1].doc) then Some(changes[k - 1])
    else LastChange(changes, k - 1, id, p)
  }

  /** The newest change about this document that satisfies p, over the first n snapshots. */
  function Newest<D>(s: Stream<D>, n: nat, id: string, p: D -> bool): (c: Option<Change<D>>)
    requires n <= |s.changes|
    ensures c.Some? ==> c.value.id == id && p(c.value.doc)
  {
    if n == 0 then None
    else
      var c := LastChange(s.changes[n - 1], |s.changes[n - 1]|, id, p);
      if c.Some? then c else Newest(s, n - 1, id, p)
  }

  function Any<D>(d: D): bool { true }

  function NewestOf<D>(s: Stream<D>, n: nat, id: string): Option<Change<D>>
    requires n <= |s.changes|
  {
    Newest(s, n, id, Any<D>)
  }

  function NewestConverting<D, O>(s: Stream<D>, n: nat, id: string, convert: D -> Option<O>): Option<Change<D>>
    requires n <= |s.changes|
  {
    Newest(s, n, id, (d: D) => convert(d).Some?)
  }

  /** What a converting change leaves in the cache. */
  function Leaves<D, O>(c: Change<D>, convert: D -> Option<O>): Option<O> {
    if c.kind.DocumentRemoved? then None else convert(c.doc)
  }

  /** The cache after n snapshots. */
  function CacheAfter<D, O>(list: map<string, O>, s: Stream<D>, n: nat, convert: D -> Option<O>): map<string, O>
    requires n <= |s.changes|
  {
    ApplyAll(list, AllEvents(s.changes, n, convert))
  }

  lemma SettleOne<D, O>(cache: map<string, O>, c: Change<D>, id: string, convert: D -> Option<O>)
    ensures At(Settle(cache, c, convert), id) ==
            if c.id == id && convert(c.doc).Some? then Leaves(c, convert) else At(cache, id)
  {
  }

  lemma {:induction false} SettledAt<D, O>(
    cache: map<string, O>, changes: seq<Change<D>>, k: nat, id: string, convert: D -> Option<O>, p: D -> bool)
    requires k <= |changes| && forall d :: p(d) == convert(d).Some?
    ensures At(SettleAll(cache, changes, k, convert), id) ==
            var c := LastChange(changes, k, id, p); if c.Some? then Leaves(c.value, convert) else At(cache, id)
  {
    if k > 0 {
      SettledAt(cache, changes, k - 1, id, convert, p);
      SettleOne(SettleAll(cache, changes, k - 1, convert), changes[k - 1], id, convert);
    }
  }

  // One more snapshot settles its changes.
  lemma CacheNext<D, O>(list: map<string, O>, s: Stream<D>, n: nat, convert: D -> Option<O>)
    requires n < |s.changes|
    ensures CacheAfter(list, s, n + 1, convert) ==
            SettleAll(CacheAfter(list, s, n, convert), s.changes[n], |s.changes[n]|, convert)
  {
    var changes := s.changes[n];
    ApplyConcat(list, AllEvents(s.changes, n, convert), EventsOf(changes, |changes|, convert));
    EventsSettle(CacheAfter(list, s, n, convert), changes, |changes|, convert);
  }

  lemma {:induction false} CachedAt<D, O>(
    list: map<string, O>, s: Stream<D>, n: nat, id: string, convert: D -> Option<O>, p: D -> bool)
    requires n <= |s.changes| && forall d :: p(d) == convert(d).Some?
    ensures At(CacheAfter(list, s, n, convert), id) ==
            var c := Newest(s, n, id, p); if c.Some? then Leaves(c.value, convert) else At(list, id)
  {
    if n > 0 {
      CachedAt(list, s, n - 1, id, convert, p);
      CacheNext(list, s, n - 1, convert);
      SettledAt(CacheAfter(list, s, n - 1, convert), s.changes[n - 1], |s.changes[n - 1]|, id, convert, p);
    }
  }

  /** With no premise on what converts: an entry is what the newest converting change of its document
      leaves, or the list's own if there is none. */
  lemma CacheHolds<D, O>(list: map<string, O>, s: Stream<D>, n: nat, id: string, convert: D -> Option<O>)
    requires n <= |s.changes|
    ensures At(CacheAfter(list, s, n, convert), id) ==
            match NewestConverting(s, n, id, convert)
            case None => At(list, id)
            case Some(c) => Leaves(c, convert)
  {
    CachedAt(list, s, n, id, convert, (d: D) => convert(d).Some?);
  }

  lemma {:induction false} LastIsThere<D>(changes: seq<Change<D>>, k: nat, id: string)
    requires k <= |changes|
    ensures LastChange(changes, k, id, Any<D>).Some? <==> Mentions(changes, k, id)
    ensures LastChange(changes, k, id, Any<D>).Some? ==>
              exists i :: 0 <= i < k && changes[i] == LastChange(changes, k, id, Any<D>).value
  {
    if k > 0 {
      LastIsThere(changes, k - 1, id);
      if changes[k - 1].id == id {
        assert changes[k - 1] == LastChange(changes, k, id, Any<D>).value;
      }
    }
  }

  // A document's newest change tells what the last snapshot has of it.
  lemma {:induction false} NewestTells<D>(s: Stream<D>, n: nat, id: string)
    requires Faithful(s) && n <= |s.snapshots|
    ensures At(Snapshot(s, n), id) ==
            match NewestOf(s, n, id)
            case None => None
            case Some(c) => if c.kind.DocumentRemoved? then None else Some(c.doc)
  {
    if n > 0 {
      var changes := s.changes[n - 1];
      NewestTells(s, n - 1, id);
      LastIsThere(changes, |changes|, id);
      assert DiffAt(s, n - 1);
      if Mentions(changes, |changes|, id) {
        var i :| 0 <= i < |changes| && changes[i] == LastChange(changes, |changes|, id, Any<D>).value;
        assert Describes(Snapshot(s, n - 1), Snapshot(s, n), changes[i]);
      }
    }
  }

  // Among changes of distinct documents the last one of a document is its only one.
  lemma {:induction false} OnlyChange<D>(changes: seq<Change<D>>, k: nat, id: string, p: D -> bool)
    requires k <= |changes| && forall i, j | 0 <= i < j < |changes| :: changes[i].id != changes[j].id
    ensures LastChange(changes, k, id, p) ==
            var c := LastChange(changes, k, id, Any<D>); if c.Some? && p(c.value.doc) then c else None
  {
    if k > 0 {
      OnlyChange(changes, k - 1, id, p);
      LastIsThere(changes, k - 1, id);
    }
  }

  lemma {:induction false} NewestIfIt<D>(s: Stream<D>, n: nat, id: string, p: D -> bool)
    requires Faithful(s) && n <= |s.snapshots|
    ensures var c := NewestOf(s, n, id);
            c.Some? && p(c.value.doc) ==> Newest(s, n, id, p) == c
    ensures NewestOf(s, n, id).None? ==> Newest(s, n, id, p).None?
  {
    if n > 0 {
      NewestIfIt(s, n - 1, id, p);
      assert DiffAt(s, n - 1);
      OnlyChange(s.changes[n - 1], |s.changes[n - 1]|, id, p);
    }
  }

  /** A document has a change if and only if it appeared in some snapshot. */
  lemma {:induction false} ChangedIffAppeared<D>(s: Stream<D>, n: nat, id: string)
    requires Faithful(s) && n <= |s.snapshots|
    ensures NewestOf(s, n, id).Some? <==> Appears(s, n, id)
  {
    if n > 0 {
      ChangedIffAppeared(s, n - 1, id);
      AppearsNext(s, n - 1, id);
      LastIsThere(s.changes[n - 1], |s.changes[n - 1]|, id);
      NewestTells(s, n, id);
    }
  }

  /** What the changes that did convert leave of a document, or the list if none did. */
  function Leftover<D, O>(list: map<string, O>, s: Stream<D>, n: nat, id: string, convert: D -> Option<O>): Option<O>
    requires n <= |s.changes|
  {
    match NewestConverting(s, n, id, convert)
    case None => At(list, id)
    case Some(c) => Leaves(c, convert)
  }

  /** Cache agreement, exactly: after n snapshots a document is cached as the last snapshot has it if and
      only if its newest change converts, or the changes that did convert leave nothing of it. */
  lemma AgreesIff<D, O>(list: map<string, O>, s: Stream<D>, n: nat, id: string, convert: D -> Option<O>)
    requires Faithful(s) && n <= |s.snapshots|
    ensures At(CacheAfter(list, s, n, convert), id) == Converted(At(Snapshot(s, n), id), convert) <==>
            || (NewestOf(s, n, id).Some? && convert(NewestOf(s, n, id).value.doc).Some?)
            || Leftover(list, s, n, id, convert) == None
  {
    CacheHolds(list, s, n, id, convert);
    NewestTells(s, n, id);
    NewestIfIt(s, n, id, (d: D) => convert(d).Some?);
  }

  /** The other family: a document stops converting and is then removed. The removal carries the version
      that does not convert, so its event is skipped too, and the old version stays cached though nothing is there. */
  lemma RemovedStaysCached<D, O>(good: D, bad: D, convert: D -> Option<O>) returns (s: Stream<D>)
    requires convert(good).Some? && convert(bad).None?
    ensures Faithful(s) && |s.snapshots| == 3 && Snapshot(s, 3) == map[]
    ensures At(CacheAfter(map[], s, 3, convert), "a") == convert(good)
  {
    var c1, c2 := [Change(DocumentAdded, "a", good)], [Change(DocumentModified, "a", bad)];
    var c3 := [Change(DocumentRemoved, "a", bad)];
    s := Stream([map["a" := good], map["a" := bad], map[]], [c1, c2, c3]);
    assert c1[0].id == c2[0].id == c3[0].id == "a";
    assert Mentions(c1, 1, "a") && Mentions(c2, 1, "a") && Mentions(c3, 1, "a");
    assert DiffAt(s, 0) && DiffAt(s, 1) && DiffAt(s, 2);
    var p := (d: D) => convert(d).Some?;
    assert LastChange(c3, 1, "a", p) == LastChange(c3, 0, "a", p) == None;
    assert LastChange(c2, 1, "a", p) == LastChange(c2, 0, "a", p) == None;
    assert Newest(s, 3, "a", p) == Newest(s, 2, "a", p) == Newest(s, 1, "a", p) == Some(c1[0]);
    CachedAt(map[], s, 3, "a", convert, p);
  }
}
