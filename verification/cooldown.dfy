/** internal/controllerutils/cooldown.go over a bounded least-recently-used cache. */
module Cooldown {

  datatype Entry<K> = Entry(key: K, next: int)

  /** Position of a key's entry, newest first, or |es|. */
  function Index<K(==)>(es: seq<Entry<K>>, k: K): (i: nat)
    ensures i <= |es| && (i < |es| ==> es[i].key == k)
    ensures forall j | 0 <= j < i :: es[j].key != k
  {
    if es == [] || es[0].key == k then 0 else 1 + Index(es[1..], k)
  }

  /** The cache without its entry at i, if there is one. */
  function Without<K>(es: seq<Entry<K>>, i: nat): seq<Entry<K>> {
    if i < |es| then es[..i] + es[i + 1..] else es
  }

  /** lru.Get: a hit becomes the newest entry. */
  function Touch<K(==)>(es: seq<Entry<K>>, k: K): seq<Entry<K>> {
    var i := Index(es, k);
    if i == |es| then es else [es[i]] + Without(es, i)
  }

  /** The entry an lru.Add of this key displaces: its own, or beyond the capacity (0 means none) the
      oldest, or none. */
  function Displaced<K(==)>(es: seq<Entry<K>>, k: K, capacity: nat): nat {
    var i := Index(es, k);
    if i == |es| && 0 < capacity <= |es| then |es| - 1 else i
  }

  /** lru.Add: the key becomes the newest entry. */
  function Put<K(==)>(es: seq<Entry<K>>, k: K, next: int, capacity: nat): seq<Entry<K>> {
    [Entry(k, next)] + Without(es, Displaced(es, k, capacity))
  }

  function Allowed<K(==)>(es: seq<Entry<K>>, k: K, now: int): bool {
    var i := Index(es, k);
    i == |es| || now > es[i].next
  }

  function Query<K(==)>(es: seq<Entry<K>>, k: K, now: int, duration: int, capacity: nat): seq<Entry<K>> {
    if Allowed(es, k, now) then Put(Touch(es, k), k, now + duration, capacity) else Touch(es, k)
  }

  class CooldownChecker<K(==)> {
    const duration: int
    const capacity: nat
    var nextExecTime: seq<Entry<K>>

    constructor (duration: int)
      ensures this.duration == duration && capacity == 1000000 && nextExecTime == []
    {
      this.duration := duration;
      capacity := 1000000;
      nextExecTime := [];
    }

    method CanSync(key: K, now: int) returns (allowed: bool)
      modifies this
      ensures allowed == Allowed(old(nextExecTime), key, now)
      ensures nextExecTime == Query(old(nextExecTime), key, now, duration, capacity)
    {
      var i := Index(nextExecTime, key);
      var ok := i < |nextExecTime|;
      var next := if ok then nextExecTime[i].next else 0;
      nextExecTime := Touch(nextExecTime, key);
      if !ok || now > next {
        nextExecTime := Put(nextExecTime, key, now + duration, capacity);
        return true;
      }
      return false;
    }
  }

  /* ---- Runs of queries ---- */

  datatype Asked<K> = Asked(key: K, now: int)

  /** A run from an empty cache: the queries, and the cache before each of them and at the end. */
  datatype Log<K> = Log(qs: seq<Asked<K>>, caches: seq<seq<Entry<K>>>, duration: int, capacity: nat)

  ghost predicate StepAt<K>(l: Log<K>, n: nat)
    requires n < |l.qs| && |l.caches| == |l.qs| + 1
  {
    l.caches[n + 1] == Query(l.caches[n], l.qs[n].key, l.qs[n].now, l.duration, l.capacity)
  }

  ghost predicate Run<K>(l: Log<K>) {
    |l.caches| == |l.qs| + 1 && l.caches[0] == [] && forall n | 0 <= n < |l.qs| :: StepAt(l, n)
  }

  /** Whether query n was answered true. */
  ghost predicate Result<K>(l: Log<K>, n: nat)
    requires n < |l.qs| && |l.caches| == |l.qs| + 1
  {
    Allowed(l.caches[n], l.qs[n].key, l.qs[n].now)
  }

  /** i is the last true answer for its key before n. */
  ghost predicate LastTrue<K>(l: Log<K>, i: nat, k: K, n: nat)
    requires n <= |l.qs| && |l.caches| == |l.qs| + 1
  {
    && i < n && l.qs[i].key == k && Result(l, i)
    && forall j | i < j < n && l.qs[j].key == k :: !Result(l, j)
  }

  ghost predicate Distinct<K>(es: seq<Entry<K>>) {
    forall i, j | 0 <= i < j < |es| :: es[i].key != es[j].key
  }

  lemma IndexUnique<K>(es: seq<Entry<K>>, k: K, i: nat)
    requires i < |es| && es[i].key == k && forall j | 0 <= j < i :: es[j].key != k
    ensures Index(es, k) == i
  {
  }

  /** What a query leaves: the key's entry in front, new or as it was, and the others in their order,
      but for the displaced one. */
  lemma QueryForm<K>(es: seq<Entry<K>>, k: K, now: int, duration: int, capacity: nat)
    ensures Query(es, k, now, duration, capacity) ==
            [if Allowed(es, k, now) then Entry(k, now + duration) else es[Index(es, k)]]
            + Without(es, Displaced(es, k, capacity))
  {
    var i := Index(es, k);
    if i < |es| {
      IndexUnique(Touch(es, k), k, 0);
      assert Without(Touch(es, k), 0) == Without(es, i);
    }
  }

  lemma WithoutShape<K>(es: seq<Entry<K>>, i: nat)
    requires Distinct(es)
    ensures Distinct(Without(es, i))
    ensures forall e | e in Without(es, i) :: e in es && (i < |es| ==> e.key != es[i].key)
  {
    var w := Without(es, i);
    assert forall a | 0 <= a < |w| :: w[a] == if a < i then es[a] else es[a + 1];
  }

  lemma QueryShape<K>(es: seq<Entry<K>>, k: K, now: int, duration: int, capacity: nat)
    requires Distinct(es)
    ensures var es' := Query(es, k, now, duration, capacity);
            Distinct(es') && forall e | e in es' ::
              if e.key == k && Allowed(es, k, now) then e.next == now + duration else e in es
  {
    var drop := Displaced(es, k, capacity);
    QueryForm(es, k, now, duration, capacity);
    WithoutShape(es, drop);
    assert forall e | e in Without(es, drop) :: e.key != k;
  }

  // An entry holds the deadline its key's last true answer set.
  ghost predicate Dated<K>(l: Log<K>, n: nat, e: Entry<K>)
    requires n <= |l.qs| && |l.caches| == |l.qs| + 1
  {
    exists i: nat :: LastTrue(l, i, e.key, n) && e.next == l.qs[i].now + l.duration
  }

  lemma DatedStays<K>(l: Log<K>, n: nat, e: Entry<K>)
    requires n < |l.qs| && |l.caches| == |l.qs| + 1 && Dated(l, n, e)
    requires l.qs[n].key == e.key ==> !Result(l, n)
    ensures Dated(l, n + 1, e)
  {
    var i: nat :| LastTrue(l, i, e.key, n) && e.next == l.qs[i].now + l.duration;
    assert LastTrue(l, i, e.key, n + 1);
  }

  lemma {:induction false} CachesAreDated<K>(l: Log<K>, n: nat)
    requires Run(l) && n <= |l.qs|
    ensures Distinct(l.caches[n])
    ensures forall e | e in l.caches[n] :: Dated(l, n, e)
  {
    if n > 0 {
      var m := n - 1;
      CachesAreDated(l, m);
      assert StepAt(l, m);
      QueryShape(l.caches[m], l.qs[m].key, l.qs[m].now, l.duration, l.capacity);
      forall e | e in l.caches[n] ensures Dated(l, n, e) {
        if e.key == l.qs[m].key && Result(l, m) {
          assert LastTrue(l, m, e.key, n);
        } else {
          DatedStays(l, m, e);
        }
      }
    }
  }

  /** Every false is justified: the key's last true answer lies within the cooldown, whatever was
      evicted and however many falses came in between. So a false never postpones the next true. */
  lemma FalseIsJustified<K>(l: Log<K>, n: nat) returns (i: nat)
    requires Run(l) && n < |l.qs| && !Result(l, n)
    ensures LastTrue(l, i, l.qs[n].key, n) && l.qs[n].now <= l.qs[i].now + l.duration
  {
    CachesAreDated(l, n);
    var e := l.caches[n][Index(l.caches[n], l.qs[n].key)];
    assert Dated(l, n, e);
    i :| LastTrue(l, i, e.key, n) && e.next == l.qs[i].now + l.duration;
  }

  /** The other keys asked about after query i and before query n. */
  ghost function Others<K>(l: Log<K>, i: nat, n: nat, k: K): set<K>
    requires n <= |l.qs|
  {
    set j | i < j < n && l.qs[j].key != k :: l.qs[j].key
  }

  /** m is the last query about its key before n. */
  ghost predicate LastAsked<K>(l: Log<K>, m: nat, k: K, n: nat)
    requires n <= |l.qs|
  {
    m < n && l.qs[m].key == k && forall j | m < j < n :: l.qs[j].key != k
  }

  ghost function Keys<K>(es: seq<Entry<K>>, p: nat): set<K>
    requires p <= |es|
  {
    set a | 0 <= a < p :: es[a].key
  }

  lemma {:induction false} KeysCount<K>(es: seq<Entry<K>>, p: nat)
    requires Distinct(es) && p <= |es|
    ensures |Keys(es, p)| == p
  {
    if p == 0 {
      assert Keys(es, 0) == {};
    } else {
      KeysCount(es, p - 1);
      assert Keys(es, p) == Keys(es, p - 1) + {es[p - 1].key};
    }
  }

  // Either the key's entry stands behind exactly the keys of `others`, or as many of them as fit have
  // pushed it out.
  ghost predicate Behind<K>(es: seq<Entry<K>>, k: K, others: set<K>, capacity: nat) {
    if Index(es, k) < |es| then Keys(es, Index(es, k)) == others else 0 < capacity <= |others|
  }

  lemma QueryBounds<K>(es: seq<Entry<K>>, x: K, now: int, duration: int, capacity: nat)
    requires capacity > 0 ==> |es| <= capacity
    ensures capacity > 0 ==> |Query(es, x, now, duration, capacity)| <= capacity
  {
    QueryForm(es, x, now, duration, capacity);
  }

  lemma OwnQuery<K>(es: seq<Entry<K>>, k: K, now: int, duration: int, capacity: nat)
    ensures Behind(Query(es, k, now, duration, capacity), k, {}, capacity)
  {
    QueryForm(es, k, now, duration, capacity);
    IndexUnique(Query(es, k, now, duration, capacity), k, 0);
  }

  // A query about another key puts that one in front.
  lemma OtherQuery<K>(es: seq<Entry<K>>, k: K, x: K, now: int, duration: int, capacity: nat, others: set<K>)
    requires Distinct(es) && (capacity > 0 ==> |es| <= capacity) && x != k && Behind(es, k, others, capacity)
    ensures Behind(Query(es, x, now, duration, capacity), k, others + {x}, capacity)
  {
    var drop, p := Displaced(es, x, capacity), Index(es, k);
    var es' := Query(es, x, now, duration, capacity);
    QueryForm(es, x, now, duration, capacity);
    if p < |es| && drop != p {
      MovesBack(es, k, p, drop, es'[0]);
      assert es' == [es'[0]] + Without(es, drop);
    } else if p < |es| {
      PushedOut(es, k, p, es', x);
      KeysCount(es, p);
    } else {
      StaysOut(es, k, drop, es');
      if x in others { assert others + {x} == others; }
    }
  }

  lemma WithoutAt<K>(es: seq<Entry<K>>, drop: nat, a: nat)
    requires a < |es| && a != drop
    ensures var b := if drop < a then a - 1 else a;
            b < |Without(es, drop)| && Without(es, drop)[b] == es[a]
  {
  }

  // What stands before a position after one entry has left.
  lemma KeysWithout<K>(es: seq<Entry<K>>, drop: nat, p: nat)
    requires Distinct(es) && p < |es| && p != drop
    ensures drop < p ==> Keys(Without(es, drop), p - 1) == Keys(es, p) - {es[drop].key}
    ensures drop > p ==> p <= |Without(es, drop)| && Keys(Without(es, drop), p) == Keys(es, p)
  {
    var w := Without(es, drop);
    assert forall a | 0 <= a < |w| :: w[a] == if a < drop then es[a] else es[a + 1];
    if drop < p {
      forall a | 0 <= a < p && a != drop ensures es[a].key in Keys(w, p - 1) {
        assert w[if drop < a then a - 1 else a] == es[a];
      }
    } else {
      assert forall a | 0 <= a < p :: w[a] == es[a];
      assert drop > p ==> p <= |w|;
    }
  }

  lemma KeysOfRest<K>(head: Entry<K>, rest: seq<Entry<K>>, p: nat)
    requires p <= |rest|
    ensures Keys([head] + rest, p + 1) == Keys(rest, p) + {head.key}
  {
    var es := [head] + rest;
    assert forall a | 0 <= a < p :: es[a + 1] == rest[a];
    forall k | k in Keys(rest, p) ensures k in Keys(es, p + 1) {
      var a :| 0 <= a < p && rest[a].key == k;
      assert es[a + 1].key == k;
    }
    assert es[0].key in Keys(es, p + 1);
  }

  lemma MovesBack<K>(es: seq<Entry<K>>, k: K, p: nat, drop: nat, head: Entry<K>)
    requires Distinct(es) && p < |es| && es[p].key == k && p != drop && head.key != k
    requires drop < p ==> es[drop].key == head.key
    ensures var es' := [head] + Without(es, drop);
            Index(es', k) < |es'| && Keys(es', Index(es', k)) == Keys(es, p) + {head.key}
  {
    var w := Without(es, drop);
    var es', q := [head] + w, if drop < p then p - 1 else p;
    WithoutShape(es, drop);
    WithoutAt(es, drop, p);
    KeysWithout(es, drop, p);
    KeysOfRest(head, w, q);
    assert es'[q + 1] == w[q];
    IndexOfRest(head, w, k, q);
  }

  lemma IndexOfRest<K>(head: Entry<K>, rest: seq<Entry<K>>, k: K, q: nat)
    requires Distinct(rest) && q < |rest| && rest[q].key == k && head.key != k
    ensures Index([head] + rest, k) == q + 1
  {
    IndexUnique([head] + rest, k, q + 1);
  }

  lemma PushedOut<K>(es: seq<Entry<K>>, k: K, p: nat, es': seq<Entry<K>>, x: K)
    requires Distinct(es) && p < |es| && es[p].key == k && x != k
    requires es' != [] && es' == [es'[0]] + Without(es, p) && es'[0].key == x
    ensures Index(es', k) == |es'|
  {
  }

  lemma StaysOut<K>(es: seq<Entry<K>>, k: K, drop: nat, es': seq<Entry<K>>)
    requires Index(es, k) == |es|
    requires es' != [] && es' == [es'[0]] + Without(es, drop) && es'[0].key != k
    ensures Index(es', k) == |es'|
  {
  }

  lemma OthersGrow<K>(l: Log<K>, m: nat, i: nat, k: K)
    requires m < i < |l.qs| && l.qs[i].key != k
    ensures Others(l, m, i + 1, k) == Others(l, m, i, k) + {l.qs[i].key}
  {
  }

  lemma NextBehind<K>(l: Log<K>, m: nat, i: nat, k: K)
    requires Run(l) && m < i < |l.qs| && l.qs[i].key != k && Behind(l.caches[i], k, Others(l, m, i, k), l.capacity)
    ensures Behind(l.caches[i + 1], k, Others(l, m, i + 1, k), l.capacity)
  {
    assert StepAt(l, i);
    CachesAreDated(l, i);
    CachesAreBounded(l, i);
    OthersGrow(l, m, i, k);
    OtherQuery(l.caches[i], k, l.qs[i].key, l.qs[i].now, l.duration, l.capacity, Others(l, m, i, k));
  }

  // The cache holds the keys asked about last, in the order of their last queries.
  lemma {:induction false} HoldsTheLatest<K>(l: Log<K>, m: nat, k: K, n: nat)
    requires Run(l) && n <= |l.qs| && LastAsked(l, m, k, n)
    ensures Behind(l.caches[n], k, Others(l, m, n, k), l.capacity)
  {
    if n == m + 1 {
      assert StepAt(l, m);
      OwnQuery(l.caches[m], k, l.qs[m].now, l.duration, l.capacity);
      assert Others(l, m, n, k) == {};
    } else {
      HoldsTheLatest(l, m, k, n - 1);
      NextBehind(l, m, n - 1, k);
    }
  }

  /** The cache never outgrows its capacity. */
  lemma {:induction false} CachesAreBounded<K>(l: Log<K>, n: nat)
    requires Run(l) && n <= |l.qs|
    ensures l.capacity > 0 ==> |l.caches[n]| <= l.capacity
  {
    if n > 0 {
      CachesAreBounded(l, n - 1);
      assert StepAt(l, n - 1);
      QueryBounds(l.caches[n - 1], l.qs[n - 1].key, l.qs[n - 1].now, l.duration, l.capacity);
    }
  }

  /** A key never asked about before is answered true. */
  lemma FirstIsTrue<K>(l: Log<K>, n: nat)
    requires Run(l) && n < |l.qs| && forall j | 0 <= j < n :: l.qs[j].key != l.qs[n].key
    ensures Result(l, n)
  {
    CachesAreDated(l, n);
    if !Result(l, n) {
      var i := FalseIsJustified(l, n);
    }
  }

  /** And so a key asked about before has a last true answer. */
  lemma {:induction false} SomeTrue<K>(l: Log<K>, m: nat, k: K, n: nat) returns (i: nat)
    requires Run(l) && n <= |l.qs| && m < n && l.qs[m].key == k
    ensures LastTrue(l, i, k, n)
    decreases n
  {
    if l.qs[n - 1].key == k && Result(l, n - 1) {
      i := n - 1;
    } else if m < n - 1 {
      i := SomeTrue(l, m, k, n - 1);
    } else {
      i := FalseIsJustified(l, m);
    }
  }

  /** Every answer, exactly: a key asked about before is answered true when strictly more than the
      cooldown has passed since its last true, or when, since it was last asked about, so many other
      keys were that they fill the cache; and otherwise false. */
  lemma TrueIff<K>(l: Log<K>, m: nat, i: nat, n: nat)
    requires Run(l) && n < |l.qs| && LastAsked(l, m, l.qs[n].key, n) && LastTrue(l, i, l.qs[n].key, n)
    ensures Result(l, n) <==>
            || l.qs[n].now > l.qs[i].now + l.duration
            || 0 < l.capacity <= |Others(l, m, n, l.qs[n].key)|
  {
    var es, k := l.caches[n], l.qs[n].key;
    HoldsTheLatest(l, m, k, n);
    CachesAreDated(l, n);
    CachesAreBounded(l, n);
    if Index(es, k) < |es| {
      var e := es[Index(es, k)];
      KeysCount(es, Index(es, k));
      assert Dated(l, n, e);
      DatesAgree(l, n, e, i);
    }
  }

  lemma DatesAgree<K>(l: Log<K>, n: nat, e: Entry<K>, i: nat)
    requires n <= |l.qs| && |l.caches| == |l.qs| + 1 && Dated(l, n, e) && LastTrue(l, i, e.key, n)
    ensures e.next == l.qs[i].now + l.duration
  {
    var j: nat :| LastTrue(l, j, e.key, n) && e.next == l.qs[j].now + l.duration;
    assert i == j;
  }
}
