/** The rate-limited workqueue by its documented contract, as functions on its contents. */
module WorkQueue {

  /** `queue` is in order; a key in `dirty` wants processing; `backoff` holds keys whose delay runs. */
  datatype Q<K> = Q(queue: seq<K>, dirty: set<K>, processing: set<K>, backoff: set<K>)

  predicate Valid<K(==)>(q: Q<K>) {
    && (forall k | k in q.queue :: k in q.dirty && k !in q.processing)
    && (forall k | k in q.dirty && k !in q.processing :: k in q.queue)
    && (forall i, j | 0 <= i < j < |q.queue| :: q.queue[i] != q.queue[j])
  }

  function Add<K(==)>(q: Q<K>, k: K): Q<K> {
    if k in q.dirty then q
    else q.(dirty := q.dirty + {k}, queue := if k in q.processing then q.queue else q.queue + [k])
  }

  /** Get hands out the head of a queue that has one. */
  function Take<K(==)>(q: Q<K>): (Q<K>, K)
    requires q.queue != []
  {
    var k := q.queue[0];
    (q.(queue := q.queue[1..], processing := q.processing + {k}, dirty := q.dirty - {k}), k)
  }

  function Done<K(==)>(q: Q<K>, k: K): Q<K> {
    q.(processing := q.processing - {k}, queue := if k in q.dirty && k !in q.queue then q.queue + [k] else q.queue)
  }

  function AddRateLimited<K(==)>(q: Q<K>, k: K): Q<K> {
    q.(backoff := q.backoff + {k})
  }

  /** A delay ends. */
  function Fire<K(==)>(q: Q<K>, k: K): Q<K> {
    Add(q.(backoff := q.backoff - {k}), k)
  }

  /** The queue keeps its shape, and never hands a key to two workers at once. */
  lemma OneWorkerPerKey<K>(q: Q<K>, k: K)
    requires Valid(q)
    ensures Valid(Add(q, k)) && Valid(Done(q, k)) && Valid(AddRateLimited(q, k)) && Valid(Fire(q, k))
    ensures q.queue != [] ==>
              Valid(Take(q).0) && Take(q).1 !in q.processing && Take(q).0.processing == q.processing + {Take(q).1}
  {
    AddKeeps(q, k);
    AddKeeps(q.(backoff := q.backoff - {k}), k);
  }

  lemma AddKeeps<K>(q: Q<K>, k: K)
    requires Valid(q)
    ensures Valid(Add(q, k))
  {
  }

  /** A key that is added waits, once, behind those already there, or until the worker that holds it is
      done; adding it again changes nothing. No other key is touched. */
  lemma AddedWaits<K>(q: Q<K>, k: K)
    requires Valid(q)
    ensures var q' := Add(q, k);
            && k in q'.dirty && q'.dirty - {k} == q.dirty - {k}
            && q'.processing == q.processing && q'.backoff == q.backoff
            && q.queue <= q'.queue && (forall x | x in q'.queue :: x in q.queue || x == k)
            && (k in q'.queue <==> k !in q.processing) && Add(q', k) == q'
            && (k in q.processing ==> k in Done(q', k).queue)
  {
  }

  /** First in, first out, each key once. */
  lemma FirstInFirstOut<K>(q: Q<K>)
    requires Valid(q) && q.queue != []
    ensures var (q', k) := Take(q);
            && [k] + q'.queue == q.queue && k !in q'.queue && k !in q'.dirty
            && q'.dirty == q.dirty - {k} && q'.backoff == q.backoff
  {
  }

  /** A worker that is done leaves its key queued, behind the others, if it was added meanwhile, and
      nowhere but in backoff if it was not. */
  lemma DoneReturns<K>(q: Q<K>, k: K)
    requires Valid(q) && k in q.processing
    ensures var q' := Done(q, k);
            && k !in q'.processing && q'.processing + {k} == q.processing
            && q'.queue == (if k in q.dirty then q.queue + [k] else q.queue)
            && q'.dirty == q.dirty && q'.backoff == q.backoff
  {
  }
}
