/** One batch of the delegate: the dispatch loop that numbers the queued raw
    frames, the conversion tasks that insert into the reorder cache
    `temp_cache` in whatever order they finish, and the drain that walks the
    keys upwards into the output deque. */
module ReorderCache {
  import opened Frames

  /** A conversion task with its private copies of the key and the raw frame. */
  datatype Task = Task(key: nat, frame: RawFrame)

  /** `temp_cache`: batch key to converted frame. */
  type Cache = map<nat, Frame>

  /** The dispatch loop: pops the raw queue front-first, hands each frame to a
      task keyed with the current counter, and increments the counter.
      Returns the tasks in dispatch order and the final counter. */
  function Dispatch(queue: seq<RawFrame>, frameCount: nat): (r: (seq<Task>, nat))
    ensures r.1 == frameCount + |queue|
    ensures |r.0| == |queue|
    ensures forall i :: 0 <= i < |queue| ==> r.0[i] == Task(frameCount + i, queue[i])
    decreases |queue|
  {
    if queue == [] then ([], frameCount)
    else
      var (rest, count) := Dispatch(queue[1..], frameCount + 1);
      ([Task(frameCount, queue[0])] + rest, count)
  }

  /** A completion order for a batch of `n` tasks: the keys of the tasks in
      the order they reach the cache, each task at most once. */
  ghost predicate IsSchedule(order: seq<nat>, n: nat) {
    && (forall j :: 0 <= j < |order| ==> order[j] < n)
    && (forall i, j :: 0 <= i < j < |order| ==> order[i] != order[j])
  }

  /** Every task of a batch of `n` reached the cache. */
  ghost predicate InsertsAll(order: seq<nat>, n: nat) {
    forall k :: 0 <= k < n ==> k in order
  }

  /** One task finishing: its converted frame is added under its key. */
  function Insert(cache: Cache, t: Task, convert: Converter): Cache {
    cache[t.key := convert(t.frame)]
  }

  /** The tasks finishing in `order` (first element first) before the join.
      Whatever the order, the cache ends up holding exactly the converted
      frame of every finished task, and the old entries under other keys. */
  function Complete(cache: Cache, tasks: seq<Task>, order: seq<nat>, convert: Converter): (r: Cache)
    requires forall k :: k in order ==> k < |tasks|
    requires forall i :: 0 <= i < |tasks| ==> tasks[i].key == i
    ensures forall k :: k in r <==> k in cache || k in order
    ensures forall k :: k in order ==> r[k] == convert(tasks[k].frame)
    ensures forall k :: k in r && k !in order ==> r[k] == cache[k]
    decreases |order|
  {
    if order == [] then cache
    else
      assert order[0] in order;
      assert forall k :: k in order[1..] ==> k in order;
      Complete(Insert(cache, tasks[order[0]], convert), tasks, order[1..], convert)
  }

  ghost predicate StrictlyIncreasing(ks: seq<nat>) {
    forall i, j :: 0 <= i < j < |ks| ==> ks[i] < ks[j]
  }

  /** The keys the drain finds, in the order it visits them: it tries
      0, 1, ..., count-1 and skips the absent ones. */
  function DrainKeys(cache: Cache, count: nat): (ks: seq<nat>)
    ensures forall i :: 0 <= i < |ks| ==> ks[i] in cache && ks[i] < count
    ensures forall k {:trigger k in ks} :: k in cache && k < count ==> k in ks
  {
    if count == 0 then []
    else DrainKeys(cache, count - 1) + (if count - 1 in cache then [count - 1] else [])
  }

  /** The frames the drain appends to the output deque: the cache entries
      under the keys below `count`, in increasing key order. */
  function Drain(cache: Cache, count: nat): (fs: seq<Frame>)
    ensures |fs| == |DrainKeys(cache, count)|
    ensures forall i :: 0 <= i < |fs| ==> fs[i] == cache[DrainKeys(cache, count)[i]]
  {
    if count == 0 then []
    else Drain(cache, count - 1) + (if count - 1 in cache then [cache[count - 1]] else [])
  }

  /** The drain visits the keys in strictly increasing order. */
  lemma {:induction false} DrainKeysIncreasing(cache: Cache, count: nat)
    ensures StrictlyIncreasing(DrainKeys(cache, count))
  {
    if count > 0 {
      DrainKeysIncreasing(cache, count - 1);
      var ks := DrainKeys(cache, count - 1);
      if count - 1 in cache {
        var ks' := ks + [count - 1];
        forall i, j | 0 <= i < j < |ks'|
          ensures ks'[i] < ks'[j]
        {
          if j == |ks| {
            assert ks[i] < count - 1;
          }
        }
      } else {
        assert DrainKeys(cache, count) == ks;
      }
    }
  }

  /** There is only one increasing enumeration of a set of keys, so
      DrainKeysIncreasing and the contract of DrainKeys pin its result down
      completely. */
  lemma {:induction false} IncreasingEnumerationUnique(a: seq<nat>, b: seq<nat>)
    requires StrictlyIncreasing(a) && StrictlyIncreasing(b)
    requires forall k :: k in a <==> k in b
    ensures a == b
    decreases |a|
  {
    assert |b| > 0 ==> b[0] in a;
    if |a| > 0 {
      assert a[0] in b;
      assert |b| > 0;
      assert b[0] in a;
      assert a[0] == b[0];
      forall k
        ensures k in a[1..] <==> k in b[1..]
      {
        if k in a[1..] {
          assert k in a && k != a[0];
        }
        if k in b[1..] {
          assert k in b && k != b[0];
        }
      }
      IncreasingEnumerationUnique(a[1..], b[1..]);
      assert a == [a[0]] + a[1..];
      assert b == [b[0]] + b[1..];
    }
  }

  /** When every key below `count` is present, the drain visits them all. */
  lemma {:induction false} DrainKeysAllPresent(cache: Cache, count: nat)
    requires forall k :: 0 <= k < count ==> k in cache
    ensures |DrainKeys(cache, count)| == count
    ensures forall i :: 0 <= i < count ==> DrainKeys(cache, count)[i] == i
  {
    if count > 0 {
      DrainKeysAllPresent(cache, count - 1);
      var ks, ks' := DrainKeys(cache, count - 1), DrainKeys(cache, count);
      assert ks' == ks + [count - 1];
      forall i | 0 <= i < count
        ensures ks'[i] == i
      {
        if i < count - 1 {
          assert ks'[i] == ks[i];
        }
      }
    }
  }

  /** A cache holding the converted frame of every batch position yields
      the converted batch, in arrival order, when drained. */
  lemma DrainFullBatch(cache: Cache, batch: seq<RawFrame>, convert: Converter)
    requires forall k :: 0 <= k < |batch| ==> k in cache && cache[k] == convert(batch[k])
    ensures Drain(cache, |batch|) == ConvertAll(convert, batch)
  {
    DrainKeysAllPresent(cache, |batch|);
  }

  /** Order restoration for a full batch: whatever order the tasks finished
      in, once every task has inserted, the drain yields the converted batch
      in arrival order. Leftover cache entries do not matter, because every
      key of the batch is overwritten. */
  lemma CompleteBatchInArrivalOrder(cache: Cache, batch: seq<RawFrame>, order: seq<nat>, convert: Converter)
    requires IsSchedule(order, |batch|)
    requires InsertsAll(order, |batch|)
    ensures Drain(Complete(cache, Dispatch(batch, 0).0, order, convert), |batch|) == ConvertAll(convert, batch)
  {
    var tasks := Dispatch(batch, 0).0;
    var c := Complete(cache, tasks, order, convert);
    DrainFullBatch(c, batch, convert);
  }

  /** Order restoration when some tasks never reached the cache: starting
      from an empty cache, the drain yields the converted frames of exactly
      the tasks that finished, in arrival order. */
  lemma PartialBatchInArrivalOrder(batch: seq<RawFrame>, order: seq<nat>, convert: Converter)
    requires IsSchedule(order, |batch|)
    ensures var c := Complete(map[], Dispatch(batch, 0).0, order, convert);
      var ks := DrainKeys(c, |batch|);
      && (forall k :: k in ks <==> k in order)
      && |Drain(c, |batch|)| == |ks|
      && (forall i :: 0 <= i < |ks| ==> Drain(c, |batch|)[i] == convert(batch[ks[i]]))
  {
    var tasks := Dispatch(batch, 0).0;
    var c := Complete(map[], tasks, order, convert);
    var ks := DrainKeys(c, |batch|);
    forall k
      ensures k in ks <==> k in order
    {
      if k in ks {
        var i :| 0 <= i < |ks| && ks[i] == k;
        assert ks[i] in c;
      }
    }
  }

  /** The cache after the join depends only on which tasks finished, not on
      the order in which they finished. */
  lemma CompletionOrderIrrelevant(cache: Cache, tasks: seq<Task>, order1: seq<nat>, order2: seq<nat>, convert: Converter)
    requires forall i :: 0 <= i < |tasks| ==> tasks[i].key == i
    requires forall k :: k in order1 ==> k < |tasks|
    requires forall k :: k in order1 <==> k in order2
    ensures Complete(cache, tasks, order1, convert) == Complete(cache, tasks, order2, convert)
  {
  }
}
