/** The batch-and-flush loop that `BuildIndex` and `DeleteDocuments` share:
    each item goes into the open batch, the batch is submitted after every
    100th item, and a non-empty remainder is submitted at the end. */
module Batching {
  import opened Wrappers

  /** IndexingBatchSize / indexingBatchSize. */
  const BatchSize: nat := 100

  /** Where a batched submission stopped: adding item `item` to the batch, or
      submitting the batch numbered `flush` (counting from 0). */
  datatype BatchError = AddFailed(item: nat) | FlushFailed(flush: nat)

  /** `s` cut into consecutive batches of `BatchSize`, the last one possibly
      shorter. */
  function Chunks<T>(s: seq<T>): seq<seq<T>>
    decreases |s|
  {
    if s == [] then [] else if |s| <= BatchSize then [s] else [s[..BatchSize]] + Chunks(s[BatchSize..])
  }

  function Flatten<T>(ss: seq<seq<T>>): seq<T>
  {
    if ss == [] then [] else ss[0] + Flatten(ss[1..])
  }

  /** The chunks hold every item once and in order. */
  lemma {:induction false} ChunksFlatten<T>(s: seq<T>)
    ensures Flatten(Chunks(s)) == s
    decreases |s|
  {
    if |s| > BatchSize {
      ChunksFlatten(s[BatchSize..]);
      assert s == s[..BatchSize] + s[BatchSize..];
    }
  }

  /** Every chunk is non-empty and at most `BatchSize` long, and all but the last are
      exactly `BatchSize` long. */
  lemma {:induction false} ChunksSizes<T>(s: seq<T>)
    ensures forall k :: 0 <= k < |Chunks(s)| ==> 0 < |Chunks(s)[k]| <= BatchSize
    ensures forall k :: 0 <= k < |Chunks(s)| - 1 ==> |Chunks(s)[k]| == BatchSize
    decreases |s|
  {
    if |s| > BatchSize {
      ChunksSizes(s[BatchSize..]);
      assert Chunks(s) == [s[..BatchSize]] + Chunks(s[BatchSize..]);
    }
  }

  /** Cutting a whole number of chunks first and the rest afterwards gives the
      same chunks as cutting the whole. */
  lemma {:induction false} ChunksAppend<T>(a: seq<T>, b: seq<T>)
    requires |a| % BatchSize == 0
    ensures Chunks(a + b) == Chunks(a) + Chunks(b)
    decreases |a|
  {
    if a == [] {
      assert a + b == b;
    } else {
      assert |a| >= BatchSize;
      var rest := a[BatchSize..];
      assert |rest| % BatchSize == 0;
      ChunksAppend(rest, b);
      assert (a + b)[..BatchSize] == a[..BatchSize];
      assert (a + b)[BatchSize..] == rest + b;
      if |a| == BatchSize {
        assert Chunks(a) == [a];
        assert rest == [];
        if b == [] {
          assert a + b == a;
        } else {
          assert Chunks(a + b) == [(a + b)[..BatchSize]] + Chunks((a + b)[BatchSize..]);
          assert (a + b)[BatchSize..] == b;
        }
      } else {
        assert Chunks(a) == [a[..BatchSize]] + Chunks(rest);
        assert Chunks(a + b) == [(a + b)[..BatchSize]] + Chunks((a + b)[BatchSize..]);
        assert Chunks(a + b) == [a[..BatchSize]] + (Chunks(rest) + Chunks(b));
      }
    }
  }

  /** Closing the open batch `items[start..start + BatchSize]`: it becomes the next
      chunk both of the prefix read so far and of the unread suffix. */
  lemma {:induction false} CloseBatch<T>(items: seq<T>, start: nat)
    requires start % BatchSize == 0 && start + BatchSize <= |items|
    ensures Chunks(items[..start + BatchSize]) == Chunks(items[..start]) + [items[start..start + BatchSize]]
    ensures Chunks(items[start..]) == [items[start..start + BatchSize]] + Chunks(items[start + BatchSize..])
  {
    var b := items[start..start + BatchSize];
    assert Chunks(b) == [b];
    ChunksAppend(items[..start], b);
    assert items[..start] + b == items[..start + BatchSize];
    ChunksAppend(b, items[start + BatchSize..]);
    assert b + items[start + BatchSize..] == items[start..];
  }

  lemma {:induction false} SplitAtBatch<T>(items: seq<T>, start: nat)
    requires start % BatchSize == 0 && start <= |items|
    ensures Chunks(items) == Chunks(items[..start]) + Chunks(items[start..])
  {
    ChunksAppend(items[..start], items[start..]);
    assert items[..start] + items[start..] == items;
  }

  /** `e` is the first failure of a run over `items` that submitted `done`
      batches: item `j` is added before batch `j / BatchSize` is submitted,
      and batch `k` is submitted after its last item is added, so nothing
      that came earlier failed. */
  predicate FirstFailure<T>(items: seq<T>, addFails: set<nat>, flushFails: set<nat>, done: nat, e: BatchError)
  {
    match e
    case AddFailed(j) =>
      && j < |items| && j in addFails && done * BatchSize <= j < (done + 1) * BatchSize
      && (forall j' :: 0 <= j' < j ==> j' !in addFails)
      && (forall k :: 0 <= k < done ==> k !in flushFails)
    case FlushFailed(k) =>
      && k < |Chunks(items)| && k in flushFails && k == done
      && (forall k' :: 0 <= k' < k ==> k' !in flushFails)
      && (forall j :: 0 <= j < |items| && j < (k + 1) * BatchSize ==> j !in addFails)
  }

  /** Submits `items` in batches of `BatchSize`. Adding item `j` to the batch
      fails iff `j` is in `addFails`; submitting batch `k` fails iff `k` is in
      `flushFails`. `flushed` holds the batches submitted successfully, in
      order; the first failure ends the run. */
  method SubmitInBatches<T>(items: seq<T>, addFails: set<nat>, flushFails: set<nat>)
    returns (flushed: seq<seq<T>>, r: Outcome<BatchError>)
    ensures |flushed| <= |Chunks(items)|
    ensures flushed == Chunks(items)[..|flushed|]
    ensures r.Pass? <==> (forall j :: 0 <= j < |items| ==> j !in addFails)
                         && (forall k :: 0 <= k < |Chunks(items)| ==> k !in flushFails)
    ensures r.Pass? ==> flushed == Chunks(items)
    ensures r.Fail? ==> FirstFailure(items, addFails, flushFails, |flushed|, r.error)
  {
    flushed := [];
    var batch: seq<T> := [];
    var start, i := 0, 0;
    assert items[0..] == items;
    while i < |items|
      invariant start <= i <= |items| && i - start < BatchSize
      invariant start == |flushed| * BatchSize && start % BatchSize == 0
      invariant flushed == Chunks(items[..start])
      invariant batch == items[start..i]
      invariant forall j :: 0 <= j < i ==> j !in addFails
      invariant forall k :: 0 <= k < |flushed| ==> k !in flushFails
    {
      if i in addFails {
        SplitAtBatch(items, start);
        return flushed, Fail(AddFailed(i));
      }
      batch := batch + [items[i]];
      if (i + 1) % BatchSize == 0 {
        assert i + 1 == start + BatchSize;
        CloseBatch(items, start);
        if |flushed| in flushFails {
          SplitAtBatch(items, start);
          return flushed, Fail(FlushFailed(|flushed|));
        }
        assert batch == items[start..start + BatchSize];
        flushed := flushed + [batch];
        assert flushed == Chunks(items[..i + 1]);
        batch := [];
        start := i + 1;
      }
      i := i + 1;
    }
    SplitAtBatch(items, start);
    if |batch| > 0 {
      assert items[start..] == batch;
      assert Chunks(items[start..]) == [batch];
      if |flushed| in flushFails {
        return flushed, Fail(FlushFailed(|flushed|));
      }
      flushed := flushed + [batch];
    } else {
      assert items[start..] == [];
    }
    return flushed, Pass;
  }
}
