/** The arithmetic of the indexing service (services/index/index.go): the
    progress percentage, the split of the files among the workers, and the
    batch ranges each worker submits. */
module IndexPlan {
  import opened SearchModels
  import opened Batching

  /** The most workers doBuildIndex starts. */
  const MaxGoRoutinesForFileProcessing: nat := 50

  /** The exact interpolation between `initial` and `final` at the fraction
      `done / total`. */
  function Interpolate(done: int, total: int, initial: int, final: int): real
    requires total != 0
  {
    initial as real + (done as real / total as real) * (final - initial) as real
  }

  /** getProgressPercentage: `initial` when nothing is done or there is
      nothing to do, `final` when everything is done, and otherwise the
      interpolation truncated toward zero. */
  function GetProgressPercentage(done: int, total: int, initial: int, final: int): int
  {
    if done == 0 || total == 0 then initial
    else if done >= total then final
    else TruncateToInt(Interpolate(done, total, initial, final))
  }

  /** Nothing done, or nothing to do, is `initial`; all done is `final`. */
  lemma {:induction false} ProgressPercentageEdges(done: int, total: int, initial: int, final: int)
    ensures done == 0 || total == 0 ==> GetProgressPercentage(done, total, initial, final) == initial
    ensures done != 0 && total != 0 && done >= total ==> GetProgressPercentage(done, total, initial, final) == final
  {
  }

  /** Truncation toward zero keeps the order of its arguments. */
  lemma {:induction false} TruncateMonotone(x: real, y: real)
    requires x <= y
    ensures TruncateToInt(x) <= TruncateToInt(y)
  {
  }

  /** Truncation of a value between two integers stays between them. */
  lemma {:induction false} TruncateBetween(x: real, lo: int, hi: int)
    requires lo as real <= x <= hi as real
    ensures lo <= TruncateToInt(x) <= hi
  {
    TruncateIntegral(lo);
    TruncateIntegral(hi);
    TruncateMonotone(lo as real, x);
    TruncateMonotone(x, hi as real);
  }

  /** A fraction of a whole lies between 0 and 1, and grows with the part. */
  lemma {:induction false} FractionBetween(done: int, total: int)
    requires 0 <= done <= total && 0 < total
    ensures 0.0 <= done as real / total as real <= 1.0
  {
    var f := done as real / total as real;
    assert f * total as real == done as real;
  }

  lemma {:induction false} FractionMonotone(done1: int, done2: int, total: int)
    requires done1 <= done2 && 0 < total
    ensures done1 as real / total as real <= done2 as real / total as real
  {
    var f1 := done1 as real / total as real;
    var f2 := done2 as real / total as real;
    assert f1 * total as real == done1 as real;
    assert f2 * total as real == done2 as real;
    assert (f2 - f1) * total as real == (done2 - done1) as real;
  }

  lemma {:induction false} ScaleBetween(f: real, d: real)
    requires 0.0 <= f <= 1.0 && 0.0 <= d
    ensures 0.0 <= f * d <= d
  {
  }

  lemma {:induction false} ScaleMonotone(f1: real, f2: real, d: real)
    requires f1 <= f2 && 0.0 <= d
    ensures f1 * d <= f2 * d
  {
    assert f2 * d - f1 * d == (f2 - f1) * d;
  }

  /** The interpolation at a fraction in [0, 1] lies in [initial, final]. */
  lemma {:induction false} InterpolationBetween(done: int, total: int, initial: int, final: int)
    requires 0 <= done <= total && 0 < total && initial <= final
    ensures initial as real <= Interpolate(done, total, initial, final) <= final as real
  {
    FractionBetween(done, total);
    ScaleBetween(done as real / total as real, (final - initial) as real);
  }

  /** The interpolation grows with the work done. */
  lemma {:induction false} InterpolationMonotone(done1: int, done2: int, total: int, initial: int, final: int)
    requires done1 <= done2 && 0 < total && initial <= final
    ensures Interpolate(done1, total, initial, final) <= Interpolate(done2, total, initial, final)
  {
    FractionMonotone(done1, done2, total);
    ScaleMonotone(done1 as real / total as real, done2 as real / total as real, (final - initial) as real);
  }

  /** Part way through, with `initial <= final`, the value lies in
      [initial, final]. */
  lemma {:induction false} ProgressPercentageBounds(done: int, total: int, initial: int, final: int)
    requires 0 < done < total && initial <= final
    ensures initial <= GetProgressPercentage(done, total, initial, final) <= final
  {
    InterpolationBetween(done, total, initial, final);
    TruncateBetween(Interpolate(done, total, initial, final), initial, final);
  }

  /** For counts that are not negative and `initial <= final`, every value
      lies in [initial, final]. */
  lemma {:induction false} ProgressPercentageRange(done: int, total: int, initial: int, final: int)
    requires 0 <= done && 0 <= total && initial <= final
    ensures initial <= GetProgressPercentage(done, total, initial, final) <= final
  {
    if 0 < done < total {
      ProgressPercentageBounds(done, total, initial, final);
    }
  }

  /** More work done never gives a smaller percentage. */
  lemma {:induction false} ProgressPercentageMonotone(done1: int, done2: int, total: int, initial: int, final: int)
    requires 0 <= done1 <= done2 && 0 < total && initial <= final
    ensures GetProgressPercentage(done1, total, initial, final) <= GetProgressPercentage(done2, total, initial, final)
  {
    ProgressPercentageRange(done1, total, initial, final);
    ProgressPercentageRange(done2, total, initial, final);
    if 0 < done1 && done2 < total {
      InterpolationMonotone(done1, done2, total, initial, final);
      TruncateMonotone(Interpolate(done1, total, initial, final), Interpolate(done2, total, initial, final));
    }
  }

  /** `ranges` are non-empty half-open ranges laid end to end from `lo` to
      `hi`. */
  predicate Tiles(ranges: seq<(nat, nat)>, lo: nat, hi: nat)
    decreases |ranges|
  {
    if ranges == [] then lo == hi
    else ranges[0].0 == lo && ranges[0].0 < ranges[0].1 && Tiles(ranges[1..], ranges[0].1, hi)
  }

  /** Some range of `ranges` holds `x`. */
  predicate InSome(ranges: seq<(nat, nat)>, x: nat)
  {
    exists k :: 0 <= k < |ranges| && ranges[k].0 <= x < ranges[k].1
  }

  /** Tiling ranges cover every index from `lo` to `hi`, each in exactly one
      range, in increasing order. */
  lemma {:induction false} TilesCover(ranges: seq<(nat, nat)>, lo: nat, hi: nat)
    requires Tiles(ranges, lo, hi)
    ensures lo <= hi
    ensures forall k :: 0 <= k < |ranges| ==> lo <= ranges[k].0 < ranges[k].1 <= hi
    ensures forall k :: 0 <= k < |ranges| - 1 ==> ranges[k].1 == ranges[k + 1].0
    ensures forall x: nat :: lo <= x < hi ==> InSome(ranges, x)
    decreases |ranges|
  {
    if ranges != [] {
      var rest := ranges[1..];
      TilesCover(rest, ranges[0].1, hi);
      forall x: nat | lo <= x < hi
        ensures InSome(ranges, x)
      {
        if x < ranges[0].1 {
          assert ranges[0].0 <= x < ranges[0].1;
        } else {
          assert InSome(rest, x);
          var j :| 0 <= j < |rest| && rest[j].0 <= x < rest[j].1;
          assert ranges[j + 1] == rest[j];
        }
      }
    }
  }

  /** Tiling ranges do not overlap: an earlier range ends where or before a
      later one starts. */
  lemma {:induction false} TilesDisjoint(ranges: seq<(nat, nat)>, lo: nat, hi: nat)
    requires Tiles(ranges, lo, hi)
    ensures forall j, k :: 0 <= j < k < |ranges| ==> ranges[j].1 <= ranges[k].0
    decreases |ranges|
  {
    if ranges != [] {
      var rest := ranges[1..];
      TilesDisjoint(rest, ranges[0].1, hi);
      TilesCover(rest, ranges[0].1, hi);
      forall j, k | 0 <= j < k < |ranges|
        ensures ranges[j].1 <= ranges[k].0
      {
        assert ranges[k] == rest[k - 1];
        if j > 0 {
          assert ranges[j] == rest[j - 1];
        }
      }
    }
  }

  /** The number of workers for `n` files: min(50, n). */
  function Workers(n: nat): nat
  {
    if n < MaxGoRoutinesForFileProcessing then n else MaxGoRoutinesForFileProcessing
  }

  /** The files per worker: n / workers, at least 1. */
  function PortionSize(n: nat): nat
    requires n > 0
  {
    var p := n / Workers(n);
    if p == 0 then 1 else p
  }

  /** The portions of the workers from `i` on: worker `i` starts at
      `i * per`, the last worker takes everything to `n`, and the loop stops
      at a worker that would start at or past `n`. */
  function PartitionFrom(n: nat, num: nat, per: nat, i: nat): seq<(nat, nat)>
    requires i <= num
    decreases num - i
  {
    if i == num then []
    else
      var start := i * per;
      var end := if i == num - 1 then n else start + per;
      if start >= n then [] else [(start, end)] + PartitionFrom(n, num, per, i + 1)
  }

  /** The split of `n` files (n > 0) among the workers. */
  function PartitionOf(n: nat): seq<(nat, nat)>
    requires n > 0
  {
    PartitionFrom(n, Workers(n), PortionSize(n), 0)
  }

  /** Worker `i` starts before `n` and, unless it is the last, its portion
      ends before `n` too. */
  lemma {:induction false} PortionStartBelow(n: nat, i: nat)
    requires n > 0 && i < Workers(n)
    ensures i * PortionSize(n) < n
    ensures i < Workers(n) - 1 ==> i * PortionSize(n) + PortionSize(n) < n
  {
    var num := Workers(n);
    var per := PortionSize(n);
    WorkersTimesPortion(n);
    MulMonotone(i + 1, num, per);
    if i < num - 1 {
      MulMonotone(i + 2, num, per);
    }
  }

  /** The portions of all workers together fit in `n`. */
  lemma {:induction false} WorkersTimesPortion(n: nat)
    requires n > 0
    ensures Workers(n) * PortionSize(n) <= n && PortionSize(n) >= 1
  {
    var num := Workers(n);
    var q := n / num;
    assert n == num * q + n % num;
    if q == 0 {
      assert num <= n;
    }
  }

  lemma {:induction false} MulMonotone(a: nat, b: nat, c: nat)
    requires a <= b
    ensures a * c <= b * c
  {
    assert b * c == a * c + (b - a) * c;
  }

  /** The portions from worker `i` on: one per remaining worker, each of size
      `per` except the last, laid end to end from `i * per` to `n`. */
  lemma {:induction false} PartitionFromTiles(n: nat, i: nat)
    requires n > 0 && i < Workers(n)
    ensures var parts := PartitionFrom(n, Workers(n), PortionSize(n), i);
            && |parts| == Workers(n) - i
            && Tiles(parts, i * PortionSize(n), n)
            && forall k :: 0 <= k < |parts| - 1 ==> parts[k].0 + PortionSize(n) == parts[k].1
    decreases Workers(n) - i
  {
    var num := Workers(n);
    var per := PortionSize(n);
    PortionStartBelow(n, i);
    var parts := PartitionFrom(n, num, per, i);
    var rest := PartitionFrom(n, num, per, i + 1);
    assert parts == [(i * per, if i == num - 1 then n else i * per + per)] + rest;
    if i < num - 1 {
      PartitionFromTiles(n, i + 1);
      assert (i + 1) * per == i * per + per;
      assert parts[1..] == rest;
      forall k | 0 <= k < |parts| - 1
        ensures parts[k].0 + per == parts[k].1
      {
        if k > 0 {
          assert parts[k] == rest[k - 1];
        }
      }
    } else {
      assert rest == [];
      assert parts[1..] == [];
    }
  }

  /** The partition is contiguous, disjoint and covers [0, n): min(50, n)
      portions, all of the portion size except the last, which runs to `n`. */
  lemma {:induction false} PartitionCovers(n: nat)
    requires n > 0
    ensures |PartitionOf(n)| == Workers(n)
    ensures Tiles(PartitionOf(n), 0, n)
    ensures forall k :: 0 <= k < |PartitionOf(n)| - 1 ==> PartitionOf(n)[k].0 + PortionSize(n) == PartitionOf(n)[k].1
    ensures forall k :: 0 <= k < |PartitionOf(n)| ==> 0 <= PartitionOf(n)[k].0 < PartitionOf(n)[k].1 <= n
  {
    PartitionFromTiles(n, 0);
    TilesCover(PartitionOf(n), 0, n);
  }

  /** The batch ranges from `i` on of the loop as written:
      `for i := 0; i <= max(0, n-100); i += 100`, batch [i, min(i+100, n)). */
  function AsWrittenRangesFrom(n: nat, i: nat): seq<(nat, nat)>
    decreases n + BatchSize - i
  {
    var bound := if n >= BatchSize then n - BatchSize else 0;
    if i > bound then []
    else [(i, if i + BatchSize <= n then i + BatchSize else n)] + AsWrittenRangesFrom(n, i + BatchSize)
  }

  /** The batch ranges doBuildIndexForFilesPortion submits for a portion of
      `n` files. */
  function AsWrittenRanges(n: nat): seq<(nat, nat)>
  {
    AsWrittenRangesFrom(n, 0)
  }

  /** Where the as-written batches of a portion of `n` files stop: `n` for
      fewer than 100 files, otherwise the largest multiple of 100 not above
      `n`. */
  function AsWrittenEnd(n: nat): nat
  {
    if n < BatchSize then n else n - n % BatchSize
  }

  lemma {:induction false} AsWrittenRangesFromTiles(n: nat, i: nat)
    requires n > 0 && i % BatchSize == 0
    requires i <= (if n >= BatchSize then n - BatchSize else 0)
    ensures Tiles(AsWrittenRangesFrom(n, i), i, AsWrittenEnd(n))
    ensures forall k :: 0 <= k < |AsWrittenRangesFrom(n, i)| ==>
              AsWrittenRangesFrom(n, i)[k].1 - AsWrittenRangesFrom(n, i)[k].0 <= BatchSize
    decreases n - i
  {
    var bound := if n >= BatchSize then n - BatchSize else 0;
    var r := AsWrittenRangesFrom(n, i);
    var rest := AsWrittenRangesFrom(n, i + BatchSize);
    assert r == [(i, if i + BatchSize <= n then i + BatchSize else n)] + rest;
    assert r[1..] == rest;
    if i + BatchSize <= bound {
      AsWrittenRangesFromTiles(n, i + BatchSize);
      forall k | 0 <= k < |r|
        ensures r[k].1 - r[k].0 <= BatchSize
      {
        if k > 0 {
          assert r[k] == rest[k - 1];
        }
      }
    } else {
      assert rest == [];
    }
  }

  /** The as-written batches of a non-empty portion are laid end to end from
      0 to `AsWrittenEnd(n)`, at most 100 files each. */
  lemma {:induction false} AsWrittenRangesCover(n: nat)
    requires n > 0
    ensures Tiles(AsWrittenRanges(n), 0, AsWrittenEnd(n))
    ensures forall k :: 0 <= k < |AsWrittenRanges(n)| ==> AsWrittenRanges(n)[k].1 - AsWrittenRanges(n)[k].0 <= BatchSize
  {
    AsWrittenRangesFromTiles(n, 0);
  }

  /** The as-written batches reach the end of the portion exactly when it
      has at most 100 files or a multiple of 100; otherwise the last
      `n % 100` files are never submitted. */
  lemma {:induction false} AsWrittenEndMissesTail(n: nat)
    ensures AsWrittenEnd(n) <= n
    ensures AsWrittenEnd(n) == n <==> n <= BatchSize || n % BatchSize == 0
    ensures n > BatchSize ==> n - AsWrittenEnd(n) == n % BatchSize
  {
  }

  /** A portion of 101 files gets the one batch [0, 100): file 100 is never
      submitted. */
  lemma {:induction false} AsWrittenSkipsFile100Of101()
    ensures AsWrittenRanges(101) == [(0, 100)]
    ensures AsWrittenEnd(101) == 100
  {
    assert AsWrittenRangesFrom(101, 100) == [];
  }

  /** 5050 files give 50 portions of 101 files each, so each worker leaves
      its last file out. */
  lemma {:induction false} FiftyPortionsOf101(n: nat)
    requires n == 5050
    ensures |PartitionOf(n)| == 50
    ensures forall k :: 0 <= k < |PartitionOf(n)| ==> PartitionOf(n)[k].0 + 101 == PartitionOf(n)[k].1
  {
    PartitionCovers(n);
    var parts := PartitionOf(n);
    TilesCover(parts, 0, n);
    assert PortionSize(n) == 101;
    var last := |parts| - 1;
    assert parts[last].1 == n by {
      TilesLastEnd(parts, 0, n);
    }
    assert parts[last].0 == last * 101 by {
      TilesStarts(parts, 0, n, 101);
    }
  }

  /** The last of non-empty tiling ranges ends at `hi`. */
  lemma {:induction false} TilesLastEnd(ranges: seq<(nat, nat)>, lo: nat, hi: nat)
    requires Tiles(ranges, lo, hi) && ranges != []
    ensures ranges[|ranges| - 1].1 == hi
    decreases |ranges|
  {
    if |ranges| > 1 {
      TilesLastEnd(ranges[1..], ranges[0].1, hi);
    }
  }

  /** Tiling ranges of which all but the last have width `w` start at
      multiples of `w` from `lo`. */
  lemma {:induction false} TilesStarts(ranges: seq<(nat, nat)>, lo: nat, hi: nat, w: nat)
    requires Tiles(ranges, lo, hi)
    requires forall k :: 0 <= k < |ranges| - 1 ==> ranges[k].0 + w == ranges[k].1
    ensures forall k :: 0 <= k < |ranges| ==> ranges[k].0 == lo + k * w
    decreases |ranges|
  {
    if ranges != [] {
      var rest := ranges[1..];
      forall k | 0 <= k < |rest| - 1
        ensures rest[k].0 + w == rest[k].1
      {
        assert rest[k] == ranges[k + 1];
      }
      TilesStarts(rest, ranges[0].1, hi, w);
      forall k | 0 <= k < |ranges|
        ensures ranges[k].0 == lo + k * w
      {
        if k > 0 {
          assert ranges[k] == rest[k - 1];
          assert |ranges| > 1;
          assert ranges[0].1 == lo + w;
          assert rest[k - 1].0 == ranges[0].1 + (k - 1) * w;
        }
      }
    }
  }

  /** The batch ranges from `i` on of the evidently intended loop
      `for i := 0; i < n; i += 100`. */
  function CorrectedRangesFrom(n: nat, i: nat): seq<(nat, nat)>
    decreases n - i
  {
    if i >= n then []
    else [(i, if i + BatchSize <= n then i + BatchSize else n)] + CorrectedRangesFrom(n, i + BatchSize)
  }

  function CorrectedRanges(n: nat): seq<(nat, nat)>
  {
    CorrectedRangesFrom(n, 0)
  }

  lemma {:induction false} CorrectedRangesFromTiles(n: nat, i: nat)
    requires i <= n
    ensures Tiles(CorrectedRangesFrom(n, i), i, n)
    ensures forall k :: 0 <= k < |CorrectedRangesFrom(n, i)| ==>
              CorrectedRangesFrom(n, i)[k].1 - CorrectedRangesFrom(n, i)[k].0 <= BatchSize
    decreases n - i
  {
    if i < n {
      var r := CorrectedRangesFrom(n, i);
      var next := if i + BatchSize <= n then i + BatchSize else n;
      var rest := CorrectedRangesFrom(n, i + BatchSize);
      assert r[1..] == rest;
      if i + BatchSize < n {
        CorrectedRangesFromTiles(n, i + BatchSize);
      } else {
        assert rest == [];
      }
      forall k | 0 <= k < |r|
        ensures r[k].1 - r[k].0 <= BatchSize
      {
        if k > 0 {
          assert r[k] == rest[k - 1];
        }
      }
    }
  }

  /** The intended batches cover the whole portion, in order, at most 100
      files each. */
  lemma {:induction false} CorrectedRangesCover(n: nat)
    ensures Tiles(CorrectedRanges(n), 0, n)
    ensures forall k :: 0 <= k < |CorrectedRanges(n)| ==> CorrectedRanges(n)[k].1 - CorrectedRanges(n)[k].0 <= BatchSize
  {
    CorrectedRangesFromTiles(n, 0);
  }
}
