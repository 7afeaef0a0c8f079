/**
 * The row-group bookkeeping shared by the two parquet importers: a parquet
 * file is the sequence of its row-group sizes, the destination table is
 * known only through its row count, and each load is an outcome supplied
 * by the caller.
 */
module ChunkedImport {
  import Batching

  function Sum(s: seq<nat>): nat
    decreases |s|
  {
    if s == [] then 0 else s[0] + Sum(s[1..])
  }

  lemma {:induction false} SumAppend(a: seq<nat>, b: seq<nat>)
    ensures Sum(a + b) == Sum(a) + Sum(b)
    decreases |a|
  {
    if a == [] {
      assert a + b == b;
    } else {
      assert (a + b)[1..] == a[1..] + b;
      SumAppend(a[1..], b);
    }
  }

  lemma PrefixSumStep(s: seq<nat>, k: nat)
    requires k < |s|
    ensures Sum(s[..k + 1]) == Sum(s[..k]) + s[k]
  {
    assert s[..k + 1] == s[..k] + [s[k]];
    SumAppend(s[..k], [s[k]]);
    assert Sum([s[k]]) == s[k] + Sum([]);
  }

  lemma {:induction false} PrefixSumMonotone(s: seq<nat>, i: nat, j: nat)
    requires i <= j <= |s|
    ensures Sum(s[..i]) <= Sum(s[..j])
    decreases j - i
  {
    if i < j {
      PrefixSumStep(s, j - 1);
      PrefixSumMonotone(s, i, j - 1);
    }
  }

  /**
   * The resume point: the number of leading row groups whose cumulative
   * size stays within the destination count.  A group that makes the sum
   * exactly equal to the count is taken as committed.
   */
  function ResumePoint(count: nat, sizes: seq<nat>): (k: nat)
    ensures k <= |sizes|
    ensures Sum(sizes[..k]) <= count
    ensures k < |sizes| ==> Sum(sizes[..k + 1]) > count
    decreases |sizes|
  {
    if sizes == [] || sizes[0] > count then
      assert sizes[..0] == [];
      assert sizes != [] ==> sizes[..1] == [sizes[0]];
      0
    else
      var k' := ResumePoint(count - sizes[0], sizes[1..]);
      assert sizes[..k' + 1] == [sizes[0]] + sizes[1..][..k'];
      assert Sum(sizes[..k' + 1]) == sizes[0] + Sum(sizes[1..][..k']) by {
        assert ([sizes[0]] + sizes[1..][..k'])[1..] == sizes[1..][..k'];
      }
      assert k' + 1 < |sizes| ==> sizes[..k' + 2] == [sizes[0]] + sizes[1..][..k' + 1];
      assert k' + 1 < |sizes| ==> Sum(sizes[..k' + 2]) == sizes[0] + Sum(sizes[1..][..k' + 1]) by {
        if k' + 1 < |sizes| {
          assert ([sizes[0]] + sizes[1..][..k' + 1])[1..] == sizes[1..][..k' + 1];
        }
      }
      1 + k'
  }

  /** The two bounds above determine the resume point: no other prefix length meets them. */
  lemma ResumePointUnique(count: nat, sizes: seq<nat>, k: nat)
    requires k <= |sizes| && Sum(sizes[..k]) <= count
    requires k < |sizes| ==> Sum(sizes[..k + 1]) > count
    ensures k == ResumePoint(count, sizes)
  {
    var r := ResumePoint(count, sizes);
    if k < r {
      PrefixSumMonotone(sizes, k + 1, r);
    } else if r < k {
      PrefixSumMonotone(sizes, r + 1, k);
    }
  }

  /** An empty destination resumes from the first row group. */
  lemma ResumeFromEmpty(sizes: seq<nat>)
    requires sizes == [] || sizes[0] > 0
    ensures ResumePoint(0, sizes) == 0
  {
  }

  /**
   * If the destination holds exactly the first `j` row groups and the next
   * group is non-empty, the load resumes at group `j`: nothing committed is
   * loaded again and nothing is skipped.
   */
  lemma ResumeAfterCommittedPrefix(sizes: seq<nat>, j: nat)
    requires j <= |sizes|
    requires j < |sizes| ==> sizes[j] > 0
    ensures ResumePoint(Sum(sizes[..j]), sizes) == j
  {
    if j < |sizes| {
      PrefixSumStep(sizes, j);
    }
    ResumePointUnique(Sum(sizes[..j]), sizes, j);
  }

  /** With 100, 100 and 50 rows per group, 200 rows resume at group 2 and 150 at group 1. */
  lemma ResumeTieExamples()
    ensures ResumePoint(200, [100, 100, 50]) == 2
    ensures ResumePoint(150, [100, 100, 50]) == 1
  {
    var s: seq<nat> := [100, 100, 50];
    assert Sum([50]) == 50;
    assert Sum([100]) == 100;
    assert Sum([100, 100]) == 200;
    assert Sum([100, 50]) == 150;
    assert Sum(s) == 250;
    assert s[..2] == [100, 100];
    assert s[..3] == s;
    ResumePointUnique(200, s, 2);
    assert s[..1] == [100];
    ResumePointUnique(150, s, 1);
  }

  /**
   * The loop of `calculate_resume_point`: walks the row groups, stops at
   * the first one that would take the cumulative count past `count`.
   * Returns the number of groups passed and the rows they hold.
   */
  method ResumeScan(count: nat, sizes: seq<nat>) returns (processed: nat, cumulative: nat)
    ensures processed == ResumePoint(count, sizes)
    ensures cumulative == Sum(sizes[..processed]) && cumulative <= count
  {
    processed := 0;
    cumulative := 0;
    var i := 0;
    while i < |sizes|
      invariant i <= |sizes| && processed == i
      invariant cumulative == Sum(sizes[..i]) <= count
    {
      if cumulative + sizes[i] > count {
        PrefixSumStep(sizes, i);
        break;
      }
      PrefixSumStep(sizes, i);
      cumulative := cumulative + sizes[i];
      processed := processed + 1;
      i := i + 1;
    }
    ResumePointUnique(count, sizes, processed);
  }

  /** Indices `lo, lo + 1, ..., hi - 1`. */
  function Range(lo: nat, hi: nat): (r: seq<nat>)
    ensures |r| == (if lo <= hi then hi - lo else 0)
    ensures forall k :: 0 <= k < |r| ==> r[k] == lo + k
  {
    if lo >= hi then [] else seq(hi - lo, k requires 0 <= k < hi - lo => lo + k)
  }

  /** Rows committed by the loads of groups `lo .. hi - 1`; empty or failing groups add nothing. */
  function CommittedRange(sizes: seq<nat>, loaded: seq<bool>, lo: nat, hi: nat): nat
    requires hi <= |sizes| == |loaded|
    decreases hi
  {
    if hi <= lo then 0
    else CommittedRange(sizes, loaded, lo, hi - 1) + (if loaded[hi - 1] then sizes[hi - 1] else 0)
  }

  lemma {:induction false} CommittedBounded(sizes: seq<nat>, loaded: seq<bool>, lo: nat, hi: nat)
    requires lo <= hi <= |sizes| == |loaded|
    ensures CommittedRange(sizes, loaded, lo, hi) <= Sum(sizes[lo..hi])
    ensures (forall k :: lo <= k < hi ==> loaded[k]) ==> CommittedRange(sizes, loaded, lo, hi) == Sum(sizes[lo..hi])
    decreases hi
  {
    if lo < hi {
      CommittedBounded(sizes, loaded, lo, hi - 1);
      assert sizes[lo..hi] == sizes[lo..hi - 1] + [sizes[hi - 1]];
      SumAppend(sizes[lo..hi - 1], [sizes[hi - 1]]);
      assert Sum([sizes[hi - 1]]) == sizes[hi - 1] + Sum([]);
    } else {
      assert sizes[lo..hi] == [];
    }
  }

  /**
   * Resuming after a committed prefix of `j` groups and loading every
   * remaining group brings the destination to the file's total row count.
   */
  lemma ResumedLoadCompletes(sizes: seq<nat>, loaded: seq<bool>, j: nat)
    requires |loaded| == |sizes| && j <= |sizes|
    requires j < |sizes| ==> sizes[j] > 0
    requires forall g :: 0 <= g < |sizes| ==> loaded[g]
    ensures Sum(sizes[..j]) + CommittedRange(sizes, loaded, ResumePoint(Sum(sizes[..j]), sizes), |sizes|) == Sum(sizes)
  {
    ResumeAfterCommittedPrefix(sizes, j);
    CommittedBounded(sizes, loaded, j, |sizes|);
    assert sizes[j..|sizes|] == sizes[j..];
    assert sizes == sizes[..j] + sizes[j..];
    SumAppend(sizes[..j], sizes[j..]);
  }

  /**
   * The row-group loop of the LOAD DATA path: groups `skip .. n - 1` in
   * ascending order; `loaded[g]` says whether the load and commit of group
   * `g` succeeded.  An empty group is skipped, a failing one adds nothing
   * and the loop carries on.
   */
  method LoadRowGroups(sizes: seq<nat>, skip: nat, loaded: seq<bool>) returns (total: nat, visited: seq<nat>)
    requires |loaded| == |sizes|
    ensures skip >= |sizes| ==> total == 0 && visited == []
    ensures visited == Range(skip, |sizes|)
    ensures total == CommittedRange(sizes, loaded, skip, |sizes|)
  {
    if skip >= |sizes| {
      return 0, [];
    }
    total := 0;
    visited := [];
    var g := skip;
    while g < |sizes|
      invariant skip <= g <= |sizes|
      invariant visited == Range(skip, g)
      invariant total == CommittedRange(sizes, loaded, skip, g)
    {
      visited := visited + [g];
      if sizes[g] == 0 {
        g := g + 1;
        continue;
      }
      if loaded[g] {
        total := total + sizes[g];
      }
      g := g + 1;
    }
  }

  /** Rows committed by the batch path for groups `lo .. hi - 1`, each cut into slices of `size`. */
  function BatchCommitted<T>(chunks: seq<seq<T>>, size: nat, sliceOk: (nat, nat) -> bool, lo: nat, hi: nat): seq<T>
    requires size >= 1 && hi <= |chunks|
    decreases hi
  {
    if hi <= lo then []
    else
      var g: nat := hi - 1;
      var d := LeadingOk(chunks[g], size, (j: nat) => sliceOk(g, j));
      BatchCommitted(chunks, size, sliceOk, lo, g) + chunks[g][..Batching.Min(d * size, |chunks[g]|)]
  }

  /** How many leading slices of `rows` succeed. */
  function LeadingOk<T>(rows: seq<T>, size: nat, ok: nat -> bool): (d: nat)
    requires size >= 1
    ensures forall j :: 0 <= j < d ==> ok(j)
    ensures d * size >= |rows| || !ok(d)
    ensures d == 0 || (d - 1) * size < |rows|
  {
    LeadingOkFrom(rows, size, ok, 0)
  }

  function LeadingOkFrom<T>(rows: seq<T>, size: nat, ok: nat -> bool, d: nat): (r: nat)
    requires size >= 1
    requires forall j :: 0 <= j < d ==> ok(j)
    requires d == 0 || (d - 1) * size < |rows|
    ensures d <= r
    ensures forall j :: 0 <= j < r ==> ok(j)
    ensures r * size >= |rows| || !ok(r)
    ensures r == 0 || (r - 1) * size < |rows|
    decreases |rows| + size - d * size
  {
    if d * size >= |rows| || !ok(d) then d else LeadingOkFrom(rows, size, ok, d + 1)
  }

  lemma MulMonotone(a: nat, b: nat, c: nat)
    requires a <= b
    ensures a * c <= b * c
  {
  }

  /** `CommitSlices` stops exactly after the leading successful slices. */
  lemma LeadingOkUnique<T>(rows: seq<T>, size: nat, ok: nat -> bool, d: nat)
    requires size >= 1
    requires forall j :: 0 <= j < d ==> ok(j)
    requires d * size >= |rows| || !ok(d)
    requires d == 0 || (d - 1) * size < |rows|
    ensures d == LeadingOk(rows, size, ok)
  {
    var e := LeadingOk(rows, size, ok);
    if d < e {
      assert ok(d);
      MulMonotone(d, e - 1, size);
    } else if e < d {
      assert ok(e);
      MulMonotone(e, d - 1, size);
    }
  }

  /**
   * The row-group loop of the batch path.  `chunks[g]` holds the converted
   * rows of group `g`; each group is cut into slices of `size` rows, and
   * `sliceOk(g, j)` says whether the statement for slice `j` succeeds.  A
   * failing slice ends that group only; committed slices stay counted.
   */
  method BatchInsertRowGroups<T>(chunks: seq<seq<T>>, skip: nat, size: nat, sliceOk: (nat, nat) -> bool)
    returns (total: nat, committed: seq<T>)
    requires size >= 1
    ensures skip >= |chunks| ==> total == 0 && committed == []
    ensures committed == BatchCommitted(chunks, size, sliceOk, skip, |chunks|)
    ensures total == |committed|
  {
    if skip >= |chunks| {
      return 0, [];
    }
    total := 0;
    committed := [];
    var g: nat := skip;
    while g < |chunks|
      invariant skip <= g <= |chunks|
      invariant committed == BatchCommitted(chunks, size, sliceOk, skip, g)
      invariant total == |committed|
    {
      if chunks[g] == [] {
        g := g + 1;
        continue;
      }
      var part, done := Batching.CommitSlices(chunks[g], size, (j: nat) => sliceOk(g, j));
      LeadingOkUnique(chunks[g], size, (j: nat) => sliceOk(g, j), done);
      committed := committed + part;
      total := total + |part|;
      g := g + 1;
    }
  }

  /** When every slice succeeds, the batch path commits every row of every visited group, in order. */
  lemma {:induction false} BatchCommitsAll<T>(chunks: seq<seq<T>>, size: nat, sliceOk: (nat, nat) -> bool, lo: nat, hi: nat)
    requires size >= 1 && lo <= hi <= |chunks|
    requires forall g, j :: sliceOk(g, j)
    ensures BatchCommitted(chunks, size, sliceOk, lo, hi) == Batching.Flatten(chunks[lo..hi])
    decreases hi
  {
    if lo == hi {
      assert chunks[lo..hi] == [];
    } else {
      BatchCommitsAll(chunks, size, sliceOk, lo, hi - 1);
      var g: nat := hi - 1;
      var c := chunks[g];
      var d := LeadingOk(c, size, (j: nat) => sliceOk(g, j));
      assert d * size >= |c|;
      assert c[..Batching.Min(d * size, |c|)] == c;
      assert chunks[lo..hi] == chunks[lo..hi - 1] + [c];
      Batching.FlattenAppend(chunks[lo..hi - 1], [c]);
      assert Batching.Flatten([c]) == c + [];
    }
  }
}
