/**
 * Slicing a list of rows into batches, as the importers do with
 * `for i in range(0, len(rows), size): rows[i:i + size]`, and executing
 * the batches in order until one raises.
 */
module Batching {

  function Flatten<T>(ss: seq<seq<T>>): seq<T>
    decreases |ss|
  {
    if ss == [] then [] else ss[0] + Flatten(ss[1..])
  }

  lemma {:induction false} FlattenAppend<T>(a: seq<seq<T>>, b: seq<seq<T>>)
    ensures Flatten(a + b) == Flatten(a) + Flatten(b)
    decreases |a|
  {
    if a == [] {
      assert a + b == b;
    } else {
      assert (a + b)[1..] == a[1..] + b;
      FlattenAppend(a[1..], b);
    }
  }

  /** The consecutive slices `rows[i:i + size]` for `i` in `range(0, len(rows), size)`. */
  function Slices<T>(rows: seq<T>, size: nat): (r: seq<seq<T>>)
    requires size >= 1
    ensures forall k :: 0 <= k < |r| ==> 1 <= |r[k]| <= size
    ensures forall k :: 0 <= k < |r| - 1 ==> |r[k]| == size
    ensures Flatten(r) == rows
    decreases |rows|
  {
    if rows == [] then []
    else if |rows| <= size then
      assert Flatten([rows]) == rows + [];
      [rows]
    else
      var rest := Slices(rows[size..], size);
      assert rows == rows[..size] + rows[size..];
      assert [rows[..size]] + rest == [rows[..size]] + rest;
      assert Flatten([rows[..size]] + rest) == rows[..size] + Flatten(rest) by {
        assert ([rows[..size]] + rest)[1..] == rest;
      }
      [rows[..size]] + rest
  }

  function Min(a: int, b: int): int {
    if a <= b then a else b
  }

  /** The first `d` slices carry exactly the first `d * size` rows. */
  lemma {:induction false} SlicesPrefix<T>(rows: seq<T>, size: nat, d: nat)
    requires size >= 1
    requires d <= |Slices(rows, size)|
    ensures Flatten(Slices(rows, size)[..d]) == rows[..Min(d * size, |rows|)]
    decreases |rows|
  {
    if d == 0 {
      assert Slices(rows, size)[..0] == [];
    } else if |rows| <= size {
      SlicesSingle(rows, size, d);
    } else {
      SlicesUnfold(rows, size);
      SlicesPrefix(rows[size..], size, d - 1);
      PrefixStep(rows, size, d, Slices(rows[size..], size));
    }
  }

  lemma SlicesSingle<T>(rows: seq<T>, size: nat, d: nat)
    requires size >= 1 && rows != [] && |rows| <= size
    requires 1 <= d <= |Slices(rows, size)|
    ensures Flatten(Slices(rows, size)[..d]) == rows[..Min(d * size, |rows|)]
  {
    var sl := Slices(rows, size);
    assert sl == [rows];
    assert sl[..d] == [rows];
    assert Flatten([rows]) == rows + [];
    assert d == 1 && rows[..Min(size, |rows|)] == rows;
  }

  lemma SlicesUnfold<T>(rows: seq<T>, size: nat)
    requires size >= 1 && |rows| > size
    ensures Slices(rows, size) == [rows[..size]] + Slices(rows[size..], size)
  {
  }

  lemma PrefixStep<T>(rows: seq<T>, size: nat, d: nat, rest: seq<seq<T>>)
    requires size >= 1 && |rows| > size
    requires 1 <= d <= |rest| + 1
    requires Flatten(rest[..d - 1]) == rows[size..][..Min((d - 1) * size, |rows| - size)]
    ensures Flatten(([rows[..size]] + rest)[..d]) == rows[..Min(d * size, |rows|)]
  {
    FlattenConsPrefix(rows[..size], rest, d);
    var n := Min((d - 1) * size, |rows| - size);
    MinShift(d, size, |rows|);
    assert rows[..size] + rows[size..][..n] == rows[..size + n];
  }

  lemma FlattenConsPrefix<T>(h: seq<T>, rest: seq<seq<T>>, d: nat)
    requires 1 <= d <= |rest| + 1
    ensures Flatten(([h] + rest)[..d]) == h + Flatten(rest[..d - 1])
  {
    assert ([h] + rest)[..d] == [h] + rest[..d - 1];
    assert ([h] + rest[..d - 1])[1..] == rest[..d - 1];
  }

  lemma MinShift(d: nat, size: nat, len: nat)
    requires d >= 1 && len >= size
    ensures size + Min((d - 1) * size, len - size) == Min(d * size, len)
  {
    assert d * size == (d - 1) * size + size;
  }

  lemma ConcatAssoc<T>(a: seq<T>, b: seq<T>, c: seq<T>)
    ensures a + (b + c) == a + b + c
  {
  }

  predicate FullSlices<T>(bs: seq<seq<T>>, size: nat) {
    forall k :: 0 <= k < |bs| ==> |bs[k]| == size
  }

  /**
   * Any split into non-empty pieces of which all but the last have exactly
   * `size` elements and the last at most `size` is the slicing of its
   * concatenation: slicing is the only way to cover the rows this way.
   */
  lemma {:induction false} SlicesCharacterized<T>(bs: seq<seq<T>>, size: nat)
    requires size >= 1
    requires forall k :: 0 <= k < |bs| ==> 1 <= |bs[k]| <= size
    requires forall k :: 0 <= k < |bs| - 1 ==> |bs[k]| == size
    ensures Slices(Flatten(bs), size) == bs
    decreases |bs|
  {
    if bs != [] {
      var rest := bs[1..];
      assert Flatten(bs) == bs[0] + Flatten(rest);
      if rest == [] {
        assert Flatten(bs) == bs[0] + [];
        assert Slices(bs[0], size) == [bs[0]];
      } else {
        SlicesCharacterized(rest, size);
        FlattenNonEmpty(rest);
        var all := Flatten(bs);
        assert all[..size] == bs[0] && all[size..] == Flatten(rest);
        SlicesUnfold(all, size);
      }
    }
  }

  lemma FlattenNonEmpty<T>(bs: seq<seq<T>>)
    requires bs != [] && bs[0] != []
    ensures Flatten(bs) != []
  {
  }

  /** Pieces of exactly `size` elements carry `size` elements each. */
  lemma {:induction false} FlattenFullLength<T>(bs: seq<seq<T>>, size: nat)
    requires FullSlices(bs, size)
    ensures |Flatten(bs)| == size * |bs|
    decreases |bs|
  {
    if bs != [] {
      FlattenFullLength(bs[1..], size);
      assert size * |bs| == size + size * |bs[1..]|;
    }
  }

  /** Appending one piece to a list of pieces. */
  lemma FlattenSnoc<T>(bs: seq<seq<T>>, b: seq<T>)
    ensures Flatten(bs + [b]) == Flatten(bs) + b
  {
    FlattenAppend(bs, [b]);
    assert Flatten([b]) == b + [];
  }

  /**
   * Executes the slices of `rows` in order; `ok(j)` says whether the
   * statement for slice `j` succeeds.  A slice that raises ends the loop;
   * the slices before it stay committed.  `done` is the number of slices
   * committed and `committed` the rows they carried.
   */
  method CommitSlices<T>(rows: seq<T>, size: nat, ok: nat -> bool) returns (committed: seq<T>, done: nat)
    requires size >= 1
    ensures forall j :: 0 <= j < done ==> ok(j)
    ensures done * size >= |rows| || !ok(done)
    ensures done == 0 || (done - 1) * size < |rows|
    ensures committed == rows[..if done * size <= |rows| then done * size else |rows|]
  {
    committed := [];
    done := 0;
    var i := 0;
    while i < |rows|
      invariant i == done * size
      invariant i <= |rows| || (done >= 1 && (done - 1) * size < |rows|)
      invariant done == 0 || (done - 1) * size < |rows|
      invariant forall j :: 0 <= j < done ==> ok(j)
      invariant committed == rows[..if i <= |rows| then i else |rows|]
      decreases |rows| - i
    {
      var hi := if i + size <= |rows| then i + size else |rows|;
      var batch := rows[i..hi];
      if !ok(done) {
        break;
      }
      committed := committed + batch;
      assert committed == rows[..hi];
      done := done + 1;
      i := i + size;
    }
  }
}
