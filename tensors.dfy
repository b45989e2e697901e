/** Tensors as a shape and row-major flat data, with the two operations the
    embedding lookup is built from: reshape and gather along axis 0. */
module Tensors {

  /** The number of elements of a tensor of the given shape. */
  function Product(shape: seq<nat>): nat
  {
    if shape == [] then 1 else shape[0] * Product(shape[1..])
  }

  /** Appending an axis multiplies the element count by its length. */
  lemma {:induction false} ProductAppend(shape: seq<nat>, d: nat)
    ensures Product(shape + [d]) == Product(shape) * d
  {
    if shape == [] {
      assert shape + [d] == [d];
      assert [d][1..] == [];
    } else {
      assert (shape + [d])[1..] == shape[1..] + [d];
      ProductAppend(shape[1..], d);
      assert shape[0] * (Product(shape[1..]) * d) == (shape[0] * Product(shape[1..])) * d;
    }
  }

  datatype Tensor<T> = Tensor(shape: seq<nat>, data: seq<T>)
  {
    /** The data holds one element per index of the shape. */
    predicate Wf()
    {
      |data| == Product(shape)
    }
  }

  /** ops.reshape: the same elements in the same order under another shape
      with as many elements. */
  function Reshape<T>(t: Tensor<T>, shape: seq<nat>): Tensor<T>
    requires Product(shape) == |t.data|
  {
    Tensor(shape, t.data)
  }

  /** ops.gather(table, ids, 0): the rows named by ids, one after the other,
      as flat data. */
  function Gather(rows: seq<seq<string>>, ids: seq<int>): seq<string>
    requires forall k :: 0 <= k < |ids| ==> 0 <= ids[k] < |rows|
  {
    if ids == [] then [] else rows[ids[0]] + Gather(rows, ids[1..])
  }

  /** Entries k * d .. (k + 1) * d - 1 of s: the k-th block of d entries. */
  function Block<T>(s: seq<T>, k: nat, d: nat): seq<T>
    requires (k + 1) * d <= |s|
  {
    s[k * d .. (k + 1) * d]
  }

  /** Block k of s exists and is row. */
  predicate BlockIs<T(==)>(s: seq<T>, k: nat, d: nat, row: seq<T>)
  {
    (k + 1) * d <= |s| && Block(s, k, d) == row
  }

  lemma BlockBound(k: nat, n: nat, d: nat)
    requires k < n
    ensures (k + 1) * d <= n * d
  {
  }

  /** Past a first block of d entries, block k is block k - 1 of the rest. */
  lemma BlockAfterHead<T>(head: seq<T>, tail: seq<T>, k: nat, d: nat)
    requires |head| == d && 1 <= k && (k + 1) * d <= |head| + |tail|
    ensures k * d <= |tail| + d
    ensures Block(head + tail, k, d) == Block(tail, k - 1, d)
  {
    var j := k - 1;
    assert k * d == j * d + d;
    assert (k + 1) * d == (j + 1) * d + d;
    assert (head + tail)[k * d .. (k + 1) * d] == tail[j * d .. (j + 1) * d];
  }

  /** On a table whose rows all have d entries, gathering n ids gives n * d entries. */
  lemma {:induction false} GatherLength(rows: seq<seq<string>>, d: nat, ids: seq<int>)
    requires forall i :: 0 <= i < |rows| ==> |rows[i]| == d
    requires forall k :: 0 <= k < |ids| ==> 0 <= ids[k] < |rows|
    ensures |Gather(rows, ids)| == |ids| * d
  {
    if ids != [] {
      GatherLength(rows, d, ids[1..]);
      assert |ids| * d == d + |ids[1..]| * d;
    }
  }

  /** Block k of the gathered data is the row ids[k]. */
  lemma {:induction false} GatherBlock(rows: seq<seq<string>>, d: nat, ids: seq<int>, k: nat)
    requires forall i :: 0 <= i < |rows| ==> |rows[i]| == d
    requires forall j :: 0 <= j < |ids| ==> 0 <= ids[j] < |rows|
    requires k < |ids|
    ensures BlockIs(Gather(rows, ids), k, d, rows[ids[k]])
  {
    var rest := ids[1..];
    var head, tail := rows[ids[0]], Gather(rows, rest);
    assert Gather(rows, ids) == head + tail;
    GatherLength(rows, d, ids);
    GatherLength(rows, d, rest);
    BlockBound(k, |ids|, d);
    if k == 0 {
      assert (head + tail)[..d] == head;
    } else {
      GatherBlock(rows, d, rest, k - 1);
      assert rest[k - 1] == ids[k];
      BlockAfterHead(head, tail, k, d);
    }
  }

  /** On a table whose rows all have d entries, block k of the gathered data
      is the row ids[k]. */
  lemma GatherBlocks(rows: seq<seq<string>>, d: nat, ids: seq<int>)
    requires forall i :: 0 <= i < |rows| ==> |rows[i]| == d
    requires forall k :: 0 <= k < |ids| ==> 0 <= ids[k] < |rows|
    ensures |Gather(rows, ids)| == |ids| * d
    ensures forall k :: 0 <= k < |ids| ==> BlockIs(Gather(rows, ids), k, d, rows[ids[k]])
  {
    GatherLength(rows, d, ids);
    forall k | 0 <= k < |ids| ensures BlockIs(Gather(rows, ids), k, d, rows[ids[k]]) {
      GatherBlock(rows, d, ids, k);
    }
  }
}
