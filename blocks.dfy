/** Row-major layout shared by the samplers and the mesh builders: equal-size
    blocks laid end to end, and the index arithmetic that goes with them. */
module Blocks {

  /** The blocks laid end to end, in order. */
  function Flatten<T>(blocks: seq<seq<T>>): seq<T> {
    if blocks == [] then [] else Flatten(blocks[..|blocks| - 1]) + blocks[|blocks| - 1]
  }

  /** Every block holds exactly `size` entries. */
  predicate Uniform<T>(blocks: seq<seq<T>>, size: nat) {
    forall j :: 0 <= j < |blocks| ==> |blocks[j]| == size
  }

  lemma MulMonotone(a: nat, b: nat, c: nat)
    requires a <= b
    ensures a * c <= b * c
  {
  }

  /** One more block of `size` entries. */
  lemma MulSucc(a: nat, size: nat)
    ensures a * size + size == (a + 1) * size
  {
  }

  /** A product with a positive count has the sign of its other factor. */
  lemma ProductSign(count: nat, factor: int)
    requires count * factor >= 0
    ensures count > 0 ==> factor >= 0
  {
    if count > 0 && factor < 0 {
      assert false;
    }
  }

  /** Whole blocks of a positive size compare like their counts. */
  lemma MulCancel(a: nat, b: nat, size: nat)
    requires size >= 1 && a * size <= b * size
    ensures a <= b
  {
    if b < a {
      MulSucc(b, size);
      MulMonotone(b + 1, a, size);
      assert false;
    }
  }

  /** A position `q * size + r` with `r < size` lies in block q at offset r,
      and in no other block. */
  lemma DivModUnique(n: nat, size: nat, q: nat, r: nat)
    requires r < size && n == q * size + r
    ensures n / size == q && n % size == r
  {
    var q': nat := n / size;
    if q' < q {
      MulSucc(q', size);
      MulMonotone(q' + 1, q, size);
      assert false;
    } else if q < q' {
      MulSucc(q, size);
      MulMonotone(q + 1, q', size);
      assert false;
    }
  }

  /** Euclidean division of n by a positive size. */
  lemma Divide(n: nat, size: nat) returns (q: nat, r: nat)
    requires size >= 1
    ensures r < size && n == q * size + r
  {
    q, r := n / size, n % size;
  }

  /** Blocks of blocks: j rows of `count` blocks of `size` entries hold as
      many entries as `j * count` blocks. */
  lemma MulAssociates(j: nat, count: nat, size: nat)
    ensures j * (size * count) == size * (j * count)
  {
  }

  /** Entry k of block j comes after every entry of blocks 0 .. j-1 and before
      every entry of blocks j+1 onwards. */
  lemma BlockPosition(j: nat, count: nat, size: nat, k: nat)
    requires j < count && k < size
    ensures j * size + k < count * size
    ensures j + 1 < count ==> j * size + k < (count - 1) * size
    ensures (count - 1) * size + size == count * size
  {
    MulSucc(count - 1, size);
    MulSucc(j, size);
    MulMonotone(j + 1, count, size);
    if j + 1 < count {
      MulMonotone(j + 1, count - 1, size);
    }
  }

  lemma {:induction false} FlattenLength<T>(blocks: seq<seq<T>>, size: nat)
    requires Uniform(blocks, size)
    ensures |Flatten(blocks)| == |blocks| * size
  {
    if blocks != [] {
      var last := |blocks| - 1;
      FlattenLength(blocks[..last], size);
      MulSucc(last, size);
    }
  }

  /** Entry k of block j sits at `j * size + k`. */
  lemma {:induction false} FlattenAt<T>(blocks: seq<seq<T>>, size: nat, j: nat, k: nat)
    requires Uniform(blocks, size)
    requires j < |blocks| && k < size
    ensures |Flatten(blocks)| == |blocks| * size
    ensures j * size + k < |Flatten(blocks)|
    ensures Flatten(blocks)[j * size + k] == blocks[j][k]
  {
    FlattenLength(blocks, size);
    var last := |blocks| - 1;
    var init := blocks[..last];
    FlattenLength(init, size);
    BlockPosition(j, |blocks|, size, k);
    assert Flatten(blocks) == Flatten(init) + blocks[last];
    if j < last {
      FlattenAt(init, size, j, k);
    }
  }

  /** Appending a block to the list appends it to the flattening. */
  lemma FlattenSnoc<T>(blocks: seq<seq<T>>, n: nat)
    requires n < |blocks|
    ensures Flatten(blocks[..n + 1]) == Flatten(blocks[..n]) + blocks[n]
  {
    assert blocks[..n + 1][..n] == blocks[..n];
  }
}
