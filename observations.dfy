/**
 * Observation vectors as the environments build them and the recurrent
 * networks read them: flat sequences of features in which an absent
 * entity slot is marked by a not-a-number sentinel.
 */
module Observations {

  import Wrappers

  /** One entry of an observation vector; `NaN` is the absent-slot sentinel. */
  datatype Value = Num(x: real) | NaN

  /** A hidden vector produced by a layer of a network. */
  type Vec = seq<real>

  /** A row of `n` zeros, as written by `torch.zeros` or a masked assignment. */
  function Zeros(n: nat): (r: Vec)
    ensures |r| == n
    ensures forall i :: 0 <= i < n ==> r[i] == 0.0
  {
    seq(n, _ => 0.0)
  }

  /** A row of `n` zeros as observation values. */
  function ZeroValues(n: nat): (r: seq<Value>)
    ensures |r| == n
    ensures forall i :: 0 <= i < n ==> r[i] == Num(0.0)
  {
    seq(n, _ => Num(0.0))
  }

  /** `n` copies of the absent sentinel. */
  function NaNs(n: nat): (r: seq<Value>)
    ensures |r| == n
    ensures forall i :: 0 <= i < n ==> r[i] == NaN
  {
    seq(n, _ => NaN)
  }

  /** Real features as present observation values. */
  function Nums(s: seq<real>): (r: seq<Value>)
    ensures |r| == |s|
    ensures forall i :: 0 <= i < |s| ==> r[i] == Num(s[i])
  {
    seq(|s|, i requires 0 <= i < |s| => Num(s[i]))
  }

  /** Row-major concatenation of blocks (`np.array(blocks).flatten(order="C")`, `np.hstack`). */
  function Flatten<T>(blocks: seq<seq<T>>): seq<T>
  {
    if blocks == [] then [] else blocks[0] + Flatten(blocks[1..])
  }

  /** The predicate "every block has width w". */
  predicate AllWidth<T>(blocks: seq<seq<T>>, w: nat)
  {
    forall i :: 0 <= i < |blocks| ==> |blocks[i]| == w
  }

  lemma {:induction false} FlattenLength<T>(blocks: seq<seq<T>>, w: nat)
    requires AllWidth(blocks, w)
    ensures |Flatten(blocks)| == |blocks| * w
  {
    if blocks != [] {
      FlattenLength(blocks[1..], w);
      MulPred(|blocks|, w);
    }
  }

  /** `(n - 1) * w + w == n * w`, the step every row-by-row induction takes. */
  lemma MulPred(n: nat, w: nat)
    requires n > 0
    ensures (n - 1) * w + w == n * w
  {
  }

  /** Position `j` of row `i` lies inside a table of `n` rows of width `w`. */
  lemma RowInRange(i: nat, j: nat, n: nat, w: nat)
    requires i < n && j < w
    ensures i * w + j < n * w
  {
    assert i * w + j < i * w + w;
    assert i * w + w == (i + 1) * w;
    assert (i + 1) * w <= n * w;
  }

  /** Feature `j` of block `i` sits at position `i * w + j` of the flattened vector. */
  lemma {:induction false} FlattenAt<T>(blocks: seq<seq<T>>, w: nat, i: nat, j: nat)
    requires AllWidth(blocks, w)
    requires i < |blocks| && j < w
    ensures |Flatten(blocks)| == |blocks| * w
    ensures i * w + j < |blocks| * w
    ensures Flatten(blocks)[i * w + j] == blocks[i][j]
  {
    FlattenLength(blocks, w);
    RowInRange(i, j, |blocks|, w);
    var f := Flatten(blocks);
    assert f == blocks[0] + Flatten(blocks[1..]);
    if i == 0 {
      assert i * w + j == j;
    } else {
      var p := (i - 1) * w + j;
      FlattenAt(blocks[1..], w, i - 1, j);
      MulPred(i, w);
      assert i * w + j == w + p;
      assert |blocks[0]| == w;
      assert f[w + p] == Flatten(blocks[1..])[p];
    }
  }

  /** `s.view(n, w)`: cut a flat vector of `n * w` features into `n` consecutive rows of width `w`. */
  function Chunks<T>(s: seq<T>, n: nat, w: nat): (r: seq<seq<T>>)
    requires |s| == n * w
    ensures |r| == n
    ensures AllWidth(r, w)
  {
    if n == 0 then []
    else
      MulPred(n, w);
      [s[..w]] + Chunks(s[w..], n - 1, w)
  }

  /** Reshaping a flattened block list gives back the blocks. */
  lemma {:induction false} ChunksOfFlatten<T>(blocks: seq<seq<T>>, w: nat)
    requires AllWidth(blocks, w)
    ensures |Flatten(blocks)| == |blocks| * w
    ensures Chunks(Flatten(blocks), |blocks|, w) == blocks
  {
    FlattenLength(blocks, w);
    if blocks != [] {
      FlattenLength(blocks[1..], w);
      ChunksOfFlatten(blocks[1..], w);
      var f := Flatten(blocks);
      assert f == blocks[0] + Flatten(blocks[1..]);
      assert f[..w] == blocks[0];
      assert f[w..] == Flatten(blocks[1..]);
    }
  }

  /** Flattening the rows of a reshaped vector gives back the vector. */
  lemma {:induction false} FlattenOfChunks<T>(s: seq<T>, n: nat, w: nat)
    requires |s| == n * w
    ensures Flatten(Chunks(s, n, w)) == s
  {
    if n != 0 {
      MulPred(n, w);
      FlattenOfChunks(s[w..], n - 1, w);
      assert Chunks(s, n, w)[1..] == Chunks(s[w..], n - 1, w);
      assert s == s[..w] + s[w..];
    }
  }

  lemma {:induction false} FlattenAppend<T>(a: seq<seq<T>>, b: seq<seq<T>>)
    ensures Flatten(a + b) == Flatten(a) + Flatten(b)
  {
    if a != [] {
      assert (a + b)[1..] == a[1..] + b;
      FlattenAppend(a[1..], b);
    } else {
      assert a + b == b;
    }
  }

  /** Blocks of reals as blocks of present values. */
  function NumBlocks(blocks: seq<seq<real>>): (r: seq<seq<Value>>)
    ensures |r| == |blocks| && forall i :: 0 <= i < |blocks| ==> r[i] == Nums(blocks[i])
  {
    seq(|blocks|, i requires 0 <= i < |blocks| => Nums(blocks[i]))
  }

  /** `k` blocks of `w` absent values. */
  function NaNBlocks(k: nat, w: nat): (r: seq<seq<Value>>)
    ensures |r| == k && forall i :: 0 <= i < k ==> r[i] == NaNs(w)
  {
    seq(k, _ => NaNs(w))
  }

  lemma {:induction false} FlattenNumBlocks(blocks: seq<seq<real>>)
    ensures Flatten(NumBlocks(blocks)) == Nums(Flatten(blocks))
  {
    if blocks != [] {
      FlattenNumBlocks(blocks[1..]);
      assert NumBlocks(blocks)[1..] == NumBlocks(blocks[1..]);
      assert Nums(Flatten(blocks)) == Nums(blocks[0]) + Nums(Flatten(blocks[1..]));
    }
  }

  lemma {:induction false} FlattenNaNBlocks(k: nat, w: nat)
    ensures Flatten(NaNBlocks(k, w)) == NaNs(k * w)
  {
    if k != 0 {
      FlattenNaNBlocks(k - 1, w);
      MulPred(k, w);
      assert NaNBlocks(k, w)[1..] == NaNBlocks(k - 1, w);
      assert NaNs(k * w) == NaNs(w) + NaNs((k - 1) * w);
    }
  }

  /**
   * Right-padding flattened blocks to `n` blocks is flattening the blocks
   * followed by `n - |blocks|` blocks of absent values.
   */
  lemma PadRightBlocks(blocks: seq<seq<real>>, n: nat, w: nat)
    requires AllWidth(blocks, w) && |blocks| <= n
    ensures PadRight(Nums(Flatten(blocks)), n * w)
            == Wrappers.Some(Flatten(NumBlocks(blocks) + NaNBlocks(n - |blocks|, w)))
  {
    var c := |blocks|;
    var flat := Nums(Flatten(blocks));
    FlattenLength(blocks, w);
    MulSub(n, c, w);
    FlattenAppend(NumBlocks(blocks), NaNBlocks(n - c, w));
    FlattenNumBlocks(blocks);
    FlattenNaNBlocks(n - c, w);
    calc {
      Flatten(NumBlocks(blocks) + NaNBlocks(n - c, w));
      flat + NaNs((n - c) * w);
      flat + NaNs(n * w - |flat|);
    }
  }

  lemma MulSub(n: nat, c: nat, w: nat)
    requires c <= n
    ensures c * w <= n * w && (n - c) * w == n * w - c * w
  {
  }

  /**
   * `np.pad(s, (0, desired - len(s)), constant_values=np.nan)`: right-pad
   * with the absent sentinel; numpy refuses a negative pad width.
   */
  function PadRight(s: seq<Value>, desired: int): (r: Wrappers.Option<seq<Value>>)
    ensures r.Some? <==> |s| <= desired
    ensures r.Some? ==> |r.value| == desired && r.value[..|s|] == s
    ensures r.Some? ==> forall i :: |s| <= i < desired ==> r.value[i] == NaN
  {
    if |s| <= desired then Wrappers.Some(s + NaNs(desired - |s|)) else Wrappers.None
  }
}
