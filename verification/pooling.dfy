/** The numerical post-processing of the embedding service, over the reals:
    mask-weighted mean pooling of per-token hidden vectors, and L2
    normalisation of the pooled vectors. */
module Pooling {

  /** The lower bound `torch.clamp` puts on a sequence's mask total (1e-9). */
  const MaskFloor: real := 0.000000001

  /** The lower bound `F.normalize` puts on a vector's norm (its default
      `eps`, 1e-12). */
  const NormFloor: real := 0.000000000001

  type Vector = seq<real>

  /** One sequence's hidden vectors agree with its attention mask in length,
      and every hidden vector has `width` components. */
  predicate Shaped(tokens: seq<Vector>, mask: seq<int>, width: nat) {
    && |mask| == |tokens|
    && forall t :: 0 <= t < |tokens| ==> |tokens[t]| == width
  }

  /** An attention mask as the tokenizer produces it: 1 for a real token, 0
      for padding. */
  predicate Binary(mask: seq<int>) {
    forall t :: 0 <= t < |mask| ==> mask[t] == 0 || mask[t] == 1
  }

  /** The mask total, as a float. */
  function MaskTotal(mask: seq<int>): real {
    if |mask| == 0 then 0.0 else mask[0] as real + MaskTotal(mask[1..])
  }

  /** Component `d` of the sum of hidden vectors, each weighted by its mask entry. */
  function WeightedSum(tokens: seq<Vector>, mask: seq<int>, d: nat): real
    requires |mask| == |tokens|
    requires forall t :: 0 <= t < |tokens| ==> d < |tokens[t]|
  {
    if |tokens| == 0 then 0.0
    else tokens[0][d] * mask[0] as real + WeightedSum(tokens[1..], mask[1..], d)
  }

  /** `torch.clamp(x, min=MaskFloor)`. */
  function ClampMask(x: real): real {
    if x < MaskFloor then MaskFloor else x
  }

  /** Mean pooling of one sequence: every component is the mask-weighted sum
      over the tokens divided by the clamped mask total. */
  function PoolOne(tokens: seq<Vector>, mask: seq<int>, width: nat): (v: Vector)
    requires Shaped(tokens, mask, width)
    ensures |v| == width
  {
    seq(width, d requires 0 <= d < width => WeightedSum(tokens, mask, d) / ClampMask(MaskTotal(mask)))
  }

  /** Every sequence of a batch is shaped against its own mask row, with one
      common width. */
  predicate BatchShaped(hidden: seq<seq<Vector>>, mask: seq<seq<int>>, width: nat) {
    && |mask| == |hidden|
    && forall b :: 0 <= b < |hidden| ==> Shaped(hidden[b], mask[b], width)
  }

  /** `mean_pooling`: one pooled vector per sequence, each of the hidden width. */
  function MeanPooling(hidden: seq<seq<Vector>>, mask: seq<seq<int>>, width: nat): (pooled: seq<Vector>)
    requires BatchShaped(hidden, mask, width)
    ensures |pooled| == |hidden|
    ensures forall b :: 0 <= b < |pooled| ==> |pooled[b]| == width
  {
    seq(|hidden|, b requires 0 <= b < |hidden| => PoolOne(hidden[b], mask[b], width))
  }

  lemma {:induction false} WeightedSumIgnoresMasked(tokens1: seq<Vector>, tokens2: seq<Vector>, mask: seq<int>, width: nat, d: nat)
    requires Shaped(tokens1, mask, width) && Shaped(tokens2, mask, width) && d < width
    requires forall t :: 0 <= t < |mask| && mask[t] != 0 ==> tokens1[t] == tokens2[t]
    ensures WeightedSum(tokens1, mask, d) == WeightedSum(tokens2, mask, d)
    decreases |mask|
  {
    if |mask| > 0 {
      WeightedSumIgnoresMasked(tokens1[1..], tokens2[1..], mask[1..], width, d);
      if mask[0] != 0 {
        assert tokens1[0] == tokens2[0];
      }
    }
  }

  /** Padding contributes nothing: changing the hidden vectors of tokens whose
      mask is 0 leaves the pooled vector unchanged. */
  lemma PoolIgnoresMasked(tokens1: seq<Vector>, tokens2: seq<Vector>, mask: seq<int>, width: nat)
    requires Shaped(tokens1, mask, width) && Shaped(tokens2, mask, width)
    requires forall t :: 0 <= t < |mask| && mask[t] != 0 ==> tokens1[t] == tokens2[t]
    ensures PoolOne(tokens1, mask, width) == PoolOne(tokens2, mask, width)
  {
    forall d | 0 <= d < width
      ensures PoolOne(tokens1, mask, width)[d] == PoolOne(tokens2, mask, width)[d]
    {
      WeightedSumIgnoresMasked(tokens1, tokens2, mask, width, d);
    }
  }

  lemma {:induction false} AllMaskedSums(tokens: seq<Vector>, mask: seq<int>, width: nat, d: nat)
    requires Shaped(tokens, mask, width) && d < width
    requires forall t :: 0 <= t < |mask| ==> mask[t] == 0
    ensures WeightedSum(tokens, mask, d) == 0.0 && MaskTotal(mask) == 0.0
    decreases |mask|
  {
    if |mask| > 0 {
      AllMaskedSums(tokens[1..], mask[1..], width, d);
    }
  }

  /** A fully masked (or empty) sequence pools to the zero vector: the clamp
      keeps the division defined. */
  lemma PoolAllMaskedIsZero(tokens: seq<Vector>, mask: seq<int>, width: nat)
    requires Shaped(tokens, mask, width)
    requires forall t :: 0 <= t < |mask| ==> mask[t] == 0
    ensures forall d :: 0 <= d < width ==> PoolOne(tokens, mask, width)[d] == 0.0
  {
    forall d | 0 <= d < width
      ensures PoolOne(tokens, mask, width)[d] == 0.0
    {
      AllMaskedSums(tokens, mask, width, d);
    }
  }

  lemma {:induction false} SumsAppend(tokens: seq<Vector>, mask: seq<int>, pad: seq<Vector>, padMask: seq<int>, width: nat, d: nat)
    requires Shaped(tokens, mask, width) && Shaped(pad, padMask, width) && d < width
    ensures WeightedSum(tokens + pad, mask + padMask, d) == WeightedSum(tokens, mask, d) + WeightedSum(pad, padMask, d)
    ensures MaskTotal(mask + padMask) == MaskTotal(mask) + MaskTotal(padMask)
    decreases |mask|
  {
    if |mask| > 0 {
      assert (tokens + pad)[1..] == tokens[1..] + pad;
      assert (mask + padMask)[1..] == mask[1..] + padMask;
      SumsAppend(tokens[1..], mask[1..], pad, padMask, width, d);
    } else {
      assert tokens + pad == pad && mask + padMask == padMask;
    }
  }

  /** Padding a sequence with masked-out tokens, as batching does to all but
      the longest text, does not change its pooled vector. */
  lemma PoolIgnoresPadding(tokens: seq<Vector>, mask: seq<int>, pad: seq<Vector>, padMask: seq<int>, width: nat)
    requires Shaped(tokens, mask, width) && Shaped(pad, padMask, width)
    requires forall t :: 0 <= t < |padMask| ==> padMask[t] == 0
    ensures PoolOne(tokens + pad, mask + padMask, width) == PoolOne(tokens, mask, width)
  {
    forall d | 0 <= d < width
      ensures PoolOne(tokens + pad, mask + padMask, width)[d] == PoolOne(tokens, mask, width)[d]
    {
      SumsAppend(tokens, mask, pad, padMask, width, d);
      AllMaskedSums(pad, padMask, width, d);
    }
  }

  lemma {:induction false} MaskTotalAtLeastOne(mask: seq<int>)
    requires Binary(mask)
    ensures MaskTotal(mask) >= 0.0
    ensures (exists t :: 0 <= t < |mask| && mask[t] == 1) ==> MaskTotal(mask) >= 1.0
    decreases |mask|
  {
    if |mask| > 0 {
      MaskTotalAtLeastOne(mask[1..]);
      if mask[0] != 1 && exists t :: 0 <= t < |mask| && mask[t] == 1 {
        var t :| 0 <= t < |mask| && mask[t] == 1;
        assert mask[1..][t - 1] == 1;
      }
    }
  }

  lemma {:induction false} WeightedSumBounds(tokens: seq<Vector>, mask: seq<int>, width: nat, d: nat, lo: real, hi: real)
    requires Shaped(tokens, mask, width) && d < width && Binary(mask)
    requires forall t :: 0 <= t < |mask| && mask[t] == 1 ==> lo <= tokens[t][d] <= hi
    ensures lo * MaskTotal(mask) <= WeightedSum(tokens, mask, d) <= hi * MaskTotal(mask)
    decreases |mask|
  {
    if |mask| > 0 {
      var rest, restSum := MaskTotal(mask[1..]), WeightedSum(tokens[1..], mask[1..], d);
      WeightedSumBounds(tokens[1..], mask[1..], width, d, lo, hi);
      var x := tokens[0][d];
      if mask[0] == 0 {
        assert x * mask[0] as real == 0.0;
        assert MaskTotal(mask) == rest;
        assert WeightedSum(tokens, mask, d) == restSum;
      } else {
        assert lo <= x <= hi;
        assert x * mask[0] as real == x;
        assert MaskTotal(mask) == 1.0 + rest;
        assert WeightedSum(tokens, mask, d) == x + restSum;
        assert lo * (1.0 + rest) == lo + lo * rest;
        assert hi * (1.0 + rest) == hi + hi * rest;
      }
    }
  }

  lemma QuotientBetween(sum: real, total: real, lo: real, hi: real)
    requires total > 0.0 && lo * total <= sum <= hi * total
    ensures lo <= sum / total <= hi
  {
    var q := sum / total;
    assert q * total == sum;
    assert (q - lo) * total >= 0.0;
    assert (hi - q) * total >= 0.0;
  }

  /** Pooling is an average: when at least one token is unmasked, every
      pooled component lies between the least and the greatest value that
      component takes over the unmasked tokens. */
  lemma PoolWithinBounds(tokens: seq<Vector>, mask: seq<int>, width: nat, d: nat, lo: real, hi: real)
    requires Shaped(tokens, mask, width) && d < width && Binary(mask)
    requires exists t :: 0 <= t < |mask| && mask[t] == 1
    requires forall t :: 0 <= t < |mask| && mask[t] == 1 ==> lo <= tokens[t][d] <= hi
    ensures lo <= PoolOne(tokens, mask, width)[d] <= hi
  {
    WeightedSumBounds(tokens, mask, width, d, lo, hi);
    MaskTotalAtLeastOne(mask);
    var total, sum := MaskTotal(mask), WeightedSum(tokens, mask, d);
    assert ClampMask(total) == total;
    assert PoolOne(tokens, mask, width)[d] == sum / total;
    QuotientBetween(sum, total, lo, hi);
  }

  /** The squared Euclidean norm. */
  function SumSquares(v: Vector): real {
    if |v| == 0 then 0.0 else v[0] * v[0] + SumSquares(v[1..])
  }

  /** `F.normalize(v, p=2)`: every component divided by the Euclidean norm,
      clamped below at `NormFloor`. The square root is a parameter. */
  function L2Normalize(v: Vector, sqrt: real -> real): (u: Vector)
    ensures |u| == |v|
  {
    var norm := sqrt(SumSquares(v));
    var denom := if norm < NormFloor then NormFloor else norm;
    seq(|v|, i requires 0 <= i < |v| => v[i] / denom)
  }

  lemma {:induction false} SumSquaresDivide(v: Vector, u: Vector, c: real)
    requires c > 0.0 && |u| == |v|
    requires forall i :: 0 <= i < |v| ==> u[i] == v[i] / c
    ensures SumSquares(u) * (c * c) == SumSquares(v)
    decreases |v|
  {
    if |v| > 0 {
      SumSquaresDivide(v[1..], u[1..], c);
      assert u[0] * c == v[0];
      assert SumSquares(u) * (c * c) == u[0] * u[0] * (c * c) + SumSquares(u[1..]) * (c * c);
      assert u[0] * u[0] * (c * c) == (u[0] * c) * (u[0] * c);
    }
  }

  /** A vector whose norm reaches the clamp is normalised to unit length,
      provided `sqrt` returns the non-negative square root of its squared
      norm. */
  lemma NormalizeUnit(v: Vector, sqrt: real -> real)
    requires sqrt(SumSquares(v)) >= NormFloor
    requires sqrt(SumSquares(v)) * sqrt(SumSquares(v)) == SumSquares(v)
    ensures SumSquares(L2Normalize(v, sqrt)) == 1.0
  {
    var norm := sqrt(SumSquares(v));
    var u := L2Normalize(v, sqrt);
    SumSquaresDivide(v, u, norm);
    assert SumSquares(u) * (norm * norm) == SumSquares(v);
    assert SumSquares(v) == norm * norm;
    UnitFactor(SumSquares(u), norm * norm);
  }

  lemma UnitFactor(x: real, k: real)
    requires k > 0.0 && x * k == k
    ensures x == 1.0
  {
    assert (x - 1.0) * k == 0.0;
  }

  /** `F.normalize` over a batch, row by row. */
  function NormalizeRows(rows: seq<Vector>, sqrt: real -> real): (out: seq<Vector>)
    ensures |out| == |rows|
    ensures forall b :: 0 <= b < |rows| ==> |out[b]| == |rows[b]|
  {
    seq(|rows|, b requires 0 <= b < |rows| => L2Normalize(rows[b], sqrt))
  }
}
