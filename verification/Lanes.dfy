/** Vector registers of four or eight lanes, and sums of terms taken lane by lane. Numbers are reals: rounding
    is not modelled. */
module Lanes {
  /** The instruction sets the kernels are compiled for; AVX implies SSE. */
  datatype Target = Plain | Sse | Avx

  /** How many whole blocks there are in n elements. */
  function Blocks(n: nat, block: nat): (q: nat)
    requires block > 0
    ensures block * q <= n < block * q + block
  {
    n / block
  }

  function Set1(width: nat, x: real): (r: seq<real>)
    ensures |r| == width
  {
    seq(width, _ => x)
  }

  function Load(v: seq<real>, at: nat, width: nat): (r: seq<real>)
    requires at + width <= |v|
    ensures |r| == width
  {
    v[at..at + width]
  }

  function Add(x: seq<real>, y: seq<real>): (r: seq<real>)
    requires |x| == |y|
    ensures |r| == |x| && forall i | 0 <= i < |x| :: r[i] == x[i] + y[i]
  {
    seq(|x|, i requires 0 <= i < |x| => x[i] + y[i])
  }

  function Sub(x: seq<real>, y: seq<real>): (r: seq<real>)
    requires |x| == |y|
    ensures |r| == |x| && forall i | 0 <= i < |x| :: r[i] == x[i] - y[i]
  {
    seq(|x|, i requires 0 <= i < |x| => x[i] - y[i])
  }

  function Mul(x: seq<real>, y: seq<real>): (r: seq<real>)
    requires |x| == |y|
    ensures |r| == |x| && forall i | 0 <= i < |x| :: r[i] == x[i] * y[i]
  {
    seq(|x|, i requires 0 <= i < |x| => x[i] * y[i])
  }

  /** The sum of the terms from lo up to hi. */
  function Total(terms: seq<real>, lo: nat, hi: nat): real
    requires lo <= hi <= |terms|
  {
    if lo == hi then 0.0 else Total(terms, lo, hi - 1) + terms[hi - 1]
  }

  function Sum(lanes: seq<real>): real {
    Total(lanes, 0, |lanes|)
  }

  lemma {:induction false} TotalSplits(terms: seq<real>, lo: nat, mid: nat, hi: nat)
    requires lo <= mid <= hi <= |terms|
    ensures Total(terms, lo, hi) == Total(terms, lo, mid) + Total(terms, mid, hi)
  {
    if mid < hi {
      TotalSplits(terms, lo, mid, hi - 1);
    }
  }

  lemma {:induction false} TotalOfSlice(terms: seq<real>, at: nat, width: nat, k: nat)
    requires at + width <= |terms| && k <= width
    ensures Total(terms[at..at + width], 0, k) == Total(terms, at, at + k)
  {
    if k > 0 {
      TotalOfSlice(terms, at, width, k - 1);
    }
  }

  lemma {:induction false} TotalOfSum(x: seq<real>, y: seq<real>, k: nat)
    requires |x| == |y| && k <= |x|
    ensures Total(Add(x, y), 0, k) == Total(x, 0, k) + Total(y, 0, k)
  {
    if k > 0 {
      TotalOfSum(x, y, k - 1);
    }
  }

  lemma {:induction false} TotalOfZeros(width: nat, k: nat)
    requires k <= width
    ensures Total(Set1(width, 0.0), 0, k) == 0.0
  {
    if k > 0 {
      TotalOfZeros(width, k - 1);
    }
  }

  lemma SumOfZeros(width: nat)
    ensures Sum(Set1(width, 0.0)) == 0.0
    ensures forall terms: seq<real> :: Total(terms, 0, 0) == 0.0
  {
    TotalOfZeros(width, width);
  }

  /** One step of a kernel: a block of terms is added to the lanes. */
  lemma BlockAdded(terms: seq<real>, lanes: seq<real>, at: nat, width: nat)
    requires at + width <= |terms| && |lanes| == width && Sum(lanes) == Total(terms, 0, at)
    ensures Sum(Add(lanes, terms[at..at + width])) == Total(terms, 0, at + width)
  {
    TotalOfSum(lanes, terms[at..at + width], width);
    TotalOfSlice(terms, at, width, width);
    TotalSplits(terms, 0, at, at + width);
  }

  lemma TwoMore(lanes: seq<real>, k: nat)
    requires k + 2 <= |lanes|
    ensures Total(lanes, 0, k + 2) == Total(lanes, 0, k) + lanes[k] + lanes[k + 1]
  {
    assert Total(lanes, 0, k + 1) == Total(lanes, 0, k) + lanes[k];
  }

  /** TmpRes[0] + TmpRes[1] + TmpRes[2] + TmpRes[3] */
  function SumOf4(lanes: seq<real>): (s: real)
    requires |lanes| == 4
    ensures s == Sum(lanes)
  {
    TwoMore(lanes, 0);
    TwoMore(lanes, 2);
    lanes[0] + lanes[1] + lanes[2] + lanes[3]
  }

  function SumOf8(lanes: seq<real>): (s: real)
    requires |lanes| == 8
    ensures s == Sum(lanes)
  {
    TwoMore(lanes, 0);
    TwoMore(lanes, 2);
    TwoMore(lanes, 4);
    TwoMore(lanes, 6);
    lanes[0] + lanes[1] + lanes[2] + lanes[3] + lanes[4] + lanes[5] + lanes[6] + lanes[7]
  }

  /** The low and the high half of a register added. */
  lemma HalvesAdded(lanes: seq<real>)
    requires |lanes| == 8
    ensures Sum(Add(lanes[..4], lanes[4..])) == Sum(lanes)
  {
    TotalOfSum(lanes[..4], lanes[4..], 4);
    TotalOfSlice(lanes, 0, 4, 4);
    TotalOfSlice(lanes, 4, 4, 4);
    assert lanes[0..0 + 4] == lanes[..4] && lanes[4..4 + 4] == lanes[4..];
    TotalSplits(lanes, 0, 4, 8);
  }
}
