/** The squared Euclidean distance: the scalar kernel, the blocked ones, and the choice L2Space makes. */
module SpaceL2 {
  import opened Lanes

  function Squares(a: seq<real>, b: seq<real>): (terms: seq<real>)
    requires |a| == |b|
    ensures |terms| == |a| && forall i | 0 <= i < |a| :: terms[i] == (a[i] - b[i]) * (a[i] - b[i])
  {
    seq(|a|, i requires 0 <= i < |a| => (a[i] - b[i]) * (a[i] - b[i]))
  }

  /** The squared Euclidean distance. */
  function Distance(a: seq<real>, b: seq<real>): real
    requires |a| == |b|
  {
    Sum(Squares(a, b))
  }

  lemma {:induction false} NoneNegative(terms: seq<real>, hi: nat)
    requires hi <= |terms| && forall i | 0 <= i < |terms| :: terms[i] >= 0.0
    ensures Total(terms, 0, hi) >= 0.0
    ensures Total(terms, 0, hi) == 0.0 <==> forall i | 0 <= i < hi :: terms[i] == 0.0
  {
    if hi > 0 {
      NoneNegative(terms, hi - 1);
    }
  }

  function Times(x: real, y: real): real {
    x * y
  }

  lemma PositiveProduct(x: real, y: real)
    requires x > 0.0 && y > 0.0
    ensures x * y > 0.0
  {
  }

  lemma OppositeProduct(x: real, y: real)
    ensures Times(-x, -y) == Times(x, y)
  {
    assert (-x) * (-y) == -(x * (-y)) == x * y;
  }

  lemma ProductSign(x: real, y: real)
    ensures x > 0.0 && y > 0.0 ==> Times(x, y) > 0.0
    ensures x < 0.0 && y < 0.0 ==> Times(x, y) > 0.0
    ensures x == 0.0 ==> Times(x, y) == 0.0
  {
    if x > 0.0 && y > 0.0 {
      PositiveProduct(x, y);
    } else if x < 0.0 && y < 0.0 {
      OppositeProduct(x, y);
      PositiveProduct(-x, -y);
    }
  }

  lemma SquareSign(x: real)
    ensures Times(x, x) >= 0.0 && (Times(x, x) == 0.0 <==> x == 0.0) && Times(-x, -x) == Times(x, x)
  {
    ProductSign(x, x);
    OppositeProduct(x, x);
    hide Times;
  }

  /** It is symmetric, never negative, and zero between equal vectors only. */
  lemma DistanceSeparates(a: seq<real>, b: seq<real>)
    requires |a| == |b|
    ensures Distance(a, b) == Distance(b, a) >= 0.0
    ensures Distance(a, b) == 0.0 <==> a == b
  {
    forall i | 0 <= i < |a|
      ensures Squares(a, b)[i] == Squares(b, a)[i] >= 0.0
      ensures Squares(a, b)[i] == 0.0 <==> a[i] == b[i]
    {
      var d := a[i] - b[i];
      assert Squares(a, b)[i] == Times(d, d) && Squares(b, a)[i] == Times(-d, -d);
      SquareSign(d);
      hide Times, Squares;
    }
    assert Squares(a, b) == Squares(b, a);
    NoneNegative(Squares(a, b), |a|);
  }

  lemma SquaresOfBlock(a: seq<real>, b: seq<real>, at: nat, width: nat)
    requires |a| == |b| && at + width <= |a|
    ensures var diff := Sub(Load(a, at, width), Load(b, at, width));
            Mul(diff, diff) == Squares(a, b)[at..at + width]
  {
    var diff := Sub(Load(a, at, width), Load(b, at, width));
    forall i | 0 <= i < width
      ensures Mul(diff, diff)[i] == Squares(a, b)[at..at + width][i]
    {
      assert diff[i] == a[at + i] - b[at + i];
    }
  }

  /** The scalar kernel over the elements from a position on. */
  method L2Sqr(a: seq<real>, b: seq<real>, from: nat, qty: nat) returns (res: real)
    requires |a| == |b| == from + qty
    ensures res == Total(Squares(a, b), from, from + qty)
  {
    res := 0.0;
    var p := from;
    for i := 0 to qty
      invariant p == from + i && res == Total(Squares(a, b), from, p)
    {
      var t := a[p] - b[p];
      p := p + 1;
      res := res + t * t;
    }
  }

  /** A register of squared differences is added to the lanes. */
  method BlockOfSquares(a: seq<real>, b: seq<real>, at: nat, width: nat, lanes: seq<real>) returns (p: nat, sum: seq<real>)
    requires |a| == |b| && at + width <= |a| && |lanes| == width && Sum(lanes) == Total(Squares(a, b), 0, at)
    ensures p == at + width && |sum| == width && Sum(sum) == Total(Squares(a, b), 0, p)
  {
    SquaresOfBlock(a, b, at, width);
    BlockAdded(Squares(a, b), lanes, at, width);
    var diff := Sub(Load(a, at, width), Load(b, at, width));
    p := at + width;
    sum := Add(lanes, Mul(diff, diff));
  }

  /** Body of the AVX loop. */
  method SixteenInEights(a: seq<real>, b: seq<real>, at: nat, lanes: seq<real>) returns (p: nat, sum: seq<real>)
    requires |a| == |b| && at + 16 <= |a| && |lanes| == 8 && Sum(lanes) == Total(Squares(a, b), 0, at)
    ensures p == at + 16 && |sum| == 8 && Sum(sum) == Total(Squares(a, b), 0, p)
  {
    hide Total, Squares;
    p, sum := BlockOfSquares(a, b, at, 8, lanes);
    p, sum := BlockOfSquares(a, b, p, 8, sum);
  }

  /** Body of the SSE loop. */
  method SixteenInFours(a: seq<real>, b: seq<real>, at: nat, lanes: seq<real>) returns (p: nat, sum: seq<real>)
    requires |a| == |b| && at + 16 <= |a| && |lanes| == 4 && Sum(lanes) == Total(Squares(a, b), 0, at)
    ensures p == at + 16 && |sum| == 4 && Sum(sum) == Total(Squares(a, b), 0, p)
  {
    hide Total, Squares;
    p, sum := BlockOfSquares(a, b, at, 4, lanes);
    p, sum := BlockOfSquares(a, b, p, 4, sum);
    p, sum := BlockOfSquares(a, b, p, 4, sum);
    p, sum := BlockOfSquares(a, b, p, 4, sum);
  }

  /** Sixteen elements a round, in two registers of eight. */
  method L2SqrSIMD16ExtAvx(a: seq<real>, b: seq<real>) returns (res: real)
    requires |a| == |b|
    ensures res == Distance(a, b)
  {
    hide Blocks, Total, Set1, Squares;
    var qty := |a|;
    var qty16 := Blocks(qty, 16);
    var p: nat, sum := 0, Set1(8, 0.0);
    SumOfZeros(8);
    ghost var rounds: nat := 0;
    while p < 16 * qty16
      invariant p == 16 * rounds && rounds <= qty16 && |sum| == 8 && Sum(sum) == Total(Squares(a, b), 0, p)
    {
      p, sum := SixteenInEights(a, b, p, sum);
      rounds := rounds + 1;
    }
    res := SumOf8(sum);
    var tail := L2Sqr(a, b, p, qty - 16 * qty16);
    TotalSplits(Squares(a, b), 0, p, qty);
    res := res + tail;
  }

  /** Sixteen elements a round, in four registers of four. */
  method L2SqrSIMD16ExtSse(a: seq<real>, b: seq<real>) returns (res: real)
    requires |a| == |b|
    ensures res == Distance(a, b)
  {
    hide Blocks, Total, Set1, Squares;
    var qty := |a|;
    var qty16 := Blocks(qty, 16);
    var p: nat, sum := 0, Set1(4, 0.0);
    SumOfZeros(4);
    ghost var rounds: nat := 0;
    while p < 16 * qty16
      invariant p == 16 * rounds && rounds <= qty16 && |sum| == 4 && Sum(sum) == Total(Squares(a, b), 0, p)
    {
      p, sum := SixteenInFours(a, b, p, sum);
      rounds := rounds + 1;
    }
    res := SumOf4(sum);
    var tail := L2Sqr(a, b, p, qty - 16 * qty16);
    TotalSplits(Squares(a, b), 0, p, qty);
    res := res + tail;
  }

  method L2SqrSIMD4Ext(a: seq<real>, b: seq<real>) returns (res: real)
    requires |a| == |b|
    ensures res == Distance(a, b)
  {
    var qty := |a|;
    var qty4 := Blocks(qty, 4);
    ghost var terms := Squares(a, b);
    var p: nat := 0;
    var sum := Set1(4, 0.0);
    TotalOfZeros(4, 4);
    hide Blocks, Total, Set1, Add, Mul, Sub, Load, Squares;
    ghost var rounds: nat := 0;
    while p < 4 * qty4
      invariant p == 4 * rounds <= 4 * qty4 && |sum| == 4 && Sum(sum) == Total(terms, 0, p)
    {
      p, sum := BlockOfSquares(a, b, p, 4, sum);
      rounds := rounds + 1;
    }
    res := SumOf4(sum);
    var tail := L2Sqr(a, b, p, qty - 4 * qty4);
    TotalSplits(terms, 0, p, qty);
    res := res + tail;
  }

  datatype Kernel = Scalar | Simd4 | Simd16

  /** L2Space: the constructor picks the kernel by the dimension. */
  class L2Space {
    const target: Target
    const dim: nat
    const dataSize: nat
    const kernel: Kernel

    constructor (target: Target, dim: nat)
      ensures this.target == target && this.dim == dim && dataSize == 4 * dim
      ensures kernel == if target.Plain? || dim < 4 then Scalar else if dim < 16 then Simd4 else Simd16
    {
      this.target := target;
      this.kernel := Scalar;
      if !target.Plain? {
        if dim >= 16 {
          this.kernel := Simd16;
        } else if dim >= 4 {
          this.kernel := Simd4;
        }
      }
      this.dim := dim;
      this.dataSize := dim * 4;
    }

    /** Whatever kernel was chosen, its value is the squared Euclidean distance. */
    method Compute(a: seq<real>, b: seq<real>) returns (d: real)
      requires |a| == |b| == dim
      ensures d == Distance(a, b)
    {
      match kernel {
        case Scalar => d := L2Sqr(a, b, 0, dim);
        case Simd4 => d := L2SqrSIMD4Ext(a, b);
        case Simd16 =>
          if target.Avx? {
            d := L2SqrSIMD16ExtAvx(a, b);
          } else {
            d := L2SqrSIMD16ExtSse(a, b);
          }
      }
    }
  }
}
