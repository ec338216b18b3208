/** One minus the inner product: the scalar kernel, the blocked ones, and the choice InnerProductSpace makes. */
module SpaceIp {
  import opened Lanes

  /** One minus the inner product. */
  function Distance(a: seq<real>, b: seq<real>): real
    requires |a| == |b|
  {
    1.0 - Sum(Mul(a, b))
  }

  lemma ProductsOfBlock(a: seq<real>, b: seq<real>, at: nat, width: nat)
    requires |a| == |b| && at + width <= |a|
    ensures Mul(Load(a, at, width), Load(b, at, width)) == Mul(a, b)[at..at + width]
  {
    var x, y := Load(a, at, width), Load(b, at, width);
    forall i | 0 <= i < width
      ensures Mul(x, y)[i] == Mul(a, b)[at..at + width][i]
    {
      assert x[i] == a[at + i] && y[i] == b[at + i];
    }
  }

  method InnerProduct(a: seq<real>, b: seq<real>) returns (d: real)
    requires |a| == |b|
    ensures d == Distance(a, b)
  {
    var res := 0.0;
    for i := 0 to |a|
      invariant res == Total(Mul(a, b), 0, i)
    {
      res := res + a[i] * b[i];
    }
    d := 1.0 - res;
  }

  /** One of the repeated blocks of the kernels: a register of products is added to the lanes. */
  method BlockOfProducts(a: seq<real>, b: seq<real>, at: nat, width: nat, lanes: seq<real>) returns (p: nat, sum: seq<real>)
    requires |a| == |b| && at + width <= |a| && |lanes| == width && Sum(lanes) == Total(Mul(a, b), 0, at)
    ensures p == at + width && |sum| == width && Sum(sum) == Total(Mul(a, b), 0, p)
  {
    ProductsOfBlock(a, b, at, width);
    BlockAdded(Mul(a, b), lanes, at, width);
    p := at + width;
    sum := Add(lanes, Mul(Load(a, at, width), Load(b, at, width)));
  }

  /** Body of the AVX loops. */
  method SixteenInEights(a: seq<real>, b: seq<real>, at: nat, lanes: seq<real>) returns (p: nat, sum: seq<real>)
    requires |a| == |b| && at + 16 <= |a| && |lanes| == 8 && Sum(lanes) == Total(Mul(a, b), 0, at)
    ensures p == at + 16 && |sum| == 8 && Sum(sum) == Total(Mul(a, b), 0, p)
  {
    hide Total;
    p, sum := BlockOfProducts(a, b, at, 8, lanes);
    p, sum := BlockOfProducts(a, b, p, 8, sum);
  }

  /** Body of the SSE loops. */
  method SixteenInFours(a: seq<real>, b: seq<real>, at: nat, lanes: seq<real>) returns (p: nat, sum: seq<real>)
    requires |a| == |b| && at + 16 <= |a| && |lanes| == 4 && Sum(lanes) == Total(Mul(a, b), 0, at)
    ensures p == at + 16 && |sum| == 4 && Sum(sum) == Total(Mul(a, b), 0, p)
  {
    hide Total;
    p, sum := BlockOfProducts(a, b, at, 4, lanes);
    p, sum := BlockOfProducts(a, b, p, 4, sum);
    p, sum := BlockOfProducts(a, b, p, 4, sum);
    p, sum := BlockOfProducts(a, b, p, 4, sum);
  }

  /** The AVX loop over the rounds of sixteen. */
  method RoundsInEights(a: seq<real>, b: seq<real>, qty16: nat) returns (p: nat, sum: seq<real>)
    requires |a| == |b| && 16 * qty16 <= |a|
    ensures p == 16 * qty16 && |sum| == 8 && Sum(sum) == Total(Mul(a, b), 0, p)
  {
    p, sum := 0, Set1(8, 0.0);
    TotalOfZeros(8, 8);
    hide Total, Set1, Mul, Sum;
    ghost var rounds: nat := 0;
    while p < 16 * qty16
      invariant p == 16 * rounds && rounds <= qty16 && |sum| == 8 && Sum(sum) == Total(Mul(a, b), 0, p)
    {
      p, sum := SixteenInEights(a, b, p, sum);
      rounds := rounds + 1;
    }
  }

  /** The SSE loop over the rounds of sixteen. */
  method RoundsInFours(a: seq<real>, b: seq<real>, qty16: nat) returns (p: nat, sum: seq<real>)
    requires |a| == |b| && 16 * qty16 <= |a|
    ensures p == 16 * qty16 && |sum| == 4 && Sum(sum) == Total(Mul(a, b), 0, p)
  {
    p, sum := 0, Set1(4, 0.0);
    TotalOfZeros(4, 4);
    hide Total, Set1, Mul, Sum;
    ghost var rounds: nat := 0;
    while p < 16 * qty16
      invariant p == 16 * rounds && rounds <= qty16 && |sum| == 4 && Sum(sum) == Total(Mul(a, b), 0, p)
    {
      p, sum := SixteenInFours(a, b, p, sum);
      rounds := rounds + 1;
    }
  }

  /** The second loop of the four-wide kernels. */
  method RoundsOfFour(a: seq<real>, b: seq<real>, from: nat, lanes: seq<real>, qty4: nat, ghost done: nat) returns (sum: seq<real>)
    requires |a| == |b| && from == 4 * done && done <= qty4 && 4 * qty4 <= |a|
    requires |lanes| == 4 && Sum(lanes) == Total(Mul(a, b), 0, from)
    ensures |sum| == 4 && Sum(sum) == Total(Mul(a, b), 0, 4 * qty4)
  {
    hide Total;
    ghost var rounds := done;
    var p := from;
    sum := lanes;
    while p < 4 * qty4
      invariant p == 4 * rounds <= 4 * qty4 && |sum| == 4 && Sum(sum) == Total(Mul(a, b), 0, p)
    {
      p, sum := BlockOfProducts(a, b, p, 4, sum);
      rounds := rounds + 1;
    }
  }

  lemma QuartersFit(n: nat, qty16: nat, qty4: nat)
    requires 16 * qty16 <= n && n < 4 * qty4 + 4
    ensures 4 * qty16 <= qty4
  {
  }

  /** Rounds of sixteen in registers of eight, the halves added, then rounds of four. There is no tail: what
      is left of the vectors behind the last four is not looked at. */
  method InnerProductSIMD4ExtAvx(a: seq<real>, b: seq<real>) returns (d: real)
    requires |a| == |b|
    ensures d == 1.0 - Total(Mul(a, b), 0, 4 * Blocks(|a|, 4))
  {
    hide Blocks, Total, Add, Mul;
    var qty := |a|;
    var qty16 := Blocks(qty, 16);
    var qty4 := Blocks(qty, 4);
    var p, sum256 := RoundsInEights(a, b, qty16);
    HalvesAdded(sum256);
    QuartersFit(qty, qty16, qty4);
    var sum := RoundsOfFour(a, b, p, Add(sum256[..4], sum256[4..]), qty4, 4 * qty16);
    d := 1.0 - SumOf4(sum);
  }

  method InnerProductSIMD4ExtSse(a: seq<real>, b: seq<real>) returns (d: real)
    requires |a| == |b|
    ensures d == 1.0 - Total(Mul(a, b), 0, 4 * Blocks(|a|, 4))
  {
    hide Blocks, Total, Mul;
    var qty := |a|;
    var qty16 := Blocks(qty, 16);
    var qty4 := Blocks(qty, 4);
    var p, sum := RoundsInFours(a, b, qty16);
    QuartersFit(qty, qty16, qty4);
    sum := RoundsOfFour(a, b, p, sum, qty4, 4 * qty16);
    d := 1.0 - SumOf4(sum);
  }

  method InnerProductSIMD16ExtAvx(a: seq<real>, b: seq<real>) returns (d: real)
    requires |a| == |b|
    ensures d == 1.0 - Total(Mul(a, b), 0, 16 * Blocks(|a|, 16))
  {
    hide Blocks, Total, Mul;
    var p, sum256 := RoundsInEights(a, b, Blocks(|a|, 16));
    d := 1.0 - SumOf8(sum256);
  }

  method InnerProductSIMD16ExtSse(a: seq<real>, b: seq<real>) returns (d: real)
    requires |a| == |b|
    ensures d == 1.0 - Total(Mul(a, b), 0, 16 * Blocks(|a|, 16))
  {
    hide Blocks, Total, Mul;
    var p, sum := RoundsInFours(a, b, Blocks(|a|, 16));
    d := 1.0 - SumOf4(sum);
  }

  /** A kernel without a tail is exact precisely when the products it leaves out add up to nothing; with
      a dimension that is a multiple of its block there are none. */
  lemma ExactWithoutTail(a: seq<real>, b: seq<real>, block: nat)
    requires |a| == |b| && block > 0
    ensures block * Blocks(|a|, block) <= |a|
    ensures 1.0 - Total(Mul(a, b), 0, block * Blocks(|a|, block)) == Distance(a, b) <==>
            Total(Mul(a, b), block * Blocks(|a|, block), |a|) == 0.0
    ensures |a| % block == 0 ==> block * Blocks(|a|, block) == |a|
  {
    NoTail(|a|, block);
    var whole := block * Blocks(|a|, block);
    TotalSplits(Mul(a, b), 0, whole, |a|);
    hide Total, Mul, Blocks;
  }

  lemma NoTail(n: nat, block: nat)
    requires block > 0
    ensures 0 <= block * Blocks(n, block) <= n
    ensures n % block == 0 ==> block * Blocks(n, block) == n
  {
    assert n == block * (n / block) + n % block;
  }

  datatype Kernel = Scalar | Simd4 | Simd16

  /** InnerProductSpace: the second test overrides the first. */
  class InnerProductSpace {
    const target: Target
    const dim: nat
    const dataSize: nat
    const kernel: Kernel

    constructor (target: Target, dim: nat)
      ensures this.target == target && this.dim == dim && dataSize == 4 * dim
      ensures Chosen()
      ensures kernel == if target.Plain? || dim % 4 != 0 then Scalar else if dim % 16 != 0 then Simd4 else Simd16
    {
      this.target := target;
      var chosen := Scalar;
      if !target.Plain? {
        if dim % 4 == 0 {
          chosen := Simd4;
        }
        if dim % 16 == 0 {
          chosen := Simd16;
        }
      }
      this.kernel := chosen;
      this.dim := dim;
      this.dataSize := dim * 4;
    }

    ghost predicate Chosen() {
      && (kernel.Simd4? ==> dim % 4 == 0)
      && (kernel.Simd16? ==> dim % 16 == 0)
    }

    /** Whatever kernel was chosen, its value is one minus the inner product. */
    method Compute(a: seq<real>, b: seq<real>) returns (d: real)
      requires Chosen() && |a| == |b| == dim
      ensures d == Distance(a, b)
    {
      ExactWithoutTail(a, b, 4);
      ExactWithoutTail(a, b, 16);
      match kernel {
        case Scalar => d := InnerProduct(a, b);
        case Simd4 =>
          if target.Avx? {
            d := InnerProductSIMD4ExtAvx(a, b);
          } else {
            d := InnerProductSIMD4ExtSse(a, b);
          }
        case Simd16 =>
          if target.Avx? {
            d := InnerProductSIMD16ExtAvx(a, b);
          } else {
            d := InnerProductSIMD16ExtSse(a, b);
          }
      }
    }
  }
}
