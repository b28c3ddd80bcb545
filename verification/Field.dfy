/** The BN254 scalar field on canonical representatives, and bit decompositions. */
module Field {
  import opened Arithmetic

  /** The order of the BN254 scalar field. */
  const ORDER: nat := 21888242871839275222246405745257275088548364400416034343698204186575808495617

  /** It is the order the curve's parameter gives. */
  lemma OrderOfCurve()
    ensures var x: nat := 4965661367192848881;
            ORDER == 36 * x * x * x * x + 36 * x * x * x + 18 * x * x + 6 * x + 1
  {
  }

  type Fe = x: nat | x < ORDER

  /** Reduction: how a 256-bit big-endian value enters the field. */
  function Reduce(n: nat): Fe { n % ORDER }

  lemma ReduceSmall(n: nat)
    requires n < ORDER
    ensures Reduce(n) == n
  {
  }

  function Add(a: Fe, b: Fe): Fe { Reduce(a + b) }

  function Sub(a: Fe, b: Fe): Fe { Reduce(a + ORDER - b) }

  function Mul(a: Fe, b: Fe): Fe
  {
    var product: nat := a * b;
    Reduce(product)
  }

  /** Subtraction wraps exactly when it would go negative. */
  lemma SubExact(a: Fe, b: Fe)
    ensures Sub(a, b) == if b <= a then a - b else a + ORDER - b
  {
  }

  // ----- bits --------------------------------------------------------------

  const BITS: nat := 254

  lemma {:induction false} Pow2Widths()
    ensures Pow2(7) == 128
    ensures Pow2(20) == 1_048_576
    ensures Pow2(32) == 4_294_967_296
    ensures Pow2(40) == 1_099_511_627_776
    ensures Pow2(120) == 1_329_227_995_784_915_872_903_807_060_280_344_576
  {
    Pow2Literals();
    assert Pow2(7) == 128;
    Pow2Sum(20, 12);
    Pow2Sum(80, 40);
  }

  /** The low `n` bits of `v`, least significant first. */
  function BitsOf(v: nat, n: nat): (bits: seq<bool>)
    ensures |bits| == n
  {
    if n == 0 then [] else [v % 2 == 1] + BitsOf(v / 2, n - 1)
  }

  function Recompose(bits: seq<bool>): nat {
    if |bits| == 0 then 0 else (if bits[0] then 1 else 0) + 2 * Recompose(bits[1..])
  }

  lemma {:induction false} PrefixBits(v: nat, n: nat, k: nat)
    requires k <= n
    ensures BitsOf(v, n)[..k] == BitsOf(v, k)
  {
    if k > 0 {
      PrefixBits(v / 2, n - 1, k - 1);
      assert BitsOf(v, n)[..k] == [v % 2 == 1] + BitsOf(v / 2, n - 1)[..k - 1];
    }
  }

  /** Recomposed low bits never exceed the value, and are all of it exactly when
      the value fits the width. */
  lemma {:induction false} RecomposeLow(v: nat, k: nat)
    ensures Recompose(BitsOf(v, k)) <= v
    ensures Recompose(BitsOf(v, k)) == v <==> v < Pow2(k)
  {
    if k > 0 {
      RecomposeLow(v / 2, k - 1);
      assert BitsOf(v, k)[1..] == BitsOf(v / 2, k - 1);
      assert v == 2 * (v / 2) + v % 2;
    }
  }

  /** `enforce_bit_width` as a predicate: the canonical bits, cut to `n` and put
      back together in the field, must give the value. */
  predicate BitWidth(v: Fe, n: nat)
    requires n <= BITS
  {
    v == Reduce(Recompose(BitsOf(v, BITS)[..n]))
  }

  lemma {:induction false} BitWidthIff(v: Fe, n: nat)
    requires n <= BITS
    ensures BitWidth(v, n) <==> v < Pow2(n)
  {
    PrefixBits(v, BITS, n);
    RecomposeLow(v, n);
    ReduceSmall(Recompose(BitsOf(v, n)));
  }
}
