/** Facts about products and floored quotients of naturals. */
module Arithmetic {

  lemma MulMono(a: nat, b: nat, c: nat, d: nat)
    requires a <= b && c <= d
    ensures a * c <= b * d
  {
    assert b * d - a * c == (b - a) * d + a * (d - c);
  }

  lemma Distribute(a: int, b: int, c: int)
    ensures (a + b) * c == a * c + b * c
    ensures c * (a + b) == c * a + c * b
  {
  }

  lemma MulCancelLe(a: int, b: int, c: int)
    requires c > 0 && a * c <= b * c
    ensures a <= b
  {
  }

  lemma MulCancelLt(a: int, b: int, c: int)
    requires c > 0 && a * c < b * c
    ensures a < b
  {
  }

  /** The defining bracket of `floor(n / d)`. */
  lemma DivBracket(n: nat, d: nat)
    requires d > 0
    ensures (n / d) * d <= n < (n / d + 1) * d
    ensures n == (n / d) * d + n % d
  {
    assert n == (n / d) * d + n % d;
  }

  /** A quotient is the only integer in its bracket. */
  lemma DivUnique(n: nat, d: nat, q: nat)
    requires d > 0 && q * d <= n < (q + 1) * d
    ensures n / d == q
  {
    DivBracket(n, d);
    MulCancelLt(q, n / d + 1, d);
    MulCancelLt(n / d, q + 1, d);
  }

  lemma DivMono(n: nat, m: nat, d: nat)
    requires d > 0 && n <= m
    ensures n / d <= m / d
  {
    DivBracket(n, d);
    DivBracket(m, d);
    MulCancelLt(n / d, m / d + 1, d);
  }

  lemma DivAntitone(n: nat, c: nat, d: nat)
    requires 0 < c <= d
    ensures n / d <= n / c
  {
    var q, p := n / d, n / c;
    DivBracket(n, c);
    DivBracket(n, d);
    MulMono(q, q, c, d);
    assert q * c < (p + 1) * c;
    MulCancelLt(q, p + 1, c);
  }

  lemma DivLeSelf(n: nat, d: nat)
    requires d > 0
    ensures n / d <= n
  {
    DivAntitone(n, 1, d);
  }

  function Product(a: nat, b: nat): nat { a * b }

  function Quot(n: nat, d: nat): nat
    requires d > 0
  {
    n / d
  }

  function Rem(n: nat, d: nat): nat
    requires d > 0
  {
    n % d
  }

  /** Only one remainder is below the divisor. */
  lemma SameRemainder(q: nat, p: nat, r: nat, s: nat, d: nat)
    requires q * d + r == p * d + s && r < d && s < d
    ensures r == s
  {
    Distribute(p, 1, d);
    Distribute(q, 1, d);
    MulCancelLt(q, p + 1, d);
    MulCancelLt(p, q + 1, d);
  }

  /** A multiple of the divisor does not show in the remainder. */
  lemma RemDropsMultiple(m: nat, n: nat, d: nat)
    requires d > 0
    ensures Rem(m * d + n, d) == Rem(n, d)
  {
    Distribute(m, Quot(n, d), d);
    SameRemainder(Quot(m * d + n, d), m + Quot(n, d), Rem(m * d + n, d), Rem(n, d), d);
  }

  /** A factor may be reduced before multiplying. */
  lemma RemOfFactor(a: nat, b: nat, d: nat)
    requires d > 0
    ensures Rem(Rem(a, d) * b, d) == Rem(a * b, d)
  {
    RemOfParts(a, b, Quot(a, d), Rem(a, d), d);
  }

  lemma RemOfParts(a: nat, b: nat, q: nat, r: nat, d: nat)
    requires d > 0 && a == q * d + r
    ensures Rem(r * b, d) == Rem(a * b, d)
  {
    ProductOfSum(q, r, b, d);
    RemDropsMultiple(q * b, r * b, d);
  }

  lemma ProductOfSum(q: nat, r: nat, b: nat, d: nat)
    ensures (q * d + r) * b == (q * b) * d + r * b
  {
    Distribute(q * d, r, b);
  }

  /** `floor(a * b / d)` over a double-width product. */
  function MulDiv(a: nat, b: nat, d: nat): nat
    requires d > 0
  {
    var product: nat := a * b;
    product / d
  }

  lemma MulDivLe(a: nat, b: nat, d: nat)
    requires d > 0 && b <= d
    ensures MulDiv(a, b, d) <= a
  {
  }

  /** Exact division by the scale. */
  lemma DivExact(a: nat, d: nat)
    requires d > 0
    ensures a * d / d == a
  {
    assert (a + 1) * d == a * d + d;
    DivUnique(a * d, d, a);
  }

  function Pow2(n: nat): (r: nat)
    ensures r >= 1
  {
    if n == 0 then 1 else 2 * Pow2(n - 1)
  }

  lemma {:induction false} Pow2Sum(a: nat, b: nat)
    ensures Pow2(a + b) == Pow2(a) * Pow2(b)
  {
    if a > 0 {
      Pow2Sum(a - 1, b);
    }
  }

  lemma {:induction false} Pow2Square(n: nat, v: nat)
    requires Pow2(n) == v
    ensures Pow2(n + n) == v * v
  {
    Pow2Sum(n, n);
  }

  lemma {:induction false} Pow2Literals()
    ensures Pow2(12) == 4096
    ensures Pow2(20) == 1_048_576
    ensures Pow2(40) == 1_099_511_627_776
    ensures Pow2(80) == 1_208_925_819_614_629_174_706_176
  {
    assert Pow2(10) == 1024;
    assert Pow2(12) == 4096;
    Pow2Square(10, 1024);
    Pow2Square(20, 1_048_576);
    Pow2Square(40, 1_099_511_627_776);
  }

  lemma {:induction false} Pow2Half(n: nat)
    requires n == 8
    ensures Pow2(4 * n) == 0x1_0000_0000
  {
    assert Pow2(8) == 256;
    Pow2Square(n, 256);
    Pow2Square(2 * n, 0x1_0000);
  }

  lemma {:induction false} Pow2Words(n: nat)
    requires n == 8
    ensures Pow2(8 * n) == 0x1_0000_0000_0000_0000
    ensures Pow2(16 * n) == 0x1_0000_0000_0000_0000_0000_0000_0000_0000
    ensures Pow2(32 * n) == 0x1_0000_0000_0000_0000_0000_0000_0000_0000 * 0x1_0000_0000_0000_0000_0000_0000_0000_0000
  {
    Pow2Half(n);
    Pow2Square(4 * n, 0x1_0000_0000);
    Pow2Square(8 * n, 0x1_0000_0000_0000_0000);
    Pow2Square(16 * n, 0x1_0000_0000_0000_0000_0000_0000_0000_0000);
  }
}
