/** Largest-remainder (Hamilton) apportionment of an integer amount, as in the
    payout core: exact, fair, and optimal among all integer splits. */
module Apportionment {
  import opened Words
  import opened Arithmetic
  import opened Sums

  // ----- the ranking by remainder ------------------------------------------

  /** `a` is ranked ahead of `b`: larger remainder first, lower index on ties. */
  predicate Ahead(rem: seq<nat>, a: nat, b: nat)
    requires a < |rem| && b < |rem|
  {
    rem[a] > rem[b] || (rem[a] == rem[b] && a < b)
  }

  predicate Indices(rem: seq<nat>, order: seq<nat>) {
    forall i :: 0 <= i < |order| ==> order[i] < |rem|
  }

  ghost predicate InOrder(rem: seq<nat>, order: seq<nat>)
    requires Indices(rem, order)
  {
    forall i, j :: 0 <= i < j < |order| ==>
      rem[order[i]] > rem[order[j]] || (rem[order[i]] == rem[order[j]] && order[i] < order[j])
  }

  function Insert(rem: seq<nat>, order: seq<nat>, x: nat): (r: seq<nat>)
    requires Indices(rem, order) && x < |rem|
    ensures Indices(rem, r)
    ensures |r| == |order| + 1
    ensures forall y :: y in r <==> y in order || y == x
  {
    if order == [] || Ahead(rem, x, order[0]) then [x] + order
    else
      assert order == [order[0]] + order[1..];
      [order[0]] + Insert(rem, order[1..], x)
  }

  lemma {:induction false} InsertKeepsOrder(rem: seq<nat>, order: seq<nat>, x: nat)
    requires Indices(rem, order) && x < |rem|
    requires InOrder(rem, order) && x !in order
    ensures InOrder(rem, Insert(rem, order, x))
  {
    if order != [] && !Ahead(rem, x, order[0]) {
      var rest := Insert(rem, order[1..], x);
      InsertKeepsOrder(rem, order[1..], x);
      forall j | 0 <= j < |rest| ensures Ahead(rem, order[0], rest[j]) {
        assert rest[j] in rest;
      }
    }
  }

  /** The indices below `n` sorted by `Ahead`: what the ranking sort leaves. */
  function Ranked(rem: seq<nat>, n: nat): (order: seq<nat>)
    requires n <= |rem|
    ensures Indices(rem, order)
    ensures |order| == n
    ensures forall i :: i in order <==> 0 <= i < n
  {
    if n == 0 then []
    else
      Insert(rem, Ranked(rem, n - 1), n - 1)
  }

  lemma {:induction false} RankedInOrder(rem: seq<nat>, n: nat)
    requires n <= |rem|
    ensures InOrder(rem, Ranked(rem, n))
  {
    if n > 0 {
      RankedInOrder(rem, n - 1);
      InsertKeepsOrder(rem, Ranked(rem, n - 1), n - 1);
    }
  }

  function Pick(rem: seq<nat>, order: seq<nat>): (r: seq<nat>)
    requires Indices(rem, order)
    ensures |r| == |order|
  {
    seq(|order|, i requires 0 <= i < |order| => rem[order[i]])
  }

  lemma {:induction false} PickInsertSum(rem: seq<nat>, order: seq<nat>, x: nat)
    requires Indices(rem, order) && x < |rem|
    ensures Sum(Pick(rem, Insert(rem, order, x))) == Sum(Pick(rem, order)) + rem[x]
  {
    if order == [] || Ahead(rem, x, order[0]) {
      assert Pick(rem, [x] + order) == [rem[x]] + Pick(rem, order);
      SumConcat([rem[x]], Pick(rem, order));
      assert Sum([rem[x]]) == rem[x];
    } else {
      var first, rest := rem[order[0]], Insert(rem, order[1..], x);
      PickInsertSum(rem, order[1..], x);
      assert Pick(rem, [order[0]] + rest) == [first] + Pick(rem, rest);
      assert Pick(rem, order) == [first] + Pick(rem, order[1..]);
      SumConcat([first], Pick(rem, rest));
      SumConcat([first], Pick(rem, order[1..]));
    }
  }

  lemma {:induction false} PickRankedSum(rem: seq<nat>, n: nat)
    requires n <= |rem|
    ensures Sum(Pick(rem, Ranked(rem, n))) == Sum(rem[..n])
  {
    if n > 0 {
      PickRankedSum(rem, n - 1);
      PickInsertSum(rem, Ranked(rem, n - 1), n - 1);
      SumPrefix(rem, n - 1);
    }
  }

  // ----- the shares --------------------------------------------------------

  ghost predicate Splittable(ws: seq<nat>, wsum: nat) {
    wsum == Sum(ws) && wsum > 0
  }

  function Floors(total: nat, ws: seq<nat>, wsum: nat): (r: seq<nat>)
    requires wsum > 0
    ensures |r| == |ws|
  {
    seq(|ws|, i requires 0 <= i < |ws| => total * ws[i] / wsum)
  }

  function Remainders(total: nat, ws: seq<nat>, wsum: nat): (r: seq<nat>)
    requires wsum > 0
    ensures |r| == |ws|
    ensures forall i :: 0 <= i < |r| ==> r[i] < wsum
  {
    seq(|ws|, i requires 0 <= i < |ws| => total * ws[i] % wsum)
  }

  ghost predicate Divides(t: nat, w: nat, wsum: nat, f: nat, r: nat) {
    t * w == wsum * f + r
  }

  lemma FloorAndRemainder(t: nat, w: nat, wsum: nat)
    requires wsum > 0
    ensures Divides(t, w, wsum, t * w / wsum, t * w % wsum)
  {
    DivBracket(t * w, wsum);
  }

  lemma {:induction false} DivisionsAccount(total: nat, ws: seq<nat>, wsum: nat, f: seq<nat>, r: seq<nat>)
    requires |f| == |r| == |ws|
    requires forall i :: 0 <= i < |ws| ==> Divides(total, ws[i], wsum, f[i], r[i])
    ensures total * Sum(ws) == wsum * Sum(f) + Sum(r)
  {
    if |ws| > 0 {
      var n := |ws| - 1;
      DivisionsAccount(total, ws[..n], wsum, f[..n], r[..n]);
      assert Divides(total, ws[n], wsum, f[n], r[n]);
      Distribute(Sum(ws[..n]), ws[n], total);
      Distribute(Sum(f[..n]), f[n], wsum);
    }
  }

  lemma FloorDivides(total: nat, ws: seq<nat>, wsum: nat, i: nat)
    requires wsum > 0 && i < |ws|
    ensures Divides(total, ws[i], wsum, Floors(total, ws, wsum)[i], Remainders(total, ws, wsum)[i])
  {
    FloorAndRemainder(total, ws[i], wsum);
  }

  /** Floors and remainders account for the whole of `total * wsum`. */
  lemma {:induction false} FloorsAccount(total: nat, ws: seq<nat>, wsum: nat)
    requires Splittable(ws, wsum)
    ensures total * wsum == wsum * Sum(Floors(total, ws, wsum)) + Sum(Remainders(total, ws, wsum))
  {
    forall i | 0 <= i < |ws|
      ensures Divides(total, ws[i], wsum, Floors(total, ws, wsum)[i], Remainders(total, ws, wsum)[i])
    {
      FloorDivides(total, ws, wsum, i);
    }
    DivisionsAccount(total, ws, wsum, Floors(total, ws, wsum), Remainders(total, ws, wsum));
  }

  /** If `w * t == w * f + r` with `r < w * n` then `t - f` lies in `[0, n)`. */
  lemma QuotientGap(w: nat, t: nat, f: nat, r: nat, n: nat)
    requires w > 0 && t * w == w * f + r && r < w * n
    ensures f <= t < f + n
    ensures r == w * (t - f)
  {
    MulCancelLe(f, t, w);
    assert w * (t - f) == r;
    MulCancelLt(t - f, n, w);
  }

  lemma {:induction false} RemaindersSum(total: nat, ws: seq<nat>, wsum: nat)
    requires Splittable(ws, wsum)
    ensures Sum(Floors(total, ws, wsum)) <= total < Sum(Floors(total, ws, wsum)) + |ws|
    ensures Sum(Remainders(total, ws, wsum)) == wsum * (total - Sum(Floors(total, ws, wsum)))
  {
    FloorsAccount(total, ws, wsum);
    RemaindersUpper(Remainders(total, ws, wsum), wsum);
    QuotientGap(wsum, total, Sum(Floors(total, ws, wsum)), Sum(Remainders(total, ws, wsum)), |ws|);
  }

  lemma {:induction false} RemaindersUpper(r: seq<nat>, wsum: nat)
    requires r != [] && forall i :: 0 <= i < |r| ==> r[i] < wsum
    ensures Sum(r) < wsum * |r|
  {
    assert r[0] < wsum;
    SumUpper(r, wsum - 1);
    assert (wsum - 1) * |r| == wsum * |r| - |r|;
  }

  function Leftover(total: nat, ws: seq<nat>, wsum: nat): (r: nat)
    requires Splittable(ws, wsum)
    ensures r < |ws|
  {
    RemaindersSum(total, ws, wsum);
    total - Sum(Floors(total, ws, wsum))
  }

  /** One extra unit for each index listed. */
  function Bump(base: seq<nat>, who: seq<nat>): (r: seq<nat>)
    requires Indices(base, who)
    ensures |r| == |base|
    decreases |who|
  {
    if |who| == 0 then base
    else
      var last := who[|who| - 1];
      var b := Bump(base, who[..|who| - 1]);
      b[last := b[last] + 1]
  }

  lemma {:induction false} BumpSum(base: seq<nat>, who: seq<nat>)
    requires Indices(base, who)
    ensures Sum(Bump(base, who)) == Sum(base) + |who|
    decreases |who|
  {
    if |who| > 0 {
      var b := Bump(base, who[..|who| - 1]);
      BumpSum(base, who[..|who| - 1]);
      SumUpdate(b, who[|who| - 1], b[who[|who| - 1]] + 1);
    }
  }

  lemma {:induction false} BumpAt(base: seq<nat>, who: seq<nat>, i: nat)
    requires Indices(base, who) && i < |base|
    requires forall a, b :: 0 <= a < b < |who| ==> who[a] != who[b]
    ensures Bump(base, who)[i] == base[i] + (if i in who then 1 else 0)
    decreases |who|
  {
    if |who| > 0 {
      var init, last := who[..|who| - 1], who[|who| - 1];
      BumpAt(base, init, i);
      assert who == init + [last];
    }
  }

  /** The favoured indices: the `Leftover` front of the ranking. */
  ghost function Favoured(total: nat, ws: seq<nat>, wsum: nat): (r: seq<nat>)
    requires Splittable(ws, wsum)
    ensures Indices(ws, r)
  {
    Ranked(Remainders(total, ws, wsum), |ws|)[..Leftover(total, ws, wsum)]
  }

  ghost function Shares(total: nat, ws: seq<nat>, wsum: nat): (s: seq<nat>)
    requires Splittable(ws, wsum)
    ensures |s| == |ws|
  {
    Bump(Floors(total, ws, wsum), Favoured(total, ws, wsum))
  }

  /** Every product formed while splitting stays within 128 bits. */
  ghost predicate ProductsFit(total: nat, ws: seq<nat>) {
    forall i :: 0 <= i < |ws| ==> total * ws[i] < U128
  }

  /** Hand the leftover units to the top-ranked items. */
  method HandOut(floors: seq<nat>, order: seq<nat>, leftover: nat) returns (base: seq<nat>)
    requires leftover <= |order| && Indices(floors, order)
    ensures base == Bump(floors, order[..leftover])
  {
    base := floors;
    for k := 0 to leftover
      invariant base == Bump(floors, order[..k])
    {
      assert order[..k + 1][..k] == order[..k];
      base := base[order[k] := base[order[k]] + 1];
    }
  }

  /** `apportion`: floors, remainder ranking, one spare unit each to the front.
      Fails exactly when some product `total * weight` leaves 128 bits. */
  method Apportion(total: u128, ws: seq<u128>, wsum: u128) returns (r: Option<seq<nat>>)
    requires Splittable(ws, wsum)
    ensures r.Some? <==> ProductsFit(total, ws)
    ensures r.Some? ==> r.value == Shares(total, ws, wsum) && LargestRemainders(total, ws, wsum, r.value)
  {
    ghost var f, rm := Floors(total, ws, wsum), Remainders(total, ws, wsum);
    RemaindersSum(total, ws, wsum);
    var base: seq<nat>, remainders: seq<nat>, handed := [], [], 0;
    for i := 0 to |ws|
      invariant base == f[..i] && remainders == rm[..i] && handed == Sum(base)
      invariant forall k :: 0 <= k < i ==> total * ws[k] < U128
    {
      var numerator := total * ws[i];
      if numerator >= U128 {
        return None;
      }
      SumPrefix(f, i);
      handed := handed + numerator / wsum;
      base := base + [numerator / wsum];
      remainders := remainders + [numerator % wsum];
    }
    assert base == f && remainders == rm;
    SharesByLargestRemainder(total, ws, wsum);
    var shares := HandOut(base, Ranked(remainders, |ws|), total - handed);
    return Some(shares);
  }

  // ----- exactness and fairness --------------------------------------------

  /** Each share is the floor, plus one exactly for a favoured index; the
      favoured remainders are at least every other remainder. */
  lemma {:induction false} ShareAt(total: nat, ws: seq<nat>, wsum: nat, i: nat)
    requires Splittable(ws, wsum) && i < |ws|
    ensures Shares(total, ws, wsum)[i]
         == Floors(total, ws, wsum)[i] + (if i in Favoured(total, ws, wsum) then 1 else 0)
  {
    RankedInOrder(Remainders(total, ws, wsum), |ws|);
    BumpAt(Floors(total, ws, wsum), Favoured(total, ws, wsum), i);
  }

  lemma {:induction false} FavouredAhead(total: nat, ws: seq<nat>, wsum: nat, i: nat, j: nat)
    requires Splittable(ws, wsum) && i < |ws| && j < |ws|
    requires j in Favoured(total, ws, wsum) && Ahead(Remainders(total, ws, wsum), i, j)
    ensures i in Favoured(total, ws, wsum)
  {
    var rem := Remainders(total, ws, wsum);
    var order := Ranked(rem, |ws|);
    RankedInOrder(rem, |ws|);
    assert i in order;
    var a :| 0 <= a < |order| && order[a] == i;
    var b :| 0 <= b < Leftover(total, ws, wsum) && order[b] == j;
    assert a < b;
    assert order[..Leftover(total, ws, wsum)][a] == i;
  }

  /** No value is minted or lost. */
  lemma {:induction false} SharesExact(total: nat, ws: seq<nat>, wsum: nat)
    requires Splittable(ws, wsum)
    ensures Sum(Shares(total, ws, wsum)) == total
  {
    RemaindersSum(total, ws, wsum);
    BumpSum(Floors(total, ws, wsum), Favoured(total, ws, wsum));
  }

  function CountPositive(s: seq<nat>): (n: nat)
    ensures n <= |s|
  {
    if |s| == 0 then 0
    else CountPositive(s[..|s| - 1]) + (if s[|s| - 1] > 0 then 1 else 0)
  }

  lemma {:induction false} CountBoundsSum(r: seq<nat>, wsum: nat)
    requires forall i :: 0 <= i < |r| ==> r[i] < wsum
    ensures CountPositive(r) == 0 ==> Sum(r) == 0
    ensures CountPositive(r) > 0 ==> Sum(r) < wsum * CountPositive(r)
  {
    if |r| > 0 {
      var init, last := r[..|r| - 1], r[|r| - 1];
      CountBoundsSum(init, wsum);
      assert last < wsum;
      assert wsum * (CountPositive(init) + 1) == wsum * CountPositive(init) + wsum;
    }
  }

  lemma CountGap(w: nat, l: nat, c: nat)
    requires w > 0 && l > 0
    requires c == 0 ==> w * l == 0
    requires c > 0 ==> w * l < w * c
    ensures l < c
  {
  }

  /** A positive leftover is strictly below the number of nonzero remainders. */
  lemma {:induction false} LeftoverBelowPositiveRemainders(total: nat, ws: seq<nat>, wsum: nat)
    requires Splittable(ws, wsum) && Leftover(total, ws, wsum) > 0
    ensures Leftover(total, ws, wsum) < CountPositive(Remainders(total, ws, wsum))
  {
    var r := Remainders(total, ws, wsum);
    RemaindersSum(total, ws, wsum);
    CountBoundsSum(r, wsum);
    CountGap(wsum, Leftover(total, ws, wsum), CountPositive(r));
  }

  /** A zero remainder at rank `k` leaves only the first `k` to contribute. */
  lemma {:induction false} RankedZeroTail(rem: seq<nat>, wsum: nat, k: nat)
    requires forall i :: 0 <= i < |rem| ==> rem[i] < wsum
    requires k < |rem| && rem[Ranked(rem, |rem|)[k]] == 0
    ensures Sum(rem) <= wsum * k
  {
    var order := Ranked(rem, |rem|);
    RankedInOrder(rem, |rem|);
    var p := Pick(rem, order);
    forall j | k <= j < |p| ensures p[j] == 0 {
      if j > k { assert Ahead(rem, order[k], order[j]); }
    }
    PickRankedSum(rem, |rem|);
    assert rem[..|rem|] == rem;
    SumZeroTail(p, wsum, k);
  }

  lemma {:induction false} RankPositive(rem: seq<nat>, wsum: nat, l: nat, k: nat)
    requires wsum > 0 && forall i :: 0 <= i < |rem| ==> rem[i] < wsum
    requires Sum(rem) == wsum * l && k < l <= |rem|
    ensures rem[Ranked(rem, |rem|)[k]] > 0
  {
    if rem[Ranked(rem, |rem|)[k]] == 0 {
      RankedZeroTail(rem, wsum, k);
      MulCancelLe(l, k, wsum);
    }
  }

  /** Every favoured index really lost a fraction. */
  lemma {:induction false} FavouredRemainderPositive(total: nat, ws: seq<nat>, wsum: nat, i: nat)
    requires Splittable(ws, wsum) && i < |ws| && i in Favoured(total, ws, wsum)
    ensures Remainders(total, ws, wsum)[i] > 0
  {
    var r, l := Remainders(total, ws, wsum), Leftover(total, ws, wsum);
    var k :| 0 <= k < l && Ranked(r, |ws|)[k] == i;
    RemaindersSum(total, ws, wsum);
    RankPositive(r, wsum, l, k);
  }

  /** Quota rule: each share is the floor or the ceiling of the ideal
      `total * weight / wsum`, and a zero weight gets nothing. */
  lemma {:induction false} SharesQuota(total: nat, ws: seq<nat>, wsum: nat, i: nat)
    requires Splittable(ws, wsum) && i < |ws|
    ensures var s := Shares(total, ws, wsum)[i];
            && total * ws[i] < (s + 1) * wsum
            && s * wsum < total * ws[i] + wsum
    ensures ws[i] == 0 ==> Shares(total, ws, wsum)[i] == 0
  {
    ShareAt(total, ws, wsum, i);
    var bump := if i in Favoured(total, ws, wsum) then 1 else 0;
    if bump == 1 {
      FavouredRemainderPositive(total, ws, wsum, i);
    }
    QuotaOf(total, ws[i], wsum, bump);
  }

  lemma QuotaOf(total: nat, v: nat, w: nat, bump: nat)
    requires w > 0 && bump <= 1 && (bump == 1 ==> total * v % w > 0)
    ensures total * v < (total * v / w + bump + 1) * w
    ensures (total * v / w + bump) * w < total * v + w
    ensures v == 0 ==> total * v / w + bump == 0
  {
    var n := total * v;
    var f := n / w;
    DivBracket(n, w);
    assert (f + bump) * w == f * w + bump * w;
    assert (f + bump + 1) * w == (f + 1) * w + bump * w;
  }

  /** A larger weight never gets less. */
  lemma {:induction false} SharesMonotone(total: nat, ws: seq<nat>, wsum: nat, i: nat, j: nat)
    requires Splittable(ws, wsum) && i < |ws| && j < |ws| && ws[i] > ws[j]
    ensures Shares(total, ws, wsum)[i] >= Shares(total, ws, wsum)[j]
  {
    ShareAt(total, ws, wsum, i);
    ShareAt(total, ws, wsum, j);
    LargerWeight(total, ws[i], ws[j], wsum);
    if j in Favoured(total, ws, wsum) && total * ws[i] / wsum == total * ws[j] / wsum {
      FavouredRemainderPositive(total, ws, wsum, j);
      FavouredAhead(total, ws, wsum, i, j);
    }
  }

  lemma LargerWeight(total: nat, v: nat, w: nat, wsum: nat)
    requires wsum > 0 && v > w
    ensures total * w / wsum <= total * v / wsum
    ensures total * w / wsum == total * v / wsum && total * w % wsum > 0 ==> total * w % wsum < total * v % wsum
  {
    MulMono(total, total, w, v);
    DivMono(total * w, total * v, wsum);
    DivBracket(total * w, wsum);
    DivBracket(total * v, wsum);
    if total > 0 {
      assert total * v == total * w + total * (v - w);
    }
  }

  // ----- optimality --------------------------------------------------------

  function Abs(x: int): nat { if x < 0 then -x else x }

  /** Scaled distance of an integer split from the ideal one. */
  function Error(total: nat, ws: seq<nat>, wsum: nat, t: seq<int>): nat
    requires |t| == |ws|
  {
    if |ws| == 0 then 0
    else
      var n := |ws| - 1;
      Error(total, ws[..n], wsum, t[..n]) + Abs(t[n] * wsum - total * ws[n])
  }

  function SumInt(t: seq<int>): int {
    if |t| == 0 then 0 else SumInt(t[..|t| - 1]) + t[|t| - 1]
  }

  /** The multiplier at which every share minimises its own priced error. */
  ghost function Price(total: nat, ws: seq<nat>, wsum: nat): int
    requires Splittable(ws, wsum)
  {
    var l := Leftover(total, ws, wsum);
    if l == 0 then 0 - wsum
    else
      var rem := Remainders(total, ws, wsum);
      wsum - 2 * rem[Ranked(rem, |ws|)[l - 1]]
  }

  lemma {:induction false} FavouredThreshold(total: nat, ws: seq<nat>, wsum: nat, i: nat)
    requires Splittable(ws, wsum) && i < |ws|
    ensures var price, r := Price(total, ws, wsum), Remainders(total, ws, wsum)[i];
            && 0 - wsum <= price <= wsum
            && 0 <= r < wsum
            && (i in Favoured(total, ws, wsum) ==> wsum - price <= 2 * r)
            && (i !in Favoured(total, ws, wsum) ==> 2 * r <= wsum - price)
  {
    var rem, l := Remainders(total, ws, wsum), Leftover(total, ws, wsum);
    var order := Ranked(rem, |ws|);
    RankedInOrder(rem, |ws|);
    if l > 0 {
      assert i in order;
      var k :| 0 <= k < |order| && order[k] == i;
      if k < l - 1 {
        assert Ahead(rem, order[k], order[l - 1]);
        assert order[..l][k] == i;
      } else if k == l - 1 {
        assert order[..l][k] == i;
      } else {
        assert Ahead(rem, order[l - 1], order[k]);
        assert i !in order[..l];
      }
    }
  }

  /** For any integer alternative `k` to a unit `bump`, the priced error is no smaller. */
  lemma {:induction false} PricedError(w: int, r: int, price: int, k: int, bump: int)
    requires 0 <= r < w && -w <= price <= w
    requires bump == 0 || bump == 1
    requires bump == 1 ==> w - price <= 2 * r
    requires bump == 0 ==> 2 * r <= w - price
    ensures Abs(bump * w - r) - price * bump <= Abs(k * w - r) - price * k
  {
    if k <= 0 {
      PricedBelow(w, r, price, -k);
    } else {
      PricedAbove(w, r, price, k - 1);
    }
  }

  lemma PricedBelow(w: int, r: int, price: int, m: int)
    requires 0 <= r < w && -w <= price && m >= 0
    ensures Abs(-m * w - r) - price * (-m) >= r
  {
    assert m * w >= 0;
    assert m * (w + price) >= 0;
  }

  lemma PricedAbove(w: int, r: int, price: int, m: int)
    requires 0 <= r < w && price <= w && m >= 0
    ensures Abs((m + 1) * w - r) - price * (m + 1) >= w - price - r
  {
    assert m * w >= 0;
    assert (m + 1) * w == m * w + w;
    assert m * (w - price) >= 0;
  }

  lemma {:induction false} ShareMinimisesPricedError(total: nat, ws: seq<nat>, wsum: nat, i: nat, t: int)
    requires Splittable(ws, wsum) && i < |ws|
    ensures var s, price := Shares(total, ws, wsum)[i], Price(total, ws, wsum);
            Abs(s * wsum - total * ws[i]) - price * s <= Abs(t * wsum - total * ws[i]) - price * t
  {
    var bump := if i in Favoured(total, ws, wsum) then 1 else 0;
    ShareAt(total, ws, wsum, i);
    FavouredThreshold(total, ws, wsum, i);
    ShiftedPricedError(total * ws[i], wsum, Price(total, ws, wsum), t, bump);
  }

  lemma ShiftedPricedError(n: nat, w: nat, price: int, t: int, bump: int)
    requires w > 0 && 0 - w <= price <= w && (bump == 0 || bump == 1)
    requires bump == 1 ==> w - price <= 2 * (n % w)
    requires bump == 0 ==> 2 * (n % w) <= w - price
    ensures var s := n / w + bump; Abs(s * w - n) - price * s <= Abs(t * w - n) - price * t
  {
    var f, r := n / w, n % w;
    DivBracket(n, w);
    PricedError(w, r, price, t - f, bump);
    Shift(f, w, r, price, t - f);
    Shift(f, w, r, price, bump);
  }

  lemma Shift(f: int, w: int, r: int, price: int, k: int)
    ensures (f + k) * w - (f * w + r) == k * w - r
    ensures price * (f + k) == price * f + price * k
  {
  }

  lemma {:induction false} PricedErrors(total: nat, ws: seq<nat>, wsum: nat, s: seq<int>, t: seq<int>, price: int)
    requires |s| == |t| == |ws|
    requires forall i :: 0 <= i < |ws| ==> NoWorse(total, ws[i], wsum, s[i], t[i], price)
    ensures Error(total, ws, wsum, s) - price * SumInt(s) <= Error(total, ws, wsum, t) - price * SumInt(t)
  {
    if |ws| > 0 {
      var n := |ws| - 1;
      PricedErrors(total, ws[..n], wsum, s[..n], t[..n], price);
      assert NoWorse(total, ws[n], wsum, s[n], t[n], price);
      Distribute(SumInt(s[..n]), s[n], price);
      Distribute(SumInt(t[..n]), t[n], price);
    }
  }

  ghost predicate NoWorse(total: nat, w: nat, wsum: nat, s: int, t: int, price: int) {
    Abs(s * wsum - total * w) - price * s <= Abs(t * wsum - total * w) - price * t
  }

  lemma {:induction false} SumIntOfNats(s: seq<nat>)
    ensures SumInt(s) == Sum(s)
  {
    if |s| > 0 { SumIntOfNats(s[..|s| - 1]); }
  }

  /** Among all integer vectors (negative entries included) that sum to `total`,
      the apportioned one is closest to the ideal split. */
  lemma {:induction false} SharesOptimal(total: nat, ws: seq<nat>, wsum: nat, t: seq<int>)
    requires Splittable(ws, wsum)
    requires |t| == |ws| && SumInt(t) == total
    ensures Error(total, ws, wsum, Shares(total, ws, wsum)) <= Error(total, ws, wsum, t)
  {
    var s, price := Shares(total, ws, wsum), Price(total, ws, wsum);
    forall i | 0 <= i < |ws| ensures NoWorse(total, ws[i], wsum, s[i], t[i], price) {
      ShareMinimisesPricedError(total, ws, wsum, i, t[i]);
    }
    PricedErrors(total, ws, wsum, s, t, price);
    SharesExact(total, ws, wsum);
    SumIntOfNats(s);
  }

  // ----- the shares outright -----------------------------------------------

  /** Item `i` has the first claim to a spare unit: it lost more to flooring, or as
      much and it comes earlier. */
  predicate Claims(total: nat, ws: seq<nat>, wsum: nat, i: nat, j: nat)
    requires wsum > 0 && i < |ws| && j < |ws|
  {
    var a, b := total * ws[i] % wsum, total * ws[j] % wsum;
    a > b || (a == b && i < j)
  }

  /** A split by largest remainders: it sums to the total, every share is its floor
      or one more, and no item is topped up past one with a better claim. */
  ghost predicate LargestRemainders(total: nat, ws: seq<nat>, wsum: nat, t: seq<nat>)
    requires wsum > 0
  {
    && |t| == |ws| && Sum(t) == total
    && (forall i :: 0 <= i < |ws| ==> total * ws[i] / wsum <= t[i] <= total * ws[i] / wsum + 1)
    && (forall i, j :: 0 <= i < |ws| && 0 <= j < |ws| && Claims(total, ws, wsum, i, j) ==>
          (t[j] > total * ws[j] / wsum ==> t[i] > total * ws[i] / wsum))
  }

  lemma {:induction false} SharesTopUp(total: nat, ws: seq<nat>, wsum: nat, i: nat, j: nat)
    requires Splittable(ws, wsum) && i < |ws| && j < |ws| && Claims(total, ws, wsum, i, j)
    requires Shares(total, ws, wsum)[j] > total * ws[j] / wsum
    ensures Shares(total, ws, wsum)[i] > total * ws[i] / wsum
  {
    ShareAt(total, ws, wsum, i);
    ShareAt(total, ws, wsum, j);
    ClaimsRankAhead(total, ws, wsum, i, j);
    FavouredAhead(total, ws, wsum, i, j);
  }

  lemma ClaimsRankAhead(total: nat, ws: seq<nat>, wsum: nat, i: nat, j: nat)
    requires wsum > 0 && i < |ws| && j < |ws| && Claims(total, ws, wsum, i, j)
    ensures Ahead(Remainders(total, ws, wsum), i, j)
  {
    assert Remainders(total, ws, wsum)[i] == total * ws[i] % wsum;
    assert Remainders(total, ws, wsum)[j] == total * ws[j] % wsum;
  }

  /** The shares are such a split. */
  lemma {:induction false} SharesByLargestRemainder(total: nat, ws: seq<nat>, wsum: nat)
    requires Splittable(ws, wsum)
    ensures LargestRemainders(total, ws, wsum, Shares(total, ws, wsum))
  {
    var s := Shares(total, ws, wsum);
    SharesExact(total, ws, wsum);
    forall i | 0 <= i < |ws| ensures total * ws[i] / wsum <= s[i] <= total * ws[i] / wsum + 1 {
      ShareAt(total, ws, wsum, i);
    }
    forall i, j | 0 <= i < |ws| && 0 <= j < |ws| && Claims(total, ws, wsum, i, j)
                  && s[j] > total * ws[j] / wsum
      ensures s[i] > total * ws[i] / wsum
    {
      SharesTopUp(total, ws, wsum, i, j);
    }
  }

  /** And the only one: floors, remainders, leftover and ties leave no choice. */
  lemma {:induction false} OnlyLargestRemainders(total: nat, ws: seq<nat>, wsum: nat, t: seq<nat>)
    requires Splittable(ws, wsum)
    ensures LargestRemainders(total, ws, wsum, t) <==> t == Shares(total, ws, wsum)
  {
    SharesByLargestRemainder(total, ws, wsum);
    if LargestRemainders(total, ws, wsum, t) { SplitsAgree(total, ws, wsum, t, Shares(total, ws, wsum)); }
  }

  lemma ClaimsTotal(total: nat, ws: seq<nat>, wsum: nat, i: nat, j: nat)
    requires wsum > 0 && i < |ws| && j < |ws| && i != j
    ensures Claims(total, ws, wsum, i, j) || Claims(total, ws, wsum, j, i)
  {
  }

  lemma {:induction false} NoneAbove(total: nat, ws: seq<nat>, wsum: nat, s: seq<nat>, t: seq<nat>, i: nat)
    requires wsum > 0 && LargestRemainders(total, ws, wsum, s) && LargestRemainders(total, ws, wsum, t)
    requires i < |ws|
    ensures s[i] <= t[i]
  {
    forall j | 0 <= j < |ws| && j != i ensures Claims(total, ws, wsum, i, j) || Claims(total, ws, wsum, j, i) {
      ClaimsTotal(total, ws, wsum, i, j);
    }
    if s[i] > t[i] { NotAllBelow(t, s, i); }
  }

  lemma {:induction false} SplitsAgree(total: nat, ws: seq<nat>, wsum: nat, s: seq<nat>, t: seq<nat>)
    requires wsum > 0 && LargestRemainders(total, ws, wsum, s) && LargestRemainders(total, ws, wsum, t)
    ensures s == t
  {
    forall i | 0 <= i < |ws| ensures s[i] <= t[i] {
      NoneAbove(total, ws, wsum, s, t, i);
    }
    SumEqualIff(s, t);
  }

  lemma NotAllBelow(t: seq<nat>, s: seq<nat>, i: nat)
    requires |t| == |s| && i < |s| && s[i] > t[i] && Sum(s) == Sum(t)
    ensures exists j :: 0 <= j < |s| && t[j] > s[j]
  {
    if forall j :: 0 <= j < |s| ==> t[j] <= s[j] { SumEqualIff(t, s); }
  }

  /** Equal weights tie, and the earlier one is served first. */
  lemma {:induction false} EarlierTieFirst(total: nat, ws: seq<nat>, wsum: nat, i: nat, j: nat)
    requires Splittable(ws, wsum) && i < j < |ws| && ws[i] == ws[j]
    ensures Shares(total, ws, wsum)[i] >= Shares(total, ws, wsum)[j]
  {
    SharesByLargestRemainder(total, ws, wsum);
    assert Claims(total, ws, wsum, i, j);
  }
}
