/** Finite sums over sequences of naturals and over the values of a map. */
module Sums {

  function Sum(s: seq<nat>): nat {
    if |s| == 0 then 0 else Sum(s[..|s| - 1]) + s[|s| - 1]
  }

  lemma {:induction false} SumSnoc(s: seq<nat>, x: nat)
    ensures Sum(s + [x]) == Sum(s) + x
  {
    assert (s + [x])[..|s|] == s;
  }

  lemma {:induction false} SumConcat(a: seq<nat>, b: seq<nat>)
    ensures Sum(a + b) == Sum(a) + Sum(b)
    decreases |b|
  {
    if |b| == 0 {
      assert a + b == a;
    } else {
      var init := b[..|b| - 1];
      SumConcat(a, init);
      assert a + b == a + init + [b[|b| - 1]];
      SumSnoc(a + init, b[|b| - 1]);
    }
  }

  lemma {:induction false} SumPrefix(s: seq<nat>, k: nat)
    requires k < |s|
    ensures Sum(s[..k + 1]) == Sum(s[..k]) + s[k]
  {
    assert s[..k + 1] == s[..k] + [s[k]];
    SumSnoc(s[..k], s[k]);
  }

  lemma {:induction false} SumPrefixLe(s: seq<nat>, k: nat)
    requires k <= |s|
    ensures Sum(s[..k]) <= Sum(s)
  {
    assert s == s[..k] + s[k..];
    SumConcat(s[..k], s[k..]);
  }

  lemma {:induction false} SumUpdate(s: seq<nat>, i: nat, v: nat)
    requires i < |s|
    ensures Sum(s[i := v]) + s[i] == Sum(s) + v
  {
    assert s == s[..i] + [s[i]] + s[i + 1..];
    assert s[i := v] == s[..i] + [v] + s[i + 1..];
    SumConcat(s[..i] + [s[i]], s[i + 1..]);
    SumConcat(s[..i] + [v], s[i + 1..]);
    SumSnoc(s[..i], s[i]);
    SumSnoc(s[..i], v);
  }

  lemma {:induction false} ElementLeSum(s: seq<nat>, i: nat)
    requires i < |s|
    ensures s[i] <= Sum(s)
  {
    SumUpdate(s, i, 0);
  }

  lemma {:induction false} SumMono(a: seq<nat>, b: seq<nat>)
    requires |a| == |b|
    requires forall i :: 0 <= i < |a| ==> a[i] <= b[i]
    ensures Sum(a) <= Sum(b)
  {
    if |a| > 0 {
      SumMono(a[..|a| - 1], b[..|a| - 1]);
    }
  }

  /** Sums ordered term by term are equal only when every term is. */
  lemma {:induction false} SumEqualIff(a: seq<nat>, b: seq<nat>)
    requires |a| == |b|
    requires forall i :: 0 <= i < |a| ==> a[i] <= b[i]
    ensures Sum(a) == Sum(b) <==> forall i :: 0 <= i < |a| ==> a[i] == b[i]
  {
    if |a| > 0 {
      var n := |a| - 1;
      SumMono(a[..n], b[..n]);
      SumEqualIff(a[..n], b[..n]);
    }
  }

  lemma {:induction false} SumUpper(s: seq<nat>, bound: nat)
    requires forall i :: 0 <= i < |s| ==> s[i] <= bound
    ensures Sum(s) <= bound * |s|
  {
    if |s| > 0 {
      SumUpper(s[..|s| - 1], bound);
      assert bound * |s| == bound * (|s| - 1) + bound;
    }
  }

  lemma {:induction false} SumZero(s: seq<nat>)
    requires forall i :: 0 <= i < |s| ==> s[i] == 0
    ensures Sum(s) == 0
  {
    SumUpper(s, 0);
  }

  lemma {:induction false} SumZeroTail(s: seq<nat>, bound: nat, k: nat)
    requires k <= |s|
    requires forall i :: 0 <= i < k ==> s[i] <= bound
    requires forall i :: k <= i < |s| ==> s[i] == 0
    ensures Sum(s) <= bound * k
  {
    assert s == s[..k] + s[k..];
    SumConcat(s[..k], s[k..]);
    SumZero(s[k..]);
    SumUpper(s[..k], bound);
  }

  /** The total of a map's values. */
  ghost function SumMap<K>(m: map<K, nat>): nat
    decreases |m|
  {
    if m == map[] then 0
    else
      var k :| k in m;
      m[k] + SumMap(m - {k})
  }

  /** The total does not depend on which key is taken out first. */
  lemma {:induction false} SumMapPick<K>(m: map<K, nat>, k: K)
    requires k in m
    ensures SumMap(m) == m[k] + SumMap(m - {k})
    decreases |m|
  {
    var c :| c in m && SumMap(m) == m[c] + SumMap(m - {c});
    if c != k {
      SumMapPick(m - {c}, k);
      SumMapPick(m - {k}, c);
      assert m - {c} - {k} == m - {k} - {c};
    }
  }

  lemma {:induction false} SumMapSet<K>(m: map<K, nat>, k: K, v: nat)
    ensures k !in m ==> SumMap(m[k := v]) == SumMap(m) + v
    ensures k in m ==> SumMap(m[k := v]) + m[k] == SumMap(m) + v
  {
    SumMapPick(m[k := v], k);
    if k in m {
      SumMapPick(m, k);
      assert m[k := v] - {k} == m - {k};
    } else {
      assert m[k := v] - {k} == m;
    }
  }

  lemma {:induction false} SumMapMono<K>(m: map<K, nat>, n: map<K, nat>)
    requires m.Keys <= n.Keys && forall k :: k in m ==> m[k] <= n[k]
    ensures SumMap(m) <= SumMap(n)
    decreases |m|
  {
    if m != map[] {
      var k :| k in m;
      SumMapPick(m, k);
      SumMapPick(n, k);
      SumMapMono(m - {k}, n - {k});
    }
  }

  /** `f` summed along a list of keys. */
  ghost function SumOf<K(!new)>(f: K -> nat, ks: seq<K>): nat {
    if |ks| == 0 then 0 else SumOf(f, ks[..|ks| - 1]) + f(ks[|ks| - 1])
  }

  lemma {:induction false} SumOfSnoc<K(!new)>(f: K -> nat, ks: seq<K>, k: K)
    ensures SumOf(f, ks + [k]) == SumOf(f, ks) + f(k)
  {
    assert (ks + [k])[..|ks|] == ks;
  }

  lemma {:induction false} SumOfMono<K(!new)>(f: K -> nat, g: K -> nat, ks: seq<K>)
    requires forall k :: k in ks ==> f(k) <= g(k)
    ensures SumOf(f, ks) <= SumOf(g, ks)
  {
    if |ks| > 0 {
      assert ks[|ks| - 1] in ks;
      SumOfMono(f, g, ks[..|ks| - 1]);
    }
  }

  lemma {:induction false} SumOfAgree<K(!new)>(f: K -> nat, g: K -> nat, ks: seq<K>)
    requires forall k :: k in ks ==> f(k) == g(k)
    ensures SumOf(f, ks) == SumOf(g, ks)
  {
    SumOfMono(f, g, ks);
    SumOfMono(g, f, ks);
  }

  lemma {:induction false} SumOfAdd<K(!new)>(f: K -> nat, g: K -> nat, h: K -> nat, ks: seq<K>)
    requires forall k :: k in ks ==> h(k) == f(k) + g(k)
    ensures SumOf(h, ks) == SumOf(f, ks) + SumOf(g, ks)
  {
    if |ks| > 0 {
      assert ks[|ks| - 1] in ks;
      SumOfAdd(f, g, h, ks[..|ks| - 1]);
    }
  }

  lemma {:induction false} SumOfPrefix<K(!new)>(f: K -> nat, ks: seq<K>, i: nat)
    requires i <= |ks|
    ensures SumOf(f, ks[..i]) <= SumOf(f, ks)
    decreases |ks|
  {
    if i < |ks| {
      SumOfPrefix(f, ks[..|ks| - 1], i);
      assert ks[..|ks| - 1][..i] == ks[..i];
    } else {
      assert ks[..i] == ks;
    }
  }

  lemma {:induction false} SumOfZeroIff<K(!new)>(f: K -> nat, ks: seq<K>)
    ensures SumOf(f, ks) == 0 <==> forall k :: k in ks ==> f(k) == 0
  {
    if |ks| > 0 {
      var init, last := ks[..|ks| - 1], ks[|ks| - 1];
      assert ks == init + [last];
      SumOfZeroIff(f, init);
    }
  }

  lemma {:induction false} SumOfElement<K(!new)>(f: K -> nat, ks: seq<K>, k: K)
    requires k in ks
    ensures f(k) <= SumOf(f, ks)
  {
    if ks[|ks| - 1] != k {
      SumOfElement(f, ks[..|ks| - 1], k);
    }
  }

  /** Raising one of the distinct keys' values by `x` raises the sum by `x`. */
  lemma {:induction false} SumOfBump<K(!new)>(f: K -> nat, g: K -> nat, ks: seq<K>, c: K, x: nat)
    requires forall i, j :: 0 <= i < j < |ks| ==> ks[i] != ks[j]
    requires forall k :: k in ks ==> g(k) == f(k) + (if k == c then x else 0)
    ensures SumOf(g, ks) == SumOf(f, ks) + (if c in ks then x else 0)
  {
    if |ks| > 0 {
      var init, last := ks[..|ks| - 1], ks[|ks| - 1];
      assert ks == init + [last];
      assert last in ks;
      SumOfBump(f, g, init, c, x);
    }
  }

  /** Summing along any duplicate-free listing of the keys gives the total. */
  lemma {:induction false} SumMapListed<K(!new)>(m: map<K, nat>, f: K -> nat, ks: seq<K>)
    requires forall i, j :: 0 <= i < j < |ks| ==> ks[i] != ks[j]
    requires m.Keys == (set k | k in ks)
    requires forall k :: k in m ==> f(k) == m[k]
    ensures SumOf(f, ks) == SumMap(m)
    decreases |ks|
  {
    if |ks| == 0 {
      assert m.Keys == {};
    } else {
      var init, k := ks[..|ks| - 1], ks[|ks| - 1];
      assert ks == init + [k];
      assert k in m.Keys;
      SumMapPick(m, k);
      var rest := m - {k};
      assert rest.Keys == (set j | j in init);
      SumMapListed(rest, f, init);
    }
  }
}
