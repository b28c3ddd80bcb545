/** Maps from ids to running totals, and the posting of entries into them. */
module Ledgers {
  import opened Words
  import opened Ids
  import opened Sums

  datatype Entry = Entry(id: Id, amount: nat)

  function Get(m: map<Id, nat>, k: Id): nat {
    if k in m then m[k] else 0
  }

  function Entries(ids: seq<Id>, amounts: seq<nat>): (es: seq<Entry>)
    requires |ids| == |amounts|
    ensures |es| == |ids|
  {
    seq(|ids|, i requires 0 <= i < |ids| => Entry(ids[i], amounts[i]))
  }

  /** `*m.entry(id).or_insert(0) += amount`, entry by entry. */
  function Post(m: map<Id, nat>, es: seq<Entry>): map<Id, nat>
    decreases |es|
  {
    if |es| == 0 then m
    else
      var e, p := es[|es| - 1], Post(m, es[..|es| - 1]);
      p[e.id := Get(p, e.id) + e.amount]
  }

  /** What a list of entries holds for one id, and in all. */
  function AmountFor(es: seq<Entry>, k: Id): nat {
    if |es| == 0 then 0
    else
      var e := es[|es| - 1];
      AmountFor(es[..|es| - 1], k) + (if e.id == k then e.amount else 0)
  }

  function Amounts(es: seq<Entry>): (r: seq<nat>)
    ensures |r| == |es|
  {
    seq(|es|, i requires 0 <= i < |es| => es[i].amount)
  }

  function IdsOf(es: seq<Entry>): set<Id> {
    set i | 0 <= i < |es| :: es[i].id
  }

  lemma {:induction false} PostGet(m: map<Id, nat>, es: seq<Entry>, k: Id)
    ensures Get(Post(m, es), k) == Get(m, k) + AmountFor(es, k)
    decreases |es|
  {
    if |es| > 0 { PostGet(m, es[..|es| - 1], k); }
  }

  lemma {:induction false} PostKeys(m: map<Id, nat>, es: seq<Entry>)
    ensures Post(m, es).Keys == m.Keys + IdsOf(es)
    decreases |es|
  {
    if |es| > 0 {
      PostKeys(m, es[..|es| - 1]);
      assert es == es[..|es| - 1] + [es[|es| - 1]];
      assert IdsOf(es) == IdsOf(es[..|es| - 1]) + {es[|es| - 1].id};
    }
  }

  lemma {:induction false} PostTotal(m: map<Id, nat>, es: seq<Entry>)
    ensures SumMap(Post(m, es)) == SumMap(m) + Sum(Amounts(es))
    decreases |es|
  {
    if |es| > 0 {
      var init, e := es[..|es| - 1], es[|es| - 1];
      PostTotal(m, init);
      SumMapSet(Post(m, init), e.id, Get(Post(m, init), e.id) + e.amount);
      assert Amounts(es)[..|es| - 1] == Amounts(init);
    }
  }

  lemma {:induction false} PostConcat(m: map<Id, nat>, a: seq<Entry>, b: seq<Entry>)
    ensures Post(m, a + b) == Post(Post(m, a), b)
    decreases |b|
  {
    if |b| == 0 {
      assert a + b == a;
    } else {
      var init := b[..|b| - 1];
      PostConcat(m, a, init);
      assert (a + b)[..|a + b| - 1] == a + init;
    }
  }

  lemma {:induction false} AmountForConcat(a: seq<Entry>, b: seq<Entry>, k: Id)
    ensures AmountFor(a + b, k) == AmountFor(a, k) + AmountFor(b, k)
  {
    PostConcat(map[], a, b);
    PostGet(map[], a + b, k);
    PostGet(map[], a, k);
    PostGet(Post(map[], a), b, k);
  }

  lemma {:induction false} AmountForPrefix(es: seq<Entry>, i: nat, k: Id)
    requires i <= |es|
    ensures AmountFor(es[..i], k) <= AmountFor(es, k)
  {
    assert es == es[..i] + es[i..];
    AmountForConcat(es[..i], es[i..], k);
  }

  /** All entries for one id: the amount is the whole sum. */
  lemma {:induction false} AmountForOnly(es: seq<Entry>, k: Id)
    requires forall i :: 0 <= i < |es| ==> es[i].id == k
    ensures AmountFor(es, k) == Sum(Amounts(es))
  {
    if |es| > 0 {
      AmountForOnly(es[..|es| - 1], k);
      assert Amounts(es)[..|es| - 1] == Amounts(es[..|es| - 1]);
    }
  }

  lemma {:induction false} AmountForLe(es: seq<Entry>, k: Id)
    ensures AmountFor(es, k) <= Sum(Amounts(es))
  {
    if |es| > 0 {
      AmountForLe(es[..|es| - 1], k);
      assert Amounts(es)[..|es| - 1] == Amounts(es[..|es| - 1]);
    }
  }

  ghost predicate Fits(m: map<Id, nat>) {
    forall k :: Get(m, k) < U128
  }

  /** Checked posting: fails exactly when some final total leaves 128 bits. */
  method CheckedPost(m: map<Id, nat>, es: seq<Entry>) returns (r: Option<map<Id, nat>>)
    requires Fits(m)
    ensures r == if Fits(Post(m, es)) then Some(Post(m, es)) else None
  {
    var acc := m;
    for i := 0 to |es|
      invariant acc == Post(m, es[..i])
      invariant Fits(acc)
    {
      var e := es[i];
      assert es[..i + 1][..i] == es[..i];
      if Get(acc, e.id) + e.amount >= U128 {
        PostGet(m, es[..i + 1], e.id);
        PostGet(m, es, e.id);
        AmountForPrefix(es, i + 1, e.id);
        assert Get(Post(m, es[..i + 1]), e.id) >= U128;
        return None;
      }
      ghost var before := acc;
      acc := acc[e.id := Get(acc, e.id) + e.amount];
      assert forall k :: Get(acc, k) == if k == e.id then acc[e.id] else Get(before, k);
    }
    assert es[..|es|] == es;
    return Some(acc);
  }

  // ----- the entries of a list of contributors -----------------------------

  ghost function Flat(f: Id -> seq<Entry>, ks: seq<Id>): seq<Entry> {
    if |ks| == 0 then [] else Flat(f, ks[..|ks| - 1]) + f(ks[|ks| - 1])
  }

  lemma {:induction false} FlatAgree(f: Id -> seq<Entry>, g: Id -> seq<Entry>, ks: seq<Id>)
    requires forall k :: k in ks ==> f(k) == g(k)
    ensures Flat(f, ks) == Flat(g, ks)
  {
    if |ks| > 0 {
      assert ks[|ks| - 1] in ks;
      FlatAgree(f, g, ks[..|ks| - 1]);
    }
  }

  lemma {:induction false} FlatAmount(f: Id -> seq<Entry>, g: Id -> nat, ks: seq<Id>, w: Id)
    requires forall k :: k in ks ==> g(k) == AmountFor(f(k), w)
    ensures AmountFor(Flat(f, ks), w) == SumOf(g, ks)
  {
    if |ks| > 0 {
      assert ks[|ks| - 1] in ks;
      FlatAmount(f, g, ks[..|ks| - 1], w);
      AmountForConcat(Flat(f, ks[..|ks| - 1]), f(ks[|ks| - 1]), w);
    }
  }

  lemma {:induction false} FlatTotal(f: Id -> seq<Entry>, g: Id -> nat, ks: seq<Id>)
    requires forall k :: k in ks ==> g(k) == Sum(Amounts(f(k)))
    ensures Sum(Amounts(Flat(f, ks))) == SumOf(g, ks)
  {
    if |ks| > 0 {
      var a, b := Flat(f, ks[..|ks| - 1]), f(ks[|ks| - 1]);
      assert ks[|ks| - 1] in ks;
      FlatTotal(f, g, ks[..|ks| - 1]);
      assert Amounts(a + b) == Amounts(a) + Amounts(b);
      SumConcat(Amounts(a), Amounts(b));
    }
  }

  /** Totals that fit for more contributors fit for fewer. */
  lemma {:induction false} FlatFitsPrefix(f: Id -> seq<Entry>, ks: seq<Id>, i: nat)
    requires i <= |ks| && Fits(Post(map[], Flat(f, ks)))
    ensures Fits(Post(map[], Flat(f, ks[..i])))
    decreases |ks|
  {
    if i < |ks| {
      var init := ks[..|ks| - 1];
      forall w ensures Get(Post(map[], Flat(f, init)), w) < U128 {
        PostGet(map[], Flat(f, ks), w);
        PostGet(map[], Flat(f, init), w);
        AmountForConcat(Flat(f, init), f(ks[|ks| - 1]), w);
      }
      FlatFitsPrefix(f, init, i);
      assert init[..i] == ks[..i];
    } else {
      assert ks[..i] == ks;
    }
  }

  lemma {:induction false} PostedWithin(es: seq<Entry>)
    requires Sum(Amounts(es)) < U128
    ensures Fits(Post(map[], es))
  {
    forall k ensures Get(Post(map[], es), k) < U128 {
      PostGet(map[], es, k);
      AmountForLe(es, k);
    }
  }

  lemma {:induction false} AmountForAbsent(es: seq<Entry>, w: Id)
    requires forall i :: 0 <= i < |es| ==> es[i].id != w
    ensures AmountFor(es, w) == 0
  {
    if |es| > 0 { AmountForAbsent(es[..|es| - 1], w); }
  }
}
