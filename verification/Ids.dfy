/** Identifiers (addresses, work ids, session ids) as strings in the order a
    `BTreeMap` iterates them, and ASCII case folding. */
module Ids {
  type Id = string

  function LowerChar(c: char): char {
    if 'A' <= c <= 'Z' then 'a' + (c - 'A') else c
  }

  /** `to_ascii_lowercase`, also known as `normalize_addr`. */
  function Lower(s: Id): (r: Id)
    ensures |r| == |s|
  {
    seq(|s|, i requires 0 <= i < |s| => LowerChar(s[i]))
  }

  lemma LowerIdempotent(s: Id)
    ensures Lower(Lower(s)) == Lower(s)
  {
    assert forall i :: 0 <= i < |s| ==> Lower(Lower(s))[i] == Lower(s)[i];
  }

  /** Lexicographic order, the `Ord` of `String` and of fixed-width hex. */
  predicate LexLe(a: Id, b: Id) {
    if a == [] then true
    else if b == [] then false
    else a[0] < b[0] || (a[0] == b[0] && LexLe(a[1..], b[1..]))
  }

  predicate LexLess(a: Id, b: Id) {
    a != b && LexLe(a, b)
  }

  lemma LexTotal(a: Id, b: Id)
    ensures LexLe(a, b) || LexLe(b, a)
  {
  }

  lemma {:induction false} LexAntisymmetric(a: Id, b: Id)
    requires LexLe(a, b) && LexLe(b, a)
    ensures a == b
  {
    if a != [] && b != [] {
      LexAntisymmetric(a[1..], b[1..]);
      assert a == [a[0]] + a[1..];
      assert b == [b[0]] + b[1..];
    }
  }

  lemma LexTransitive(a: Id, b: Id, c: Id)
    requires LexLe(a, b) && LexLe(b, c)
    ensures LexLe(a, c)
  {
  }

  predicate IsLeast(s: set<Id>, m: Id) {
    m in s && forall x :: x in s ==> LexLe(m, x)
  }

  lemma {:induction false} LeastExists(s: set<Id>) returns (m: Id)
    requires s != {}
    ensures IsLeast(s, m)
    decreases |s|
  {
    var x :| x in s;
    if s == {x} {
      LexTotal(x, x);
      return x;
    }
    assert s == {x} + (s - {x});
    var rest := LeastExists(s - {x});
    LexTotal(x, rest);
    LexTotal(x, x);
    if LexLe(x, rest) {
      forall y | y in s ensures LexLe(x, y) {
        if y != x { LexTransitive(x, rest, y); }
      }
      return x;
    }
    return rest;
  }

  function Least(s: set<Id>): (m: Id)
    requires s != {}
    ensures IsLeast(s, m)
  {
    assert exists m :: m in s && IsLeast(s, m) by {
      var w := LeastExists(s);
    }
    assert forall a, b :: IsLeast(s, a) && IsLeast(s, b) ==> a == b by {
      forall a, b | IsLeast(s, a) && IsLeast(s, b) ensures a == b {
        LexAntisymmetric(a, b);
      }
    }
    var m :| m in s && IsLeast(s, m);
    m
  }

  ghost predicate StrictlySorted(k: seq<Id>) {
    forall i, j :: 0 <= i < j < |k| ==> LexLess(k[i], k[j])
  }

  /** The keys of an ordered map, in iteration order. */
  function SortedKeys(s: set<Id>): (r: seq<Id>)
    ensures StrictlySorted(r)
    ensures forall x :: x in r <==> x in s
    ensures |r| == |s|
    decreases |s|
  {
    if s == {} then []
    else
      var m := Least(s);
      var rest := SortedKeys(s - {m});
      assert forall j :: 0 <= j < |rest| ==> rest[j] in s - {m};
      [m] + rest
  }

  /** Folding moves exactly the letters from A to Z, by 32 places. */
  lemma LowerMeans(s: Id, i: nat)
    requires i < |s|
    ensures Lower(s)[i] as int == s[i] as int + (if 65 <= s[i] as int <= 90 then 32 else 0)
  {
  }

  /** The order of ids: a proper prefix comes first, and otherwise the smaller
      character where they first differ. */
  lemma {:induction false} LexMeans(a: Id, b: Id)
    ensures LexLess(a, b) <==> exists i :: DiffersAt(a, b, i)
  {
    if a != [] && b != [] {
      LexMeans(a[1..], b[1..]);
      if a[0] == b[0] {
        LexTail(a, b);
      } else {
        assert a[0] < b[0] ==> DiffersAt(a, b, 0);
      }
    } else {
      assert a == [] && b != [] ==> DiffersAt(a, b, 0);
    }
  }

  predicate DiffersAt(a: Id, b: Id, i: int) {
    && 0 <= i <= |a| && i < |b| && a[..i] == b[..i]
    && (i == |a| || a[i] < b[i])
  }

  lemma LexTail(a: Id, b: Id)
    requires a != [] && b != [] && a[0] == b[0]
    ensures a == b <==> a[1..] == b[1..]
    ensures (exists i :: DiffersAt(a, b, i)) <==> exists i :: DiffersAt(a[1..], b[1..], i)
  {
    assert a == [a[0]] + a[1..] && b == [b[0]] + b[1..];
    if i :| DiffersAt(a[1..], b[1..], i) {
      assert a[..i + 1] == [a[0]] + a[1..][..i] && b[..i + 1] == [b[0]] + b[1..][..i];
      assert DiffersAt(a, b, i + 1);
    }
    if i :| DiffersAt(a, b, i) {
      assert i > 0;
      assert a[1..][..i - 1] == a[..i][1..] && b[1..][..i - 1] == b[..i][1..];
      assert DiffersAt(a[1..], b[1..], i - 1);
    }
  }
}
