/** 32-byte values and their `0x` hexadecimal text. */
module HexText {
  import opened Words
  import opened Arithmetic
  import opened Ids

  function Digit(d: nat): (c: char)
    requires d < 16
    ensures DigitValue(c) == Some(d) && LowerChar(c) == c
  {
    if d < 10 then '0' + d as char else 'a' + (d - 10) as char
  }

  function DigitValue(c: char): Option<nat> {
    if '0' <= c <= '9' then Some((c - '0') as nat)
    else if 'a' <= c <= 'f' then Some((c - 'a') as nat + 10)
    else if 'A' <= c <= 'F' then Some((c - 'A') as nat + 10)
    else None
  }

  /** The last `n` hex digits of `v`, most significant first. */
  function Digits(v: nat, n: nat): (s: Id)
    ensures |s| == n
  {
    if n == 0 then [] else Digits(v / 16, n - 1) + [Digit(v % 16)]
  }

  /** The value of a digit string, if every character is a digit. */
  function ValueOf(s: Id): Option<nat> {
    if |s| == 0 then Some(0)
    else
      var init, last := ValueOf(s[..|s| - 1]), DigitValue(s[|s| - 1]);
      if init.None? || last.None? then None else Some(16 * init.value + last.value)
  }

  /** The text form: `0x` and 64 lower-case digits. */
  function Format(b: u256): Id { "0x" + Digits(b, 64) }

  function Stripped(s: Id): Id {
    if |s| >= 2 && s[..2] == "0x" then s[2..] else s
  }

  lemma FourBits(n: nat)
    ensures Pow2(4 * (n + 1)) == 16 * Pow2(4 * n)
  {
    assert Pow2(4 * n + 2) == 4 * Pow2(4 * n);
    assert Pow2(4 * n + 4) == 4 * Pow2(4 * n + 2);
  }

  lemma {:induction false} ValueBelow(s: Id)
    requires ValueOf(s).Some?
    ensures ValueOf(s).value < Pow2(4 * |s|)
  {
    if |s| > 0 {
      ValueBelow(s[..|s| - 1]);
      FourBits(|s| - 1);
    }
  }

  /** `from_str`: an optional prefix, then exactly 64 digits of either case. */
  function Parse(s: Id): Option<u256> {
    var text := Stripped(s);
    if |text| != 64 || ValueOf(text).None? then None
    else
      ValueBelow(text);
      Pow2Words(8);
      Some(ValueOf(text).value)
  }

  lemma {:induction false} DigitsValue(v: nat, n: nat)
    requires v < Pow2(4 * n)
    ensures ValueOf(Digits(v, n)) == Some(v)
  {
    if n > 0 {
      FourBits(n - 1);
      DigitsValue(v / 16, n - 1);
      assert Digits(v, n)[..n - 1] == Digits(v / 16, n - 1);
    }
  }

  /** Formatting and parsing is the identity on 32-byte values. */
  lemma {:induction false} FormatParses(b: u256)
    ensures Parse(Format(b)) == Some(b)
  {
    Pow2Words(8);
    DigitsValue(b, 64);
    assert Stripped(Format(b)) == Digits(b, 64);
  }

  lemma {:induction false} DigitsAreDigits(v: nat, n: nat, i: nat)
    requires i < n
    ensures DigitValue(Digits(v, n)[i]).Some?
  {
    if i < n - 1 { DigitsAreDigits(v / 16, n - 1, i); }
  }

  /** The prefix is optional. */
  lemma {:induction false} BareDigitsParse(b: u256)
    ensures Parse(Digits(b, 64)) == Some(b)
  {
    Pow2Words(8);
    DigitsValue(b, 64);
    DigitsAreDigits(b, 64, 1);
    assert "0x"[1] == 'x';
    assert Stripped(Digits(b, 64)) == Digits(b, 64);
  }

  /** So the text of a value names only that value. */
  lemma {:induction false} FormatInjective(a: u256, b: u256)
    requires Format(a) == Format(b)
    ensures a == b
  {
    FormatParses(a);
    FormatParses(b);
  }

  lemma {:induction false} LowerDigits(v: nat, n: nat)
    ensures Lower(Digits(v, n)) == Digits(v, n)
  {
    if n > 0 {
      LowerDigits(v / 16, n - 1);
    }
  }

  /** The text form is already normalised. */
  lemma {:induction false} FormatIsLower(b: u256)
    ensures Lower(Format(b)) == Format(b)
  {
    LowerDigits(b, 64);
    assert Lower("0x") == "0x";
  }

  // ----- which texts parse, and how they are ordered -----------------------

  lemma {:induction false} AllDigits(s: Id)
    ensures ValueOf(s).Some? <==> forall i :: 0 <= i < |s| ==> DigitValue(s[i]).Some?
  {
    if |s| > 0 {
      var init := s[..|s| - 1];
      AllDigits(init);
      assert (forall i :: 0 <= i < |s| ==> DigitValue(s[i]).Some?) <==>
        (forall i :: 0 <= i < |init| ==> DigitValue(init[i]).Some?) && DigitValue(s[|s| - 1]).Some?;
    }
  }

  lemma {:induction false} ValueIgnoresCase(s: Id)
    ensures ValueOf(Lower(s)) == ValueOf(s)
  {
    if |s| > 0 {
      ValueIgnoresCase(s[..|s| - 1]);
      assert Lower(s)[..|s| - 1] == Lower(s[..|s| - 1]);
    }
  }

  lemma {:induction false} DigitsOrder(v: nat, w: nat, n: nat) returns (i: nat)
    requires v < w < Pow2(4 * n)
    ensures i < n && DiffersAt(Digits(v, n), Digits(w, n), i)
  {
    if n == 0 {
      assert false;
    } else {
      FourBits(n - 1);
      var a, b := Digits(v / 16, n - 1), Digits(w / 16, n - 1);
      if v / 16 < w / 16 {
        i := DigitsOrder(v / 16, w / 16, n - 1);
        assert Digits(v, n)[..i] == a[..i] && Digits(w, n)[..i] == b[..i];
      } else {
        i := n - 1;
        assert Digits(v, n)[..i] == a && Digits(w, n)[..i] == b;
      }
    }
  }

  /** Texts of values are ordered as the values are, so a map keyed by either is
      walked alike. */
  lemma {:induction false} FormatOrder(v: u256, w: u256)
    requires v < w
    ensures LexLess(Format(v), Format(w))
  {
    Pow2Words(8);
    var i := DigitsOrder(v, w, 64);
    var a, b := Format(v), Format(w);
    assert a[..i + 2] == "0x" + Digits(v, 64)[..i] && b[..i + 2] == "0x" + Digits(w, 64)[..i];
    assert DiffersAt(a, b, i + 2);
    LexMeans(a, b);
  }
}
