/**
  The text operations the process table relies on: decimal rendering of an
  unsigned integer (Rust's `to_string`), fixed-point rendering with two
  decimals (`format!("{:.2}", ..)`), removal of every occurrence of a
  pattern (`str::replace(pat, "")`) and parsing of a decimal number
  (`str::parse::<f64>`), restricted to the unsigned decimal forms.
  Parsed numbers are exact `real`s.
 */
module Text {

  datatype Option<T> = None | Some(value: T)

  predicate IsDigit(c: char) {
    '0' <= c <= '9'
  }

  predicate AllDigits(s: string) {
    forall i :: 0 <= i < |s| ==> IsDigit(s[i])
  }

  function DigitValue(c: char): nat
    requires IsDigit(c)
  {
    (c as int) - ('0' as int)
  }

  function DigitChar(d: nat): (c: char)
    requires d < 10
    ensures IsDigit(c) && DigitValue(c) == d
  {
    (('0' as int) + d) as char
  }

  /** The decimal text of `n`, without sign or leading zeros. */
  function NatToString(n: nat): (s: string)
    ensures |s| > 0 && AllDigits(s)
    ensures s[0] == '0' ==> s == "0"
    decreases n
  {
    if n < 10 then [DigitChar(n)] else NatToString(n / 10) + [DigitChar(n % 10)]
  }

  /** The value of a string of decimal digits, most significant first. */
  function DigitsValue(s: string): nat
    requires AllDigits(s)
  {
    if s == [] then 0 else DigitsValue(s[..|s| - 1]) * 10 + DigitValue(s[|s| - 1])
  }

  /** The value of the digits after a decimal point. */
  function FracValue(s: string): (r: real)
    requires AllDigits(s)
    ensures 0.0 <= r <= 1.0
  {
    if s == [] then 0.0 else (DigitValue(s[0]) as real + FracValue(s[1..])) / 10.0
  }

  /** `n` hundredths written with two decimals: 1234 becomes "12.34". */
  function Fixed2(n: nat): string {
    NatToString(n / 100) + "." + [DigitChar(n / 10 % 10), DigitChar(n % 10)]
  }

  /** The position of the first `c` in `s`, or `|s|` when there is none. */
  function IndexOf(s: string, c: char): (i: nat)
    ensures i <= |s|
    ensures forall j :: 0 <= j < i ==> s[j] != c
    ensures i < |s| ==> s[i] == c
  {
    if s == [] then 0 else if s[0] == c then 0 else 1 + IndexOf(s[1..], c)
  }

  /** Every non-overlapping occurrence of `pat` removed, scanning from the left. */
  function RemoveAll(s: string, pat: string): string
    requires |pat| > 0
    decreases |s|
  {
    if |s| < |pat| then s
    else if s[..|pat|] == pat then RemoveAll(s[|pat|..], pat)
    else [s[0]] + RemoveAll(s[1..], pat)
  }

  /**
    Unsigned decimal number: digits, optionally a point and more digits,
    with at least one digit in all ("7", "7.", ".5", "12.34").
   */
  function ParseDecimal(s: string): (r: Option<real>)
    ensures r.Some? ==> r.value >= 0.0
    ensures r.Some? ==> |s| > 0
  {
    var i := IndexOf(s, '.');
    if i == |s| then
      if |s| > 0 && AllDigits(s) then Some(DigitsValue(s) as real) else None
    else
      var whole, frac := s[..i], s[i + 1..];
      if AllDigits(whole) && AllDigits(frac) && |whole| + |frac| > 0
      then Some(DigitsValue(whole) as real + FracValue(frac))
      else None
  }

  lemma {:induction false} NatToStringRoundTrip(n: nat)
    ensures DigitsValue(NatToString(n)) == n
    decreases n
  {
    if n >= 10 {
      var s := NatToString(n);
      assert s[..|s| - 1] == NatToString(n / 10);
      NatToStringRoundTrip(n / 10);
    }
  }

  lemma {:induction false} Fixed2RoundTrip(n: nat)
    ensures ParseDecimal(Fixed2(n)) == Some(n as real / 100.0)
  {
    var w := NatToString(n / 100);
    var t, u := n / 10 % 10, n % 10;
    var f := [DigitChar(t), DigitChar(u)];
    var s := Fixed2(n);
    assert s == w + ['.'] + f;
    assert IndexOf(s, '.') == |w| by {
      assert forall j :: 0 <= j < |w| ==> s[j] == w[j] && IsDigit(w[j]);
      assert s[|w|] == '.';
    }
    assert s[..|w|] == w;
    assert s[|w| + 1..] == f;
    NatToStringRoundTrip(n / 100);
    assert f[1..] == [DigitChar(u)];
    assert FracValue([DigitChar(u)]) == u as real / 10.0 by {
      assert [DigitChar(u)][1..] == [];
    }
    assert FracValue(f) == (t as real + u as real / 10.0) / 10.0;
    assert n == 100 * (n / 100) + 10 * t + u by {
      assert n / 10 == 10 * (n / 100) + t;
      assert n == 10 * (n / 10) + u;
    }
  }

  lemma {:induction false} RemoveSuffix(x: string, pat: string)
    requires |pat| > 0 && pat[0] !in x
    ensures RemoveAll(x + pat, pat) == x
    decreases |x|
  {
    var s := x + pat;
    if x == [] {
      assert s[..|pat|] == pat && s[|pat|..] == [];
    } else {
      assert s[..|pat|] != pat by { assert s[0] == x[0] != pat[0]; }
      assert s[1..] == x[1..] + pat;
      RemoveSuffix(x[1..], pat);
    }
  }
}
