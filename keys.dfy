/**
  Keys of the feature-flag dictionary and the text/integer conversions the
  lookup rule relies on.

  A Python dict key here is either a `str` or an `int`; `Key` keeps the two
  apart, so `S("1")` and `I(1)` are different keys, exactly as `"1"` and `1`
  are different keys of a Python dict.
 */
module Keys {
  import opened Optional

  datatype Key = S(text: string) | I(n: int)

  predicate IsDigit(c: char) {
    '0' <= c <= '9'
  }

  predicate AllDigits(s: string) {
    forall i :: 0 <= i < |s| ==> IsDigit(s[i])
  }

  function DigitValue(c: char): (d: nat)
    requires IsDigit(c)
    ensures d < 10
  {
    (c as int) - ('0' as int)
  }

  function DigitChar(d: nat): (c: char)
    requires d < 10
    ensures IsDigit(c) && DigitValue(c) == d
  {
    (('0' as int) + d) as char
  }

  /** The value of a decimal numeral, most significant digit first; leading zeros are allowed. */
  function DigitsValue(s: string): nat
    requires AllDigits(s)
  {
    if s == [] then 0 else DigitsValue(s[..|s| - 1]) * 10 + DigitValue(s[|s| - 1])
  }

  predicate IsSign(c: char) {
    c == '-' || c == '+'
  }

  /**
    Python's `int(text)` on a URL segment: an optional sign followed by one or
    more ASCII decimal digits. `None` stands for the ValueError the source
    catches.
   */
  function ParseInt(t: string): (r: Option<int>)
    ensures r.Some? <==>
              |t| > 0 && if IsSign(t[0]) then |t| > 1 && AllDigits(t[1..]) else AllDigits(t)
    ensures r.Some? && r.value < 0 ==> t[0] == '-'
  {
    var signed := |t| > 0 && IsSign(t[0]);
    var digits := if signed then t[1..] else t;
    if digits == [] || !AllDigits(digits) then None
    else
      var v: int := DigitsValue(digits);
      if signed && t[0] == '-' then Some(-v) else Some(v)
  }

  /** The shortest decimal numeral of `n`, without leading zeros. */
  function NatToDigits(n: nat): (s: string)
    ensures s != [] && AllDigits(s)
    ensures n > 0 ==> s[0] != '0'
    decreases n
  {
    if n < 10 then [DigitChar(n)] else NatToDigits(n / 10) + [DigitChar(n % 10)]
  }

  /** Python's `str(n)`: how an integer id is written in a URL. */
  function Render(n: int): string {
    if n < 0 then "-" + NatToDigits(-n) else NatToDigits(n)
  }

  /** The text form a client uses in a URL to name a stored key. */
  function KeyText(k: Key): string {
    match k
    case S(t) => t
    case I(n) => Render(n)
  }

  lemma {:induction false} NatToDigitsValue(n: nat)
    ensures DigitsValue(NatToDigits(n)) == n
    decreases n
  {
    var s := NatToDigits(n);
    if n >= 10 {
      NatToDigitsValue(n / 10);
      assert s[..|s| - 1] == NatToDigits(n / 10);
    }
  }

  /** Parsing the rendering of an integer gives the integer back. */
  lemma ParseRender(n: int)
    ensures ParseInt(Render(n)) == Some(n)
  {
    var m: nat := if n < 0 then -n else n;
    var ds := NatToDigits(m);
    NatToDigitsValue(m);
    var t := Render(n);
    if n < 0 {
      assert t[0] == '-' && t[1..] == ds;
      assert ParseInt(t) == Some(-(DigitsValue(ds) as int));
    } else {
      assert t == ds && !IsSign(t[0]);
      assert ParseInt(t) == Some(DigitsValue(ds) as int);
    }
  }

  /*
   * The reverse direction: which numeral an accepted text stands for
   */

  /** The text without its sign, if it has one. */
  function Unsigned(t: string): string {
    if |t| > 0 && IsSign(t[0]) then t[1..] else t
  }

  /** The digits without leading zeros, keeping at least one digit. */
  function StripZeros(ds: string): string {
    if |ds| > 1 && ds[0] == '0' then StripZeros(ds[1..]) else ds
  }

  /** A numeral as `str` prints a natural number: digits, no leading zero unless it is `0`. */
  predicate Canonical(ds: string) {
    ds != [] && AllDigits(ds) && (|ds| > 1 ==> ds[0] != '0')
  }

  /** An accepted text with `+` dropped, leading zeros dropped, and `-0` written `0`. */
  function Normalize(t: string): string {
    var z := StripZeros(Unsigned(t));
    if |t| > 0 && t[0] == '-' && z != "0" then "-" + z else z
  }

  lemma {:induction false} LeadingZeroValue(x: string)
    requires AllDigits(x)
    ensures DigitsValue("0" + x) == DigitsValue(x)
    decreases |x|
  {
    if x != [] {
      var y := x[..|x| - 1];
      LeadingZeroValue(y);
      assert ("0" + x)[..|x|] == "0" + y;
    }
  }

  lemma {:induction false} StripZerosValue(ds: string)
    requires ds != [] && AllDigits(ds)
    ensures Canonical(StripZeros(ds)) && DigitsValue(StripZeros(ds)) == DigitsValue(ds)
    decreases |ds|
  {
    if |ds| > 1 && ds[0] == '0' {
      StripZerosValue(ds[1..]);
      assert ds == "0" + ds[1..];
      LeadingZeroValue(ds[1..]);
    }
  }

  lemma {:induction false} ValueAtLeastHead(p: string)
    requires p != [] && AllDigits(p)
    ensures DigitsValue(p) >= DigitValue(p[0])
    decreases |p|
  {
    if |p| > 1 {
      ValueAtLeastHead(p[..|p| - 1]);
    }
  }

  /** A canonical numeral is the rendering of its own value. */
  lemma {:induction false} CanonicalDigits(ds: string)
    requires Canonical(ds)
    ensures NatToDigits(DigitsValue(ds)) == ds
    decreases |ds|
  {
    if |ds| > 1 {
      var p, c := ds[..|ds| - 1], ds[|ds| - 1];
      assert p[0] == ds[0];
      CanonicalDigits(p);
      ValueAtLeastHead(p);
      var v := DigitsValue(ds);
      assert v == DigitsValue(p) * 10 + DigitValue(c);
      assert v / 10 == DigitsValue(p) && v % 10 == DigitValue(c);
      assert ds == p + [c];
    }
  }

  /**
    Parsing then rendering normalises the text: the integer an accepted text
    denotes is printed as that text without `+`, without leading zeros, and
    with `-0` as `0`.
   */
  lemma ParseNormalizes(t: string, n: int)
    requires ParseInt(t) == Some(n)
    ensures Render(n) == Normalize(t)
  {
    var ds := Unsigned(t);
    var z := StripZeros(ds);
    StripZerosValue(ds);
    CanonicalDigits(z);
    var v := DigitsValue(ds);
    assert NatToDigits(v) == z;
    assert NatToDigits(0) == "0";
    if t[0] == '-' && v > 0 {
      assert z != "0" by {
        assert DigitsValue("0") == 0;
      }
    }
  }

  /**
    A second numeral for `n`, other than `str(n)`: `+` in front of a
    non-negative rendering, a zero after the minus of a negative one.
   */
  function Alias(n: int): string {
    if n < 0 then "-0" + NatToDigits(-n) else "+" + NatToDigits(n)
  }

  /** The alias parses to the same integer as `str(n)` but is a different text. */
  lemma AliasParses(n: int)
    ensures ParseInt(Alias(n)) == Some(n)
    ensures Alias(n) != Render(n)
  {
    var t := Alias(n);
    if n < 0 {
      var ds := NatToDigits(-n);
      NatToDigitsValue(-n);
      LeadingZeroValue(ds);
      assert t[0] == '-' && t[1..] == "0" + ds;
      assert |t| == |Render(n)| + 1;
    } else {
      var ds := NatToDigits(n);
      NatToDigitsValue(n);
      assert t[0] == '+' && t[1..] == ds;
      assert Render(n)[0] == ds[0] && IsDigit(ds[0]);
    }
  }

  /** Several texts parse to one integer, so several URLs reach the same integer key. */
  lemma NumeralAliases()
    ensures ParseInt("7") == Some(7) && ParseInt("07") == Some(7) && ParseInt("+7") == Some(7)
    ensures ParseInt("-0") == Some(0) && Render(0) == "0"
    ensures ParseInt("x7").None? && ParseInt("-").None? && ParseInt("7a").None?
    ensures ParseInt("1.5").None? && ParseInt("0x7").None?
  {
    assert "07"[..1] == "0";
    assert "+7"[1..] == "7";
    assert "-0"[1..] == "0";
    assert "x7"[0] == 'x';
    assert !IsDigit("7a"[1]);
    assert !IsDigit("1.5"[1]);
    assert !IsDigit("0x7"[1]);
  }
}
