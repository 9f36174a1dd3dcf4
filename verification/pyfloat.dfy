/** float() of a decimal string, as the seed-file readers use it before
    truncating with int(): surrounding whitespace, an optional sign, digits
    with at most one decimal point, and an optional exponent. */
module PyFloat {
  import opened Wrappers
  import PyStr
  import PyNum

  predicate IsSpace(c: char) {
    c == ' ' || c == '\t' || c == '\n' || c == '\r'
  }

  function StripLeft(s: string): (r: string)
    ensures |r| <= |s| && r == s[|s| - |r|..]
    ensures forall k :: 0 <= k < |s| - |r| ==> IsSpace(s[k])
    ensures |r| > 0 ==> !IsSpace(r[0])
  {
    if |s| > 0 && IsSpace(s[0]) then
      var r := StripLeft(s[1..]);
      assert s[1..][|s| - 1 - |r|..] == s[|s| - |r|..];
      assert forall k :: 1 <= k < |s| ==> s[k] == s[1..][k - 1];
      r
    else s
  }

  function StripRight(s: string): (r: string)
    ensures |r| <= |s| && r == s[..|r|]
    ensures forall k :: |r| <= k < |s| ==> IsSpace(s[k])
    ensures |r| > 0 ==> !IsSpace(r[|r| - 1])
  {
    if |s| > 0 && IsSpace(s[|s| - 1]) then StripRight(s[..|s| - 1]) else s
  }

  /** str.strip(): s without its leading and trailing whitespace. */
  function Strip(s: string): string {
    StripRight(StripLeft(s))
  }

  /** Text that neither starts nor ends with whitespace is its own strip. */
  lemma StripUnspaced(s: string)
    requires |s| > 0 && !IsSpace(s[0]) && !IsSpace(s[|s| - 1])
    ensures Strip(s) == s
  {
  }

  function Pow10(n: nat): (r: nat)
    ensures r >= 1
  {
    if n == 0 then 1 else 10 * Pow10(n - 1)
  }

  /** A string of n digits has a value below 10^n. */
  lemma {:induction false} DigitsBelowPow10(s: string)
    requires PyStr.AllDigits(s)
    ensures PyStr.DigitsValue(s) < Pow10(|s|)
  {
    if |s| > 0 {
      DigitsBelowPow10(s[..|s| - 1]);
    }
  }

  lemma FractionBelowOne(d: nat, p: nat)
    requires d < p
    ensures 0.0 <= d as real / p as real < 1.0
  {
    var q := d as real / p as real;
    assert q * p as real == d as real;
  }

  /** The value of "whole.frac": the whole part plus a fraction below one. */
  function DecimalValue(whole: string, frac: string): (r: real)
    requires PyStr.AllDigits(whole) && PyStr.AllDigits(frac)
    ensures PyStr.DigitsValue(whole) as real <= r < PyStr.DigitsValue(whole) as real + 1.0
  {
    DigitsBelowPow10(frac);
    FractionBelowOne(PyStr.DigitsValue(frac), Pow10(|frac|));
    PyStr.DigitsValue(whole) as real + PyStr.DigitsValue(frac) as real / Pow10(|frac|) as real
  }

  /** The value of an unsigned literal "ddd", "ddd.ddd", ".ddd" or "ddd."
      (at least one digit); None for anything else. */
  function Unsigned(s: string): (r: Option<real>)
    ensures r.Some? ==> 0.0 <= r.value
  {
    var dot := PyStr.Find(s, '.');
    var whole := if dot == -1 then s else s[..dot];
    var frac := if dot == -1 then "" else s[dot + 1..];
    if |whole| + |frac| > 0 && PyStr.AllDigits(whole) && PyStr.AllDigits(frac) then
      Some(DecimalValue(whole, frac))
    else None
  }

  /** s holds no exponent marker 'e' or 'E'. */
  predicate NoMark(s: string) {
    forall j :: 0 <= j < |s| ==> s[j] != 'e' && s[j] != 'E'
  }

  /** The index of the first exponent marker in s, or -1. */
  function ExpMark(s: string): (k: int)
    ensures -1 <= k < |s|
    ensures k == -1 <==> NoMark(s)
    ensures k >= 0 ==> s[k] == 'e' || s[k] == 'E'
    ensures forall j :: 0 <= j < k ==> s[j] != 'e' && s[j] != 'E'
  {
    if |s| == 0 then -1
    else if s[0] == 'e' || s[0] == 'E' then 0
    else
      var k := ExpMark(s[1..]);
      assert forall j :: 1 <= j < |s| ==> s[j] == s[1..][j - 1];
      if k == -1 then -1 else k + 1
  }

  /** 10 to the integer power n. */
  function Scale(n: int): (r: real)
    ensures r > 0.0
  {
    if n >= 0 then Pow10(n) as real else 1.0 / Pow10(-n) as real
  }

  /** m * 10^n, non-negative for a non-negative m. */
  function Scaled(m: real, n: int): (r: real)
    requires 0.0 <= m
    ensures 0.0 <= r
    ensures n == 0 ==> r == m
  {
    var f := Scale(n);
    assert 0.0 <= m * f by {
      if m > 0.0 {
        assert m * f > 0.0;
      }
    }
    m * f
  }

  /** An unsigned literal with an optional exponent "<mantissa>e<int>":
      the mantissa is an Unsigned literal and the exponent an int() literal
      with an optional sign. */
  function Scientific(s: string): (r: Option<real>)
    ensures r.Some? ==> 0.0 <= r.value
    ensures NoMark(s) ==> r == Unsigned(s)
  {
    var k := ExpMark(s);
    if k == -1 then Unsigned(s)
    else
      var m := Unsigned(s[..k]);
      var n := PyStr.ParseInt(s[k + 1..]);
      if m.Some? && n.Some? then Some(Scaled(m.value, n.value)) else None
  }

  /** float(s) on decimal literals; None stands for the ValueError. */
  function Parse(s: string): (r: Option<real>)
    ensures r.Some? ==> |Strip(s)| > 0
    ensures r.Some? && Strip(s)[0] != '-' ==> r.value >= 0.0
  {
    var t := Strip(s);
    if |t| == 0 then None
    else if t[0] == '-' || t[0] == '+' then
      match Scientific(t[1..])
      case None => None
      case Some(v) => Some(if t[0] == '-' then -v else v)
    else Scientific(t)
  }

  /** float("1e-05") is 0.00001: the exponent form a written-out small
      float takes is read. */
  lemma ParseExponent()
    ensures Parse("1e-05") == Some(0.00001)
  {
    StripUnspaced("1e-05");
    ScientificExponent();
  }

  lemma ScientificExponent()
    ensures Scientific("1e-05") == Some(0.00001)
  {
    var s := "1e-05";
    MarkAtOne();
    assert s[..1] == "1" && s[2..] == "-05";
    UnsignedOne();
    NegativeFive();
    assert Pow10(5) == 100000;
    assert Scaled(1.0, -5) == 0.00001;
  }

  lemma MarkAtOne()
    ensures ExpMark("1e-05") == 1
  {
    assert "1e-05"[1..] == "e-05";
  }

  lemma UnsignedOne()
    ensures Unsigned("1") == Some(1.0)
  {
    assert PyStr.Find("1", '.') == -1;
    assert PyStr.DigitsValue("1") == 1;
  }

  lemma NegativeFive()
    ensures PyStr.ParseInt("-05") == Some(-5)
  {
    assert "-05"[1..] == "05";
    assert "05"[..1] == "0";
    assert PyStr.DigitsValue("05") == 5;
  }

  /** float() agrees with int() on every literal int() accepts. */
  lemma ParseAgreesWithInt(s: string)
    requires PyStr.ParseInt(s).Some?
    ensures Parse(s) == Some(PyStr.ParseInt(s).value as real)
  {
    var last := s[|s| - 1];
    if s[0] == '-' || s[0] == '+' {
      assert PyStr.AllDigits(s[1..]);
      assert last == s[1..][|s| - 2];
      assert '.' !in s[1..] && NoMark(s[1..]);
    } else {
      assert '.' !in s && NoMark(s);
    }
    StripUnspaced(s);
  }

  /** int(float(str(n))) == n: an integer written out is read back. */
  lemma ReadBackInt(n: int)
    ensures Parse(PyStr.IntToString(n)).Some?
    ensures PyNum.Trunc(Parse(PyStr.IntToString(n)).value) == n
  {
    PyStr.ParseIntToString(n);
    ParseAgreesWithInt(PyStr.IntToString(n));
  }

  /** Find on a string whose first c is at k. */
  lemma FindAt(s: string, c: char, k: int)
    requires 0 <= k < |s| && s[k] == c && c !in s[..k]
    ensures PyStr.Find(s, c) == k
  {
    assert s[k] in s;
  }

  /** "whole.frac" reads as its decimal value. */
  lemma UnsignedDecimal(whole: string, frac: string)
    requires PyStr.AllDigits(whole) && PyStr.AllDigits(frac) && |whole| + |frac| > 0
    ensures Unsigned(whole + "." + frac) == Some(DecimalValue(whole, frac))
  {
    var s := whole + "." + frac;
    assert s[..|whole|] == whole && s[|whole| + 1..] == frac;
    assert '.' !in whole;
    FindAt(s, '.', |whole|);
  }

  /** "whole.frac" has no exponent marker. */
  lemma NoMarkInDecimal(whole: string, frac: string)
    requires PyStr.AllDigits(whole) && PyStr.AllDigits(frac)
    ensures NoMark(whole + "." + frac)
  {
    var s := whole + "." + frac;
    forall k | 0 <= k < |s|
      ensures s[k] != 'e' && s[k] != 'E'
    {
      if k < |whole| {
        assert s[k] == whole[k];
      } else if k > |whole| {
        assert s[k] == frac[k - |whole| - 1];
      }
    }
  }

  /** float("w.f") is the decimal value of w.f. */
  lemma ParseDecimal(whole: string, frac: string)
    requires |whole| > 0 && PyStr.AllDigits(whole) && PyStr.AllDigits(frac)
    ensures Parse(whole + "." + frac) == Some(DecimalValue(whole, frac))
  {
    var s := whole + "." + frac;
    UnsignedDecimal(whole, frac);
    NoMarkInDecimal(whole, frac);
    assert s[0] == whole[0];
    assert s[|s| - 1] == '.' || s[|s| - 1] == frac[|frac| - 1];
    StripUnspaced(s);
  }

  /** int(float("w.f")) is the whole part w: the fraction is below one. */
  lemma TruncOfDecimal(whole: string, frac: string)
    requires |whole| > 0 && PyStr.AllDigits(whole) && PyStr.AllDigits(frac)
    ensures Parse(whole + "." + frac).Some?
    ensures PyNum.Trunc(Parse(whole + "." + frac).value) == PyStr.DigitsValue(whole)
  {
    ParseDecimal(whole, frac);
    var v := DecimalValue(whole, frac);
    assert PyStr.DigitsValue(whole) as real <= v < PyStr.DigitsValue(whole) as real + 1.0;
  }
}
