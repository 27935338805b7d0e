/** Reading numbers out of text: `int()` of a digit string, and Python's
    `float()` for its finite decimal forms, with the value kept exact. */
module Numbers {
  import opened Wrappers
  import opened Text

  /** `int(ds)` for a string of decimal digits. */
  function DigitsValue(ds: string): (v: nat)
    ensures |ds| <= 1 ==> v < 10
    ensures |ds| <= 2 ==> v < 100
  {
    if |ds| == 0 then 0
    else
      var d := ds[|ds| - 1] as int - '0' as int;
      DigitsValue(ds[..|ds| - 1]) * 10 + (if 0 <= d <= 9 then d else 0)
  }

  /** `str(n)`: the decimal digits of `n`, without leading zeros. */
  function NatText(n: nat): (s: string)
    ensures |s| > 0 && forall k :: 0 <= k < |s| ==> IsDigit(s[k])
    ensures n > 0 ==> s[0] != '0'
  {
    if n < 10 then [('0' as int + n) as char]
    else NatText(n / 10) + [('0' as int + n % 10) as char]
  }

  /** Reading the digits back gives the number. */
  lemma {:induction false} NatTextRoundTrip(n: nat)
    ensures DigitsValue(NatText(n)) == n
  {
    var s := NatText(n);
    if n < 10 {
      assert s[..0] == [];
    } else {
      NatTextRoundTrip(n / 10);
      assert s[..|s| - 1] == NatText(n / 10);
    }
  }

  function Pow10(n: nat): (p: nat)
    ensures p >= 1
  {
    if n == 0 then 1 else 10 * Pow10(n - 1)
  }

  /** A decimal number: `mantissa` times ten to the `exponent`, negated
      when `negative`. */
  datatype Decimal = Decimal(negative: bool, mantissa: nat, exponent: int)

  function Magnitude(d: Decimal): (x: real)
    ensures x >= 0.0
    ensures x > 0.0 <==> d.mantissa > 0
  {
    if d.exponent >= 0 then (d.mantissa * Pow10(d.exponent)) as real
    else d.mantissa as real / Pow10(-d.exponent) as real
  }

  function ValueOf(d: Decimal): (x: real)
    ensures x > 0.0 <==> !d.negative && d.mantissa > 0
  {
    if d.negative then -Magnitude(d) else Magnitude(d)
  }

  /** End of the digit part starting at `i`: a digit, then digits each
      optionally preceded by one underscore. `i` itself when `s[i]` is no
      digit. */
  function DigitPartEnd(s: string, i: nat): (j: nat)
    requires i <= |s|
    ensures i <= j <= |s|
    ensures j > i ==> IsDigit(s[i])
  {
    if i < |s| && IsDigit(s[i]) then DigitPartRest(s, i + 1) else i
  }

  function DigitPartRest(s: string, i: nat): (j: nat)
    requires i <= |s|
    ensures i <= j <= |s|
    decreases |s| - i
  {
    if i < |s| && IsDigit(s[i]) then DigitPartRest(s, i + 1)
    else if i + 1 < |s| && s[i] == '_' && IsDigit(s[i + 1]) then DigitPartRest(s, i + 2)
    else i
  }

  /** The digits of a digit part, underscores dropped. */
  function DigitsOf(part: string): string
  {
    RemoveAll(part, "_")
  }

  /** The exponent suffix at `d`: nothing at all, or `e`/`E`, an optional
      sign and a digit part reaching the end of `t`. */
  function ExponentAt(t: string, d: nat): (r: Option<int>)
    requires d <= |t|
  {
    if d == |t| then Some(0)
    else if t[d] == 'e' || t[d] == 'E' then
      var x := if d + 1 < |t| && (t[d + 1] == '+' || t[d + 1] == '-') then d + 2 else d + 1;
      var y := DigitPartEnd(t, x);
      if y == x || y != |t| then None
      else
        var e: int := DigitsValue(DigitsOf(t[x..y]));
        Some(if x == d + 2 && t[d + 1] == '-' then -e else e)
    else None
  }

  /** The grammar of `float()` for a finite number, on text with no
      surrounding whitespace: an optional sign, a digit part, an optional
      point and fractional digit part (at least one of the two digit parts
      present), an optional exponent. */
  function ParseDecimal(t: string): (r: Option<Decimal>)
  {
    var a := if |t| > 0 && (t[0] == '+' || t[0] == '-') then 1 else 0;
    var b := DigitPartEnd(t, a);
    var dot := b < |t| && t[b] == '.';
    var c := if dot then b + 1 else b;
    var d := if dot then DigitPartEnd(t, c) else b;
    if b == a && d == c then None
    else
      match ExponentAt(t, d)
      case None => None
      case Some(e) =>
        var frac := DigitsOf(t[c..d]);
        Some(Decimal(a == 1 && t[0] == '-', DigitsValue(DigitsOf(t[a..b]) + frac), e - |frac|))
  }

  /** `float(s)` for finite numbers; `None` where `float` raises
      `ValueError`. The special values `inf`, `infinity` and `nan` are not
      read (see the README). */
  function ParseFloat(s: string): (r: Option<real>)
  {
    match ParseDecimal(Strip(s))
    case None => None
    case Some(d) => Some(ValueOf(d))
  }

  lemma {:induction false} DigitRunEnd(s: string, i: nat)
    requires i <= |s| && forall k :: i <= k < |s| ==> IsDigit(s[k])
    ensures DigitPartRest(s, i) == |s|
    decreases |s| - i
  {
    if i < |s| {
      DigitRunEnd(s, i + 1);
    }
  }

  /** The digit part of a plain digit string is the whole string. */
  lemma DigitsOfDigits(t: string)
    requires forall k :: 0 <= k < |t| ==> IsDigit(t[k])
    ensures DigitsOf(t) == t
  {
    CharAbsent(t, "_", 0);
    RemoveAbsent(t, "_", 0);
  }

  lemma ParseDecimalDigits(t: string)
    requires |t| > 0 && forall k :: 0 <= k < |t| ==> IsDigit(t[k])
    ensures ParseDecimal(t) == Some(Decimal(false, DigitsValue(t), 0))
  {
    assert t[0] != '+' && t[0] != '-';
    DigitPartWhole(t);
    DigitsOfDigits(t);
    ParseDecimalWhole(t);
  }

  /** Text that is one unsigned digit part is read as that integer. */
  lemma ParseDecimalWhole(t: string)
    requires |t| > 0 && t[0] != '+' && t[0] != '-' && DigitPartEnd(t, 0) == |t|
    ensures ParseDecimal(t) == Some(Decimal(false, DigitsValue(DigitsOf(t)), 0))
  {
    var whole, frac := t[0..|t|], t[|t|..|t|];
    assert whole == t && frac == [];
    DigitsOfDigits([]);
    assert DigitsOf(whole) + DigitsOf(frac) == DigitsOf(t);
    assert ExponentAt(t, |t|) == Some(0);
  }

  /** A plain string of digits is one digit part. */
  lemma DigitPartWhole(t: string)
    requires |t| > 0 && forall k :: 0 <= k < |t| ==> IsDigit(t[k])
    ensures DigitPartEnd(t, 0) == |t|
  {
    DigitRunEnd(t, 1);
  }

  /** A plain string of digits is read as the integer it spells. */
  lemma ParseFloatDigits(s: string)
    requires |s| > 0 && forall k :: 0 <= k < |s| ==> IsDigit(s[k])
    ensures ParseFloat(s) == Some(DigitsValue(s) as real)
  {
    assert !IsSpace(s[0]) && !IsSpace(s[|s| - 1]);
    StripAt(s, 0, |s|);
    assert s[0..|s|] == s;
    var d := Decimal(false, DigitsValue(s), 0);
    ParseDecimalDigits(s);
    assert ParseDecimal(Strip(s)) == Some(d);
    assert Magnitude(d) == (DigitsValue(s) * Pow10(0)) as real;
  }

  /** Every number `float` reads has a digit in it. */
  lemma ParseFloatNeedsDigit(s: string)
    requires ParseFloat(s).Some?
    ensures exists k :: 0 <= k < |s| && IsDigit(s[k])
  {
    StripSpec(s);
    var b, e :| 0 <= b <= e <= |s| && Strip(s) == s[b..e];
    var t := Strip(s);
    ParseDecimalNeedsDigit(t);
    var k :| 0 <= k < |t| && IsDigit(t[k]);
    assert s[b + k] == t[k];
  }

  /** The grammar has a digit in every number it accepts. */
  lemma ParseDecimalNeedsDigit(t: string)
    requires ParseDecimal(t).Some?
    ensures exists k :: 0 <= k < |t| && IsDigit(t[k])
  {
    var a := if |t| > 0 && (t[0] == '+' || t[0] == '-') then 1 else 0;
    var b := DigitPartEnd(t, a);
    var dot := b < |t| && t[b] == '.';
    var c := if dot then b + 1 else b;
    var d := if dot then DigitPartEnd(t, c) else b;
    if b > a {
      assert IsDigit(t[a]);
    } else {
      assert d > c && IsDigit(t[c]);
    }
  }

  /** Whatever surrounds the number as whitespace does not change it. */
  lemma ParseFloatStrips(s: string)
    ensures ParseFloat(s) == ParseFloat(Strip(s))
  {
    StripSpec(s);
    var r := Strip(s);
    if |r| > 0 {
      StripAt(r, 0, |r|);
      assert r[0..|r|] == r;
    } else {
      assert Strip(r) == r;
    }
  }
}
