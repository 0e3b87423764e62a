/**
 * formatRem (index.js:141-147): a rem length rounded to thousandths and rendered the way
 * JavaScript prints the rounded number, with a leading `0` dropped and `rem` appended.
 * The rounded number is handled as an integer count of thousandths.
 */
module Format {
  import opened Chars
  import opened Wrappers
  import opened Validate

  /** Math.round: the integer nearest to `y`, a tie going towards +infinity. */
  function RoundHalfUp(y: real): (n: int)
    ensures y - 0.5 < n as real <= y + 0.5
  {
    (y + 0.5).Floor
  }

  /** A tie goes up, also for negative values: Math.round(-2.5) is -2. */
  lemma RoundHalfUpTies(k: int)
    ensures RoundHalfUp(k as real + 0.5) == k + 1
    ensures RoundHalfUp(k as real - 0.5) == k
  {
  }

  /** The count of thousandths `x` rounds to: `Math.round(x * 1000)`. */
  function Thousandths(x: real): int
  {
    RoundHalfUp(x * 1000.0)
  }

  /** The rounded value lies within half a thousandth of `x`. */
  lemma ThousandthsClose(x: real)
    ensures -0.0005 < Thousandths(x) as real / 1000.0 - x <= 0.0005
  {
  }

  /** The digits left when the trailing zeros are removed. */
  function TrimZeros(s: string): (t: string)
    ensures |t| <= |s| && t == s[..|t|]
    ensures t != [] ==> t[|t| - 1] != '0'
    ensures forall i :: |t| <= i < |s| ==> s[i] == '0'
  {
    if s != [] && s[|s| - 1] == '0' then
      var t := TrimZeros(s[..|s| - 1]);
      assert s[..|s| - 1][..|t|] == s[..|t|];
      t
    else s
  }

  /** The digits after the decimal point of `frac / 1000`: three places, trailing zeros removed. */
  function Fraction(frac: nat): (t: string)
    requires 0 < frac < 1000
    ensures |t| > 0 && AllDigits(t) && t[|t| - 1] != '0'
  {
    var s := FixedDigits(frac, 3);
    TrimZerosOfNonZero(s);
    TrimZeros(s)
  }

  /** The fraction digits denote `frac / 1000`. */
  lemma FractionValue(frac: nat)
    requires 0 < frac < 1000
    ensures DigitsValue(Fraction(frac)) as real / Pow10(|Fraction(frac)|) as real == frac as real / 1000.0
  {
    ThreePlaces(frac, FixedDigits(frac, 3));
  }

  lemma ThreePlaces(frac: nat, s: string)
    requires |s| == 3 && AllDigits(s) && DigitsValue(s) == frac
    ensures AllDigits(TrimZeros(s))
    ensures DigitsValue(TrimZeros(s)) as real / Pow10(|TrimZeros(s)|) as real == frac as real / 1000.0
  {
    TrimZerosValue(s);
    assert Pow10(|s|) == 1000 by {
      assert Pow10(3) == 1000;
    }
  }

  /** Some digit is left when the value is not zero. */
  lemma TrimZerosOfNonZero(s: string)
    requires AllDigits(s) && DigitsValue(s) > 0
    ensures |TrimZeros(s)| > 0
  {
    TrimZerosValue(s);
  }

  /** JavaScript's toString of `m / 1000` for a count `m >= 0`. */
  function Decimal(m: nat): string
  {
    Rendering(m / 1000, m % 1000)
  }

  /** toString of `whole + frac / 1000`: the whole part, then the fraction, if there is one. */
  function Rendering(whole: nat, frac: nat): string
    requires frac < 1000
  {
    NatDigits(whole) + if frac == 0 then "" else "." + Fraction(frac)
  }

  /** formatRem on the rounded count of thousandths `n`, step by step as the source goes. */
  function FormatThousandths(n: int): string
  {
    var negative := n < 0;
    var str := Decimal(if negative then -n else n) + "rem";
    var trimmed := StripZero(str);
    if negative then "-" + trimmed else trimmed
  }

  /** `/^0\./.test(str) ? str.substring(1) : str` */
  function StripZero(str: string): string
  {
    if |str| >= 2 && str[0] == '0' && str[1] == '.' then str[1..] else str
  }

  /** formatRem. */
  function FormatRem(x: real): string
  {
    FormatThousandths(Thousandths(x))
  }

  // ---------------------------------------------------------------------------------------
  // The properties of the rendering

  /** The absolute value of a count of thousandths. */
  function Magnitude(n: int): (m: nat)
    ensures m == n || m == -n
  {
    if n < 0 then -n else n
  }

  /** The digits formatRem prints for `whole + frac / 1000`, before the unit. */
  function Unsigned(whole: nat, frac: nat): string
    requires frac < 1000
  {
    if frac == 0 then NatDigits(whole)
    else (if whole == 0 then "" else NatDigits(whole)) + "." + Fraction(frac)
  }

  /** A fraction below one is a leading `0` that formatRem drops. */
  predicate BelowOne(whole: nat, frac: nat)
  {
    whole == 0 && frac != 0
  }

  /** The sign, then the unsigned digits, then `rem`: the leading `0` of a fraction is dropped. */
  lemma FormatShape(n: int)
    ensures var m := Magnitude(n);
      FormatThousandths(n) == (if n < 0 then "-" else "") + Unsigned(m / 1000, m % 1000) + "rem"
  {
    var m := Magnitude(n);
    var whole, frac := m / 1000, m % 1000;
    assert Decimal(m) == Rendering(whole, frac);
    RenderingShape(whole, frac);
    UnsignedStart(whole, frac);
    StripLeadingZero(Unsigned(whole, frac), BelowOne(whole, frac));
  }

  /** toString writes a `0` before the point of a fraction below one, which the unsigned digits leave out. */
  lemma RenderingShape(whole: nat, frac: nat)
    requires frac < 1000
    ensures Rendering(whole, frac) == (if BelowOne(whole, frac) then "0" else "") + Unsigned(whole, frac)
  {
    var d := NatDigits(whole);
    if frac != 0 {
      var t := Fraction(frac);
      assert Rendering(whole, frac) == d + ("." + t);
      if whole == 0 {
        assert Unsigned(whole, frac) == "" + "." + t;
      } else {
        assert Unsigned(whole, frac) == d + "." + t;
      }
    } else {
      assert Rendering(whole, frac) == d + "";
    }
  }

  /** The `/^0\./` test fires exactly on the `0` that toString wrote before the point. */
  lemma StripLeadingZero(u: string, lead: bool)
    requires |u| > 0
    requires lead ==> u[0] == '.'
    requires !lead ==> IsDigit(u[0]) && (u[0] == '0' ==> u == "0")
    ensures StripZero((if lead then "0" else "") + u + "rem") == u + "rem"
  {
    var str := (if lead then "0" else "") + u + "rem";
    if lead {
      assert str[1..] == u + "rem";
    } else {
      assert str == u + "rem";
      if u == "0" {
        assert str[1] == 'r';
      } else if |u| >= 2 {
        assert str[0] == u[0];
      }
    }
  }

  /** The unsigned digits start with the point exactly below one, otherwise with a digit that is `0` only for zero. */
  lemma UnsignedStart(whole: nat, frac: nat)
    requires frac < 1000
    ensures var u := Unsigned(whole, frac); |u| > 0
    ensures var u := Unsigned(whole, frac); BelowOne(whole, frac) ==> u[0] == '.'
    ensures var u := Unsigned(whole, frac); !BelowOne(whole, frac) ==> IsDigit(u[0]) && (u[0] == '0' ==> u == "0")
  {
    var d := NatDigits(whole);
    if frac != 0 {
      var t := Fraction(frac);
      var u := Unsigned(whole, frac);
      if whole == 0 {
        assert u == "" + "." + t;
      } else {
        assert u == d + ("." + t);
        assert u[0] == d[0];
        assert d != "0";
      }
    }
  }

  /** The output always ends in `rem`. */
  lemma FormatEndsInRem(n: int)
    ensures var r := FormatThousandths(n); |r| >= 3 && r[|r| - 3..] == "rem"
  {
    FormatShape(n);
    var r := FormatThousandths(n);
    var m := Magnitude(n);
    assert r == ((if n < 0 then "-" else "") + Unsigned(m / 1000, m % 1000)) + "rem";
  }

  /** The output begins with `-` exactly when the rounded value is negative. */
  lemma FormatSign(n: int)
    ensures var r := FormatThousandths(n); |r| > 0 && (r[0] == '-' <==> n < 0)
  {
    FormatShape(n);
    var m := Magnitude(n);
    UnsignedStart(m / 1000, m % 1000);
  }

  /** A value that rounds to zero (or to minus zero) renders as `0rem`. */
  lemma FormatZero()
    ensures FormatThousandths(0) == "0rem"
  {
    FormatShape(0);
    assert NatDigits(0) == "0";
  }

  /** A positive value below one renders without its leading zero, as `.5rem` for a half. */
  lemma FormatDropsLeadingZero(n: int)
    requires 0 < n < 1000 || -1000 < n < 0
    ensures var r := FormatThousandths(n); r[if n < 0 then 1 else 0] == '.'
  {
    FormatShape(n);
  }

  /** Removing trailing zeros keeps the value of a fraction. */
  lemma {:induction false} TrimZerosValue(s: string)
    requires AllDigits(s)
    ensures AllDigits(TrimZeros(s))
    ensures DigitsValue(TrimZeros(s)) as real / Pow10(|TrimZeros(s)|) as real == DigitsValue(s) as real / Pow10(|s|) as real
  {
    if s != [] && s[|s| - 1] == '0' {
      var init := s[..|s| - 1];
      TrimZerosValue(init);
      assert DigitsValue(s) == DigitsValue(init) * 10;
      assert Pow10(|s|) == Pow10(|init|) * 10;
      ScaleFraction(DigitsValue(init) as real, Pow10(|init|) as real);
    }
  }

  lemma ScaleFraction(a: real, b: real)
    requires b > 0.0
    ensures (a * 10.0) / (b * 10.0) == a / b
  {
  }

  /** The value the unsigned digits denote. */
  lemma UnsignedValue(whole: nat, frac: nat)
    requires frac < 1000
    ensures ScanNumeral(Unsigned(whole, frac)) == Some(whole as real + frac as real / 1000.0)
  {
    if frac == 0 {
      ScanWhole(NatDigits(whole));
    } else {
      UnsignedFractionValue(whole, frac);
    }
  }

  lemma UnsignedFractionValue(whole: nat, frac: nat)
    requires 0 < frac < 1000
    ensures ScanNumeral(Unsigned(whole, frac)) == Some(whole as real + frac as real / 1000.0)
  {
    var t := Fraction(frac);
    var d := if whole == 0 then "" else NatDigits(whole);
    assert Unsigned(whole, frac) == d + "." + t;
    assert AllDigits(d) && DigitsValue(d) == whole;
    ScanDecimal(d, t);
    FractionValue(frac);
  }

  /** Parsing the output back with the rem validator gives the rounded value. */
  lemma FormatRoundTrip(n: int)
    requires n >= 0
    ensures ParseRem(FormatThousandths(n)) == Some(n as real / 1000.0)
  {
    var u := RenderedCount(n);
    ParseRemOfRendered(FormatThousandths(n), u, n as real / 1000.0);
  }

  /** The rendering of a count that is not negative: a numeral for `n / 1000`, then `rem`. */
  lemma RenderedCount(n: nat) returns (u: string)
    ensures FormatThousandths(n) == u + "rem"
    ensures IsNumeral(u) && ScanNumeral(u) == Some(n as real / 1000.0)
  {
    var whole, frac := n / 1000, n % 1000;
    u := Unsigned(whole, frac);
    FormatShapeNonNegative(n);
    UnsignedValue(whole, frac);
    CountNumeral(n, whole, frac, u);
  }

  lemma FormatShapeNonNegative(n: nat)
    ensures FormatThousandths(n) == Unsigned(n / 1000, n % 1000) + "rem"
  {
    var u := Unsigned(n / 1000, n % 1000);
    assert FormatThousandths(n) == "" + u + "rem" by {
      assert Magnitude(n) == n;
      FormatShape(n);
    }
    assert "" + u == u;
  }

  lemma ParseRemOfRendered(r: string, u: string, v: real)
    requires r == u + "rem" && IsNumeral(u) && ScanNumeral(u) == Some(v)
    ensures ParseRem(r) == Some(v)
  {
    ParseRemOfNumeral(u);
  }

  lemma CountNumeral(n: nat, whole: nat, frac: nat, u: string)
    requires n == 1000 * whole + frac
    requires ScanNumeral(u) == Some(whole as real + frac as real / 1000.0)
    ensures IsNumeral(u) && ScanNumeral(u) == Some(n as real / 1000.0)
  {
    ThousandthsSplit(n, whole, frac);
    ScanNumeralRecognises(u);
  }

  lemma ThousandthsSplit(n: nat, whole: nat, frac: nat)
    requires n == 1000 * whole + frac
    ensures whole as real + frac as real / 1000.0 == n as real / 1000.0
  {
  }

  /**
   * A negative value is the minus sign before the rendering of its magnitude (which parses
   * back to the magnitude, by FormatRoundTrip).
   */
  lemma FormatNegative(n: int)
    requires n < 0
    ensures FormatThousandths(n) == "-" + FormatThousandths(-n)
  {
  }

  /** formatRem of `x` parses back to x rounded to thousandths, when it is not negative. */
  lemma FormatRemRoundTrip(x: real)
    requires Thousandths(x) >= 0
    ensures ParseRem(FormatRem(x)) == Some(Thousandths(x) as real / 1000.0)
  {
    FormatRoundTrip(Thousandths(x));
  }

  /** Nothing but a significant digit precedes `rem` when there is a fraction: no trailing zeros. */
  lemma FormatNoTrailingZero(n: int)
    requires n % 1000 != 0
    ensures var r := FormatThousandths(n); r[|r| - 4] != '0' && IsDigit(r[|r| - 4])
  {
    var m := Magnitude(n);
    NegateKeepsFraction(n);
    UnsignedNoTrailingZero(m / 1000, m % 1000);
    FormatShape(n);
    var u := Unsigned(m / 1000, m % 1000);
    var r := FormatThousandths(n);
    assert r == ((if n < 0 then "-" else "") + u) + "rem";
    assert r[|r| - 4] == u[|u| - 1];
  }

  lemma NegateKeepsFraction(n: int)
    requires n % 1000 != 0
    ensures (-n) % 1000 != 0
  {
    var q := n / 1000;
    assert n == 1000 * q + n % 1000;
    assert -n == 1000 * (-q - 1) + (1000 - n % 1000);
  }

  /** The unsigned digits of a value with a fraction end in a digit other than zero. */
  lemma UnsignedNoTrailingZero(whole: nat, frac: nat)
    requires 0 < frac < 1000
    ensures var u := Unsigned(whole, frac); |u| > 0 && u[|u| - 1] != '0' && IsDigit(u[|u| - 1])
  {
    var t := Fraction(frac);
    var u := Unsigned(whole, frac);
    assert u == ((if whole == 0 then "" else NatDigits(whole)) + ".") + t;
    assert u[|u| - 1] == t[|t| - 1];
  }

  lemma FractionOfHalf()
    ensures Fraction(500) == "5"
  {
    assert FixedDigits(500, 3) == "500";
    assert TrimZeros("500") == "5";
  }

  lemma FractionOf398()
    ensures Fraction(398) == "398"
  {
    assert FixedDigits(398, 3) == "398";
  }

  /** A count below a thousand renders as its fraction digits after the point. */
  lemma FormatBelowOne(n: nat)
    requires 0 < n < 1000
    ensures FormatThousandths(n) == "." + Fraction(n) + "rem"
  {
    assert n / 1000 == 0 && n % 1000 == n;
    UnsignedBelowOne(n);
    FormatShapeNonNegative(n);
  }

  lemma UnsignedBelowOne(frac: nat)
    requires 0 < frac < 1000
    ensures Unsigned(0, frac) == "." + Fraction(frac)
  {
    assert Unsigned(0, frac) == "" + "." + Fraction(frac);
  }

  /** Half a rem renders as `.5rem`. */
  lemma FormatHalf()
    ensures FormatThousandths(500) == ".5rem"
  {
    FormatBelowOne(500);
    FractionOfHalf();
  }

  /** One rem renders as `1rem`: no fraction, no point. */
  lemma FormatOne()
    ensures FormatThousandths(1000) == "1rem"
  {
    FormatShapeNonNegative(1000);
    assert NatDigits(1) == "1";
  }

  /** One and a half rem renders as `1.5rem`. */
  lemma FormatOneAndAHalf()
    ensures FormatThousandths(1500) == "1.5rem"
  {
    FormatShapeNonNegative(1500);
    assert 1500 / 1000 == 1 && 1500 % 1000 == 500;
    UnsignedOneAndAHalf();
  }

  lemma UnsignedOneAndAHalf()
    ensures Unsigned(1, 500) == "1.5"
  {
    assert NatDigits(1) == "1";
    FractionOfHalf();
  }

  /** 0.398 rem renders as `.398rem`. */
  lemma Format398()
    ensures FormatThousandths(398) == ".398rem"
  {
    FormatBelowOne(398);
    FractionOf398();
  }

  /** Minus 0.397 rem renders as `-.397rem`. */
  lemma FormatMinus397()
    ensures FormatThousandths(-397) == "-.397rem"
  {
    FormatNegativeBelowOne(397);
    FractionOf397();
  }

  lemma FractionOf397()
    ensures Fraction(397) == "397"
  {
    assert FixedDigits(397, 3) == "397";
  }

  /** A negative count above minus a thousand renders as `-.` and its fraction digits, then `rem`. */
  lemma FormatNegativeBelowOne(n: nat)
    requires 0 < n < 1000
    ensures FormatThousandths(-(n as int)) == "-." + Fraction(n) + "rem"
  {
    FormatBelowOne(n);
    FormatNegative(-(n as int));
    SignBeforePoint(Fraction(n));
  }

  lemma SignBeforePoint(digits: string)
    ensures "-" + ("." + digits + "rem") == "-." + digits + "rem"
  {
  }

  /** Minus 0.398 rem renders as `-.398rem`. */
  lemma FormatMinus398()
    ensures FormatThousandths(-398) == "-.398rem"
  {
    FormatNegativeBelowOne(398);
    FractionOf398();
  }
}
