/**
 * The pieces of printf-style rendering that the logger relies on:
 * `%d` for source lines and rotation ids, and `%06lld` for the
 * microsecond field of a record header.  Each rendering comes with a
 * parser, and the round trip is proved.
 */
module Printf {
  import opened Wrappers

  /** The character for a decimal digit. */
  function DigitChar(d: nat): (c: char)
    requires d < 10
    ensures '0' <= c <= '9'
  {
    ('0' as int + d) as char
  }

  /** The value of a decimal digit character. */
  function DigitValue(c: char): (d: nat)
    requires '0' <= c <= '9'
    ensures d < 10
  {
    c as int - '0' as int
  }

  predicate IsDigits(s: string)
  {
    forall i :: 0 <= i < |s| ==> '0' <= s[i] <= '9'
  }

  function Pow10(k: nat): (p: nat)
    ensures p >= 1
  {
    if k == 0 then 1 else 10 * Pow10(k - 1)
  }

  /** `%u`: the digits of a natural number, most significant first, without leading zeros. */
  function NatDigits(n: nat): (s: string)
    ensures 1 <= |s| && IsDigits(s)
    ensures |s| > 1 ==> s[0] != '0'
  {
    if n < 10 then [DigitChar(n)] else NatDigits(n / 10) + [DigitChar(n % 10)]
  }

  /** `%d`: an optional minus sign followed by the digits of the magnitude. */
  function Decimal(n: int): (s: string)
    ensures 1 <= |s|
    ensures forall i :: 0 <= i < |s| ==> s[i] == '-' || '0' <= s[i] <= '9'
  {
    if n < 0 then "-" + NatDigits(-n) else NatDigits(n)
  }

  /** `%0<w>u`: the digits of `s`, padded on the left with zeros to width `w`. */
  function ZeroPad(s: string, w: nat): (r: string)
    ensures |r| == if |s| < w then w else |s|
  {
    if |s| < w then seq(w - |s|, _ => '0') + s else s
  }

  /** The value of a run of decimal digits (the empty run is zero). */
  function ParseNat(s: string): nat
    requires IsDigits(s)
  {
    if s == [] then 0 else ParseNat(s[..|s| - 1]) * 10 + DigitValue(s[|s| - 1])
  }

  /** Reads back what `%d` writes; anything else is rejected. */
  function ParseDecimal(s: string): Option<int>
  {
    if |s| > 1 && s[0] == '-' && IsDigits(s[1..]) then Some(0 - (ParseNat(s[1..]) as int))
    else if |s| >= 1 && IsDigits(s) then Some(ParseNat(s))
    else None
  }

  lemma {:induction false} ParseNatDigits(n: nat)
    ensures ParseNat(NatDigits(n)) == n
  {
    if n >= 10 {
      var s := NatDigits(n);
      assert s[..|s| - 1] == NatDigits(n / 10);
      ParseNatDigits(n / 10);
    }
  }

  /** `%d` loses nothing: the rendering of every integer parses back to it. */
  lemma DecimalRoundTrip(n: int)
    ensures ParseDecimal(Decimal(n)) == Some(n)
  {
    var s := Decimal(n);
    if n < 0 {
      var d := NatDigits(-n);
      assert s == "-" + d;
      assert s[1..] == d;
      ParseNatDigits(-n);
      assert ParseDecimal(s) == Some(0 - (ParseNat(d) as int));
    } else {
      assert s == NatDigits(n);
      assert s[0] != '-' && IsDigits(s);
      assert ParseDecimal(s) == Some(ParseNat(s));
      ParseNatDigits(n);
    }
  }

  /** Leading zeros do not change the value of a run of digits. */
  lemma {:induction false} ParseNatLeadingZeros(k: nat, s: string)
    requires IsDigits(s)
    ensures IsDigits(seq(k, _ => '0') + s)
    ensures ParseNat(seq(k, _ => '0') + s) == ParseNat(s)
  {
    var z := seq(k, _ => '0');
    assert IsDigits(z + s) by {
      forall i | 0 <= i < |z + s| ensures '0' <= (z + s)[i] <= '9' {
        if i >= k { assert (z + s)[i] == s[i - k]; }
      }
    }
    if s == [] {
      assert z + s == z;
      ParseNatZeros(k);
    } else {
      var t := s[..|s| - 1];
      assert (z + s)[..|z + s| - 1] == z + t;
      ParseNatLeadingZeros(k, t);
    }
  }

  lemma {:induction false} ParseNatZeros(k: nat)
    ensures IsDigits(seq(k, _ => '0'))
    ensures ParseNat(seq(k, _ => '0')) == 0
  {
    if k > 0 {
      var z := seq(k, _ => '0');
      assert z[..k - 1] == seq(k - 1, _ => '0');
      ParseNatZeros(k - 1);
    }
  }

  /** A number below 10^k has at most k digits. */
  lemma {:induction false} NatDigitsLength(n: nat, k: nat)
    requires 1 <= k && n < Pow10(k)
    ensures |NatDigits(n)| <= k
  {
    if n >= 10 {
      NatDigitsLength(n / 10, k - 1);
    }
  }

  /**
   * C's `%` on integers: the remainder truncates toward zero, so it has
   * the sign of the dividend.  On a non-negative dividend it is the
   * ordinary remainder, and it is smaller than the divisor in magnitude.
   */
  function CRem(a: int, b: nat): (r: int)
    requires b > 0
    ensures -(b as int) < r < b
    ensures (a >= 0 ==> r >= 0) && (a <= 0 ==> r <= 0)
    ensures a >= 0 ==> r == a % b
  {
    if a >= 0 then a % b else 0 - (-a) % b
  }

  /** Negating the dividend negates the C remainder. */
  lemma CRemOdd(a: int, b: nat)
    requires b > 0
    ensures CRem(-a, b) == -CRem(a, b)
  {
    if a == 0 {
      assert CRem(0, b) == 0;
    }
  }

  /**
   * `%0<w>lld`: a minus sign for a negative value, then the magnitude's
   * digits padded on the left with zeros so that the whole field,
   * sign included, is at least `w` characters.
   */
  function PadSigned(v: int, w: nat): string
    requires w >= 1
  {
    if v < 0 then "-" + ZeroPad(NatDigits(-v), w - 1) else ZeroPad(NatDigits(v), w)
  }

  /** Zero padding keeps a run of digits a run of digits with the same value. */
  lemma ZeroPadDigits(s: string, w: nat)
    requires IsDigits(s)
    ensures IsDigits(ZeroPad(s, w)) && ParseNat(ZeroPad(s, w)) == ParseNat(s)
  {
    if |s| < w {
      ParseNatLeadingZeros(w - |s|, s);
    }
  }

  /** `%0<w>lld` loses nothing: the field of every integer is at least `w` wide and parses back to it. */
  lemma PadSignedRoundTrip(v: int, w: nat)
    requires w >= 1
    ensures |PadSigned(v, w)| >= w
    ensures ParseDecimal(PadSigned(v, w)) == Some(v)
  {
    if v < 0 {
      NegativeField(-v, w);
    } else {
      var f := ZeroPad(NatDigits(v), w);
      ZeroPadDigits(NatDigits(v), w);
      ParseNatDigits(v);
      assert ParseNat(f) == v;
      assert f[0] != '-';
      assert ParseDecimal(f) == Some(ParseNat(f));
    }
  }

  /** The field of a negative value: a minus sign, then padded digits of the magnitude. */
  lemma NegativeField(n: nat, w: nat)
    requires n > 0 && w >= 1
    ensures |PadSigned(0 - n, w)| >= w
    ensures ParseDecimal(PadSigned(0 - n, w)) == Some(0 - n)
  {
    var d := NatDigits(n);
    var z := ZeroPad(d, w - 1);
    ZeroPadDigits(d, w - 1);
    ParseNatDigits(n);
    assert ParseNat(z) == n;
    var f := PadSigned(0 - n, w);
    assert f == "-" + z;
    assert f[1..] == z;
    assert |f| > 1 && f[0] == '-' && IsDigits(f[1..]);
  }

  /**
   * The microsecond field of a header, `%06lld` of a C remainder by one
   * million: exactly six digits for a clock at or after the epoch, and a
   * minus sign followed by five or six digits before it.
   */
  lemma MicrosFieldWidth(v: int)
    requires -1000000 < v < 1000000
    ensures v >= 0 ==> |PadSigned(v, 6)| == 6 && IsDigits(PadSigned(v, 6))
    ensures v < 0 ==> 6 <= |PadSigned(v, 6)| <= 7 && PadSigned(v, 6)[0] == '-'
  {
    assert Pow10(6) == 1000000;
    if v >= 0 {
      NatDigitsLength(v, 6);
      ZeroPadDigits(NatDigits(v), 6);
    } else {
      NatDigitsLength(-v, 6);
    }
  }

  /** A clock 42 microseconds before the epoch gives the field `-00042`. */
  lemma BeforeEpochField()
    ensures CRem(-42, 1000000) == -42
    ensures PadSigned(CRem(-42, 1000000), 6) == "-00042"
  {
    assert NatDigits(42) == "42";
    assert ZeroPad("42", 5) == "000" + "42";
  }
}
