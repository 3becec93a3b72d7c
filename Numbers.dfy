/**
 * Python's `int(text)`, `float(text)` and `str(n)` on the inputs the
 * account validators see: an optional sign followed by ASCII decimal digits,
 * with an optional decimal point for `float`.
 */
module Numbers {
  import opened Wrappers

  function Pow10(k: nat): (p: nat)
    ensures p >= 1
  {
    if k == 0 then 1 else 10 * Pow10(k - 1)
  }

  predicate IsDigit(c: char) {
    '0' <= c <= '9'
  }

  predicate AllDigits(s: string) {
    forall i :: 0 <= i < |s| ==> IsDigit(s[i])
  }

  function DigitValue(c: char): (d: nat)
    requires IsDigit(c)
    ensures d < 10
  {
    c as int - '0' as int
  }

  function DigitChar(d: nat): (c: char)
    requires d < 10
    ensures IsDigit(c) && DigitValue(c) == d
  {
    ('0' as int + d) as char
  }

  /** The number a string of decimal digits denotes, most significant digit first. */
  function DigitsValue(s: string): nat
    requires AllDigits(s)
  {
    if s == [] then 0 else 10 * DigitsValue(s[..|s| - 1]) + DigitValue(s[|s| - 1])
  }

  /** The part of a numeral after its optional sign. */
  function Unsigned(s: string): (d: string)
    ensures |d| <= |s|
  {
    if s != [] && (s[0] == '+' || s[0] == '-') then s[1..] else s
  }

  /** Python's `int(s)` for `[+-]digits`; `None` where Python raises `ValueError`.
      The digits after the sign give the magnitude, and only a minus sign makes
      the value negative. */
  function ParseInt(s: string): (r: Option<int>)
    ensures r.Some? <==> Unsigned(s) != [] && AllDigits(Unsigned(s))
    ensures r.Some? ==> (if r.value < 0 then -r.value else r.value) == DigitsValue(Unsigned(s))
    ensures r.Some? && r.value < 0 ==> s[0] == '-'
    ensures r.Some? && s[0] == '-' ==> r.value == -(DigitsValue(s[1..]) as int)
  {
    if s != [] && (s[0] == '+' || s[0] == '-') then
      match ParseNatural(s[1..])
      case None => None
      case Some(n) =>
        var signed: int := if s[0] == '-' then -(n as int) else n;
        Some(signed)
    else
      match ParseNatural(s)
      case None => None
      case Some(n) => Some(n as int)
  }

  function ParseNatural(s: string): (r: Option<nat>)
    ensures r.Some? <==> s != [] && AllDigits(s)
  {
    if s != [] && AllDigits(s) then Some(DigitsValue(s)) else None
  }

  /** Index of the first '.' in `s`, or `|s|` when there is none. */
  function PointIndex(s: string): (k: nat)
    ensures k <= |s|
    ensures forall i :: 0 <= i < k ==> s[i] != '.'
    ensures k < |s| ==> s[k] == '.'
  {
    if s == [] then 0
    else if s[0] == '.' then 0
    else 1 + PointIndex(s[1..])
  }

  /** Python's `float(s)` for `[+-]digits`, `[+-]digits.digits`, `[+-]digits.` and
      `[+-].digits`; `None` where Python raises `ValueError`. */
  function ParseReal(s: string): (r: Option<real>)
    ensures r.Some? <==> ParseUnsignedReal(Unsigned(s)).Some?
    ensures r.Some? ==> ParseUnsignedReal(Unsigned(s)) == Some(if r.value < 0.0 then -r.value else r.value)
    ensures r.Some? && r.value < 0.0 ==> s[0] == '-'
    ensures r.Some? && s[0] == '-' ==> r.value == -ParseUnsignedReal(s[1..]).value
  {
    if s != [] && (s[0] == '+' || s[0] == '-') then
      match ParseUnsignedReal(s[1..])
      case None => None
      case Some(x) => Some(if s[0] == '-' then -x else x)
    else
      ParseUnsignedReal(s)
  }

  function ParseUnsignedReal(s: string): (r: Option<real>)
    ensures r.Some? ==> r.value >= 0.0
  {
    var k := PointIndex(s);
    if k == |s| then
      if s != [] && AllDigits(s) then Some(DigitsValue(s) as real) else None
    else
      var whole, fraction := s[..k], s[k + 1..];
      if AllDigits(whole) && AllDigits(fraction) && |whole| + |fraction| > 0 then
        Some(DigitsValue(whole) as real + DigitsValue(fraction) as real / Pow10(|fraction|) as real)
      else
        None
  }

  /** Python's `str(n)` for a natural number: its shortest decimal numeral. */
  function NatText(n: nat): (s: string)
    ensures s != [] && AllDigits(s)
    ensures s[0] == '0' <==> n == 0
  {
    if n < 10 then [DigitChar(n)] else NatText(n / 10) + [DigitChar(n % 10)]
  }

  /** Python's `str(n)` for an integer. */
  function IntText(n: int): (s: string)
    ensures s != []
    ensures s[0] == '-' <==> n < 0
    ensures var digits := if n < 0 then s[1..] else s;
      digits != [] && AllDigits(digits) && (digits[0] == '0' <==> n == 0)
  {
    if n < 0 then "-" + NatText(-n) else NatText(n)
  }

  // ---------------------------------------------------------------- lemmas

  /** `str` and `int` are inverse: `int(str(n)) == n`. */
  lemma {:induction false} ParseIntText(n: int)
    ensures ParseInt(IntText(n)) == Some(n)
  {
    var m: nat := if n < 0 then -n else n;
    NatTextValue(m);
    if n < 0 {
      assert IntText(n)[1..] == NatText(m);
    }
  }

  lemma {:induction false} NatTextValue(n: nat)
    ensures DigitsValue(NatText(n)) == n
  {
    var s := NatText(n);
    if n >= 10 {
      NatTextValue(n / 10);
      assert s[..|s| - 1] == NatText(n / 10);
    }
  }

  /** `str(n)` has at most `k` characters exactly when `n < 10^k` (for `k >= 1`). */
  lemma {:induction false} NatTextLength(n: nat, k: nat)
    requires k >= 1
    ensures |NatText(n)| <= k <==> n < Pow10(k)
  {
    if n >= 10 {
      if k == 1 {
        NatTextAtLeastTwo(n);
      } else {
        NatTextLength(n / 10, k - 1);
      }
    }
  }

  lemma NatTextAtLeastTwo(n: nat)
    requires n >= 10
    ensures |NatText(n)| >= 2
  {
  }

  /** The integers whose decimal text is exactly 12 characters long and that are
      positive are the twelve-digit numbers. */
  lemma TwelveDigitText(n: int)
    ensures (n > 0 && |IntText(n)| == 12) <==> Pow10(11) <= n < Pow10(12)
  {
    if n > 0 {
      NatTextLength(n, 11);
      NatTextLength(n, 12);
    }
  }

  lemma {:induction false} DigitsValueBound(s: string)
    requires AllDigits(s)
    ensures DigitsValue(s) < Pow10(|s|)
  {
    if s != [] {
      DigitsValueBound(s[..|s| - 1]);
    }
  }

  /** Reading a numeral from its first digit: `d s' = d * 10^|s'| + s'`. */
  lemma {:induction false} DigitsValueFront(s: string)
    requires AllDigits(s) && s != []
    ensures DigitsValue(s) == DigitValue(s[0]) * Pow10(|s| - 1) + DigitsValue(s[1..])
  {
    if |s| > 1 {
      var init, tail := s[..|s| - 1], s[1..];
      DigitsValueFront(init);
      assert init[0] == s[0];
      assert tail[..|tail| - 1] == init[1..] && tail[|tail| - 1] == s[|s| - 1];
      ShiftDigit(DigitsValue(s), DigitsValue(init), DigitsValue(tail), DigitValue(s[0]), Pow10(|s| - 2),
                 Pow10(|s| - 1), DigitsValue(init[1..]), DigitValue(s[|s| - 1]));
    } else {
      assert s[..|s| - 1] == [];
    }
  }

  /** The arithmetic step of `DigitsValueFront`. */
  lemma ShiftDigit(whole: int, init: int, tail: int, d: int, p: int, p1: int, x: int, e: int)
    requires whole == 10 * init + e && init == d * p + x && tail == 10 * x + e && p1 == 10 * p
    ensures whole == d * p1 + tail
  {
  }

  /** A numeral denotes a positive number exactly when one of its digits is not '0'. */
  lemma {:induction false} DigitsValuePositive(s: string)
    requires AllDigits(s)
    ensures DigitsValue(s) > 0 <==> exists i :: 0 <= i < |s| && s[i] != '0'
  {
    if s != [] {
      var init := s[..|s| - 1];
      DigitsValuePositive(init);
      if DigitsValue(init) > 0 {
        var i :| 0 <= i < |init| && init[i] != '0';
        assert s[i] != '0';
      }
      if s[|s| - 1] == '0' && DigitsValue(init) == 0 {
        forall i | 0 <= i < |s|
          ensures s[i] == '0'
        {
          if i < |s| - 1 {
            assert s[i] == init[i];
          }
        }
      }
    }
  }

  /** A twelve-character numeral reaches `10^11` exactly when it does not start with '0'. */
  lemma LeadingDigitMagnitude(s: string)
    requires AllDigits(s) && |s| == 12
    ensures DigitsValue(s) >= Pow10(11) <==> s[0] != '0'
  {
    DigitsValueFront(s);
    DigitsValueBound(s[1..]);
    if s[0] != '0' {
      assert DigitValue(s[0]) >= 1;
      assert DigitValue(s[0]) * Pow10(11) >= Pow10(11);
    }
  }

  /** `str(int(s)) == s` for a numeral without leading zeros. */
  lemma {:induction false} CanonicalNumeralText(s: string)
    requires AllDigits(s) && s != [] && (s[0] != '0' || |s| == 1)
    ensures NatText(DigitsValue(s)) == s
  {
    var last := s[|s| - 1];
    if |s| == 1 {
      assert s == [last];
    } else {
      var init := s[..|s| - 1];
      CanonicalNumeralText(init);
      DigitsValuePositive(init);
      assert init[0] != '0';
      var m := DigitsValue(init);
      var n := 10 * m + DigitValue(last);
      assert n / 10 == m && n % 10 == DigitValue(last);
      assert s == init + [last];
    }
  }

  /** `float(s)` agrees with `int(s)` wherever `int(s)` succeeds. */
  lemma ParseRealExtendsParseInt(s: string)
    requires ParseInt(s).Some?
    ensures ParseReal(s) == Some(ParseInt(s).value as real)
  {
    if s != [] && (s[0] == '+' || s[0] == '-') {
      NoPointInDigits(s[1..]);
    } else {
      NoPointInDigits(s);
    }
  }

  lemma NoPointInDigits(s: string)
    requires AllDigits(s)
    ensures PointIndex(s) == |s|
  {
    if PointIndex(s) < |s| {
      assert s[PointIndex(s)] == '.';
    }
  }
}
