/**
 * The field validators of `BankAccount`, `SavingsAccount` and `CheckingAccount`.
 * Each one takes the value handed to a constructor or setter and either returns
 * the normalised value to store or fails with that field's error: every inner
 * `raise` of a validator is caught by its own `except` and re-raised as that
 * field's `ValueError` (whose text may embed the inner message), so the model
 * keeps one error per field.
 */
module Validation {
  import opened Wrappers
  import opened Text
  import opened Numbers

  /** A Python value as it reaches a validator: text typed at the menu, or a
      JSON string or number read back from the accounts file. */
  datatype Value = Str(s: string) | Int(n: int) | Float(x: real)

  datatype FieldError =
    | BadAccountNumber
    | BadBalance
    | BadHolder
    | BadCurrency
    | BadStatus
    | BadWithdrawalLimit
    | BadInterestRate
    | BadMonthlyFee

  const Currencies: set<string> := {"pesos", "dolares", "euros", "guaranies"}
  const Statuses: set<string> := {"active", "inactive"}
  const MaxMonthlyFee: real := 20.0

  /** Python's `float(v)`; `None` where it raises `ValueError`. A JSON number
      always converts to itself, and the text of an integer converts to that
      integer. */
  function ToFloat(v: Value): (r: Option<real>)
    ensures v.Int? ==> r == Some(v.n as real)
    ensures v.Float? ==> r == Some(v.x)
    ensures v.Str? && ParseInt(v.s).Some? ==> r == Some(ParseInt(v.s).value as real)
  {
    match v
    case Str(s) =>
      if ParseInt(s).Some? then ParseRealExtendsParseInt(s); ParseReal(s) else ParseReal(s)
    case Int(n) => Some(n as real)
    case Float(x) => Some(x)
  }

  // ------------------------------------------------------------ account number

  /** `validateAccountNumber`: `int(v)`, then the length of `str(v)` (the text as
      given, not the parsed number), then positivity. */
  function ValidateAccountNumber(v: Value): (r: Result<int, FieldError>)
    ensures r.Success? ==> 0 < r.value < Pow10(12)
    ensures r.Failure? ==> r.error == BadAccountNumber
    ensures v.Int? ==> (r.Success? <==> Pow10(11) <= v.n < Pow10(12))
    ensures v.Int? && r.Success? ==> r.value == v.n
  {
    match v
    case Str(s) =>
      (match ParseInt(s)
       case None => Failure(BadAccountNumber)
       case Some(n) =>
         if |s| != 12 then Failure(BadAccountNumber)
         else if n <= 0 then Failure(BadAccountNumber)
         else ParseIntBound(s); Success(n))
    case Int(n) =>
      TwelveDigitText(n);
      if |IntText(n)| != 12 then Failure(BadAccountNumber)
      else if n <= 0 then Failure(BadAccountNumber)
      else Success(n)
    case Float(_) => Failure(BadAccountNumber)
  }

  lemma ParseIntBound(s: string)
    requires ParseInt(s).Some?
    ensures ParseInt(s).value < Pow10(|s|)
  {
    if s != [] && (s[0] == '+' || s[0] == '-') {
      DigitsValueBound(s[1..]);
    } else {
      DigitsValueBound(s);
    }
  }

  /** The account-number texts that are accepted, described by their shape:
      twelve characters, all digits or a '+' and eleven digits, not all zero. */
  predicate AccountNumberShape(s: string) {
    && |s| == 12
    && (AllDigits(s) || (s[0] == '+' && AllDigits(s[1..])))
    && HasNonZeroDigit(s)
  }

  predicate HasNonZeroDigit(s: string) {
    exists i :: 0 <= i < |s| && '1' <= s[i] <= '9'
  }

  lemma NonZeroDigitValue(s: string)
    requires AllDigits(s)
    ensures HasNonZeroDigit(s) <==> DigitsValue(s) > 0
  {
    DigitsValuePositive(s);
    if DigitsValue(s) > 0 {
      var i :| 0 <= i < |s| && s[i] != '0';
      assert '1' <= s[i] <= '9';
    }
  }

  lemma NonZeroDigitAfterSign(s: string)
    requires s != [] && !('1' <= s[0] <= '9')
    ensures HasNonZeroDigit(s) <==> HasNonZeroDigit(s[1..])
  {
    var t := s[1..];
    if HasNonZeroDigit(s) {
      var i :| 0 <= i < |s| && '1' <= s[i] <= '9';
      assert '1' <= t[i - 1] <= '9';
    }
    if HasNonZeroDigit(t) {
      var i :| 0 <= i < |t| && '1' <= t[i] <= '9';
      assert '1' <= s[i + 1] <= '9';
    }
  }

  lemma AccountNumberTextAccepted(s: string)
    ensures ValidateAccountNumber(Str(s)).Success? <==> AccountNumberShape(s)
  {
    if |s| == 12 {
      if s[0] == '+' || s[0] == '-' {
        assert !AllDigits(s) by { assert !IsDigit(s[0]); }
        SignedAccountNumberText(s);
        if AllDigits(s[1..]) {
          NonZeroDigitValue(s[1..]);
          NonZeroDigitAfterSign(s);
        }
      } else {
        UnsignedAccountNumberText(s);
        if AllDigits(s) {
          NonZeroDigitValue(s);
        }
      }
    }
  }

  lemma SignedAccountNumberText(s: string)
    requires |s| == 12 && (s[0] == '+' || s[0] == '-')
    ensures ValidateAccountNumber(Str(s)).Success? <==>
      s[0] == '+' && AllDigits(s[1..]) && DigitsValue(s[1..]) > 0
    ensures ValidateAccountNumber(Str(s)).Success? ==> ValidateAccountNumber(Str(s)).value == DigitsValue(s[1..])
  {
  }

  lemma UnsignedAccountNumberText(s: string)
    requires |s| == 12 && s[0] != '+' && s[0] != '-'
    ensures ValidateAccountNumber(Str(s)).Success? <==> AllDigits(s) && DigitsValue(s) > 0
    ensures ValidateAccountNumber(Str(s)).Success? ==> ValidateAccountNumber(Str(s)).value == DigitsValue(s)
  {
  }

  /** The number stored for an accepted text has twelve digits exactly when the
      text starts with a non-zero digit: "012345678901" and "+12345678901" are
      accepted and stored as eleven-digit numbers. */
  lemma StoredAccountNumberDigits(s: string)
    requires ValidateAccountNumber(Str(s)).Success?
    ensures var n := ValidateAccountNumber(Str(s)).value;
            |IntText(n)| == 12 <==> '1' <= s[0] <= '9'
  {
    var n := ValidateAccountNumber(Str(s)).value;
    TwelveDigitText(n);
    AccountNumberTextAccepted(s);
    if s[0] == '+' || s[0] == '-' {
      SignedAccountNumberText(s);
      DigitsValueBound(s[1..]);
    } else {
      UnsignedAccountNumberText(s);
      LeadingDigitMagnitude(s);
    }
  }

  /** An accepted text is exactly the text of the stored number (the key the
      account is filed under) when, and only when, it starts with a non-zero digit. */
  lemma StoredUnderTypedText(s: string)
    requires ValidateAccountNumber(Str(s)).Success?
    ensures IntText(ValidateAccountNumber(Str(s)).value) == s <==> '1' <= s[0] <= '9'
  {
    StoredAccountNumberDigits(s);
    if '1' <= s[0] <= '9' {
      assert AllDigits(s) by { AccountNumberTextAccepted(s); }
      CanonicalNumeralText(s);
    }
  }

  // ------------------------------------------------------------ balance

  /** `validateBalance`: `float(v)`, which must not be negative. */
  function ValidateBalance(v: Value): (r: Result<real, FieldError>)
    ensures r.Success? <==> ToFloat(v).Some? && ToFloat(v).value >= 0.0
    ensures r.Success? ==> r.value == ToFloat(v).value
    ensures r.Failure? ==> r.error == BadBalance
  {
    match ToFloat(v)
    case None => Failure(BadBalance)
    case Some(x) => if x < 0.0 then Failure(BadBalance) else Success(x)
  }

  // ------------------------------------------------------------ holder

  /** A holder name: some character that is not a space, and every character a
      space or a letter. */
  predicate IsHolderName(h: string) {
    && (exists i :: 0 <= i < |h| && h[i] != ' ')
    && (forall i :: 0 <= i < |h| ==> h[i] == ' ' || IsLetter(h[i]))
  }

  /** `validateHolder`: rejects a falsy holder and one that is not alphabetic once
      its spaces are removed; an accepted holder is returned unchanged. */
  function ValidateHolder(v: Value): (r: Result<string, FieldError>)
    ensures r.Success? <==> v.Str? && IsHolderName(v.s)
    ensures r.Success? ==> r.value == v.s
    ensures r.Failure? ==> r.error == BadHolder
  {
    match v
    case Str(h) =>
      HolderNameCheck(h);
      if h == "" || !IsAlpha(RemoveSpaces(h)) then Failure(BadHolder) else Success(h)
    case _ => Failure(BadHolder)
  }

  lemma HolderNameCheck(h: string)
    ensures (h != "" && IsAlpha(RemoveSpaces(h))) <==> IsHolderName(h)
  {
    var t := RemoveSpaces(h);
    RemoveSpacesContents(h);
    if IsHolderName(h) {
      var i :| 0 <= i < |h| && h[i] != ' ';
      assert h[i] in t;
      forall j | 0 <= j < |t|
        ensures IsLetter(t[j])
      {
        assert t[j] in h;
      }
    }
    if h != "" && IsAlpha(t) {
      assert t[0] in h;
      forall i | 0 <= i < |h|
        ensures h[i] == ' ' || IsLetter(h[i])
      {
        if h[i] != ' ' {
          assert h[i] in t;
        }
      }
    }
  }

  // ------------------------------------------------------------ currency and status

  /** Lower-cases a string value and checks it against a fixed list of names. */
  function ValidateChoice(v: Value, names: set<string>, error: FieldError): (r: Result<string, FieldError>)
    ensures r.Success? <==> v.Str? && Lower(v.s) in names
    ensures r.Success? ==> r.value == Lower(v.s)
    ensures r.Failure? ==> r.error == error
  {
    match v
    case Str(s) => if Lower(s) in names then Success(Lower(s)) else Failure(error)
    case _ => Failure(error)
  }

  /** `validateCurrency`. */
  function ValidateCurrency(v: Value): (r: Result<string, FieldError>)
    ensures r.Success? ==> r.value in Currencies && Lower(r.value) == r.value
    ensures r.Failure? ==> r.error == BadCurrency
  {
    var r := ValidateChoice(v, Currencies, BadCurrency);
    if r.Success? then LowerIdempotent(v.s); r else r
  }

  /** `validateStatus`. */
  function ValidateStatus(v: Value): (r: Result<string, FieldError>)
    ensures r.Success? ==> r.value in Statuses && Lower(r.value) == r.value
    ensures r.Failure? ==> r.error == BadStatus
  {
    var r := ValidateChoice(v, Statuses, BadStatus);
    if r.Success? then LowerIdempotent(v.s); r else r
  }

  /** The accepted names are lower-case ASCII words. */
  lemma NamesAreLowerCase(w: string)
    requires w in Currencies || w in Statuses
    ensures LowerAsciiWord(w)
  {
  }

  /** A lower-case ASCII word is its own lower-cased form. */
  lemma LowerWordFixed(w: string)
    requires LowerAsciiWord(w)
    ensures Lower(w) == w
  {
    LowerMatchesWord(w, w);
  }

  /** `s` spells `w` up to the case of its ASCII letters. */
  predicate SameIgnoringCase(s: string, w: string) {
    |s| == |w| && forall i :: 0 <= i < |s| ==> s[i] == w[i] || s[i] as int == w[i] as int - 32
  }

  predicate LowerAsciiWord(w: string) {
    forall i :: 0 <= i < |w| ==> 'a' <= w[i] <= 'z'
  }

  /** Lower-casing yields an ASCII word exactly when the text is that word written
      in any mixture of upper and lower case. */
  lemma LowerMatchesWord(s: string, w: string)
    requires LowerAsciiWord(w)
    ensures Lower(s) == w <==> SameIgnoringCase(s, w)
  {
    if Lower(s) == w {
      forall i | 0 <= i < |s|
        ensures s[i] == w[i] || s[i] as int == w[i] as int - 32
      {
        LowerAt(s, i);
      }
    }
    if SameIgnoringCase(s, w) {
      forall i | 0 <= i < |s|
        ensures Lower(s)[i] == w[i]
      {
        LowerAt(s, i);
      }
    }
  }

  /** Matching against a list of lower-case ASCII names ignores case. */
  lemma {:induction false} ChoiceCaseInsensitive(s: string, names: set<string>, error: FieldError)
    requires forall w :: w in names ==> LowerAsciiWord(w)
    ensures ValidateChoice(Str(s), names, error).Success? <==> exists w :: w in names && SameIgnoringCase(s, w)
  {
    if Lower(s) in names {
      LowerMatchesWord(s, Lower(s));
    }
    if exists w :: w in names && SameIgnoringCase(s, w) {
      var w :| w in names && SameIgnoringCase(s, w);
      LowerMatchesWord(s, w);
    }
  }

  /** Currency matching is case-insensitive: a text is accepted exactly when it
      spells one of the four currency names in any case. */
  lemma CurrencyCaseInsensitive(s: string)
    ensures ValidateCurrency(Str(s)).Success? <==> exists w :: w in Currencies && SameIgnoringCase(s, w)
  {
    forall w | w in Currencies
      ensures LowerAsciiWord(w)
    {
      NamesAreLowerCase(w);
    }
    ChoiceCaseInsensitive(s, Currencies, BadCurrency);
  }

  /** Status matching is case-insensitive in the same way. */
  lemma StatusCaseInsensitive(s: string)
    ensures ValidateStatus(Str(s)).Success? <==> exists w :: w in Statuses && SameIgnoringCase(s, w)
  {
    forall w | w in Statuses
      ensures LowerAsciiWord(w)
    {
      NamesAreLowerCase(w);
    }
    ChoiceCaseInsensitive(s, Statuses, BadStatus);
  }

  // ------------------------------------------------------------ savings extras

  /** `validateWithdrawalLimit` as written: after the sign check it compares the
      account's currency with the capitalised names "Pesos", "Dolares", "Euros"
      and "Guaranies". */
  function ValidateWithdrawalLimit(currency: string, v: Value): (r: Result<real, FieldError>)
    ensures r.Success? ==> ToFloat(v) == Some(r.value) && r.value >= 0.0
    ensures r.Failure? ==> r.error == BadWithdrawalLimit
  {
    match ToFloat(v)
    case None => Failure(BadWithdrawalLimit)
    case Some(x) =>
      if x < 0.0 then Failure(BadWithdrawalLimit)
      else if currency == "Pesos" then
        if 80000.0 <= x <= 170000.0 then Success(x) else Failure(BadWithdrawalLimit)
      else if currency == "Dolares" then
        if 200.0 <= x <= 300.0 then Success(x) else Failure(BadWithdrawalLimit)
      else if currency == "Euros" then
        if 200.0 <= x <= 300.0 then Success(x) else Failure(BadWithdrawalLimit)
      else if currency == "Guaranies" then
        if 150000000.0 <= x <= 280000000.0 then Success(x) else Failure(BadWithdrawalLimit)
      else Success(x)
  }

  /** `validateInterestRate` as written, with the same capitalised comparisons. */
  function ValidateInterestRate(currency: string, v: Value): (r: Result<real, FieldError>)
    ensures r.Success? ==> ToFloat(v) == Some(r.value) && r.value >= 0.0
    ensures r.Failure? ==> r.error == BadInterestRate
  {
    match ToFloat(v)
    case None => Failure(BadInterestRate)
    case Some(x) =>
      if x < 0.0 then Failure(BadInterestRate)
      else if currency == "Pesos" then
        if 30.0 <= x <= 35.0 then Success(x) else Failure(BadInterestRate)
      else if currency == "Dolares" then
        if 20.0 <= x <= 25.0 then Success(x) else Failure(BadInterestRate)
      else if currency == "Euros" then
        if 20.0 <= x <= 30.0 then Success(x) else Failure(BadInterestRate)
      else if currency == "Guaranies" then
        if 30.0 <= x <= 35.0 then Success(x) else Failure(BadInterestRate)
      else Success(x)
  }

  /** None of the capitalised names survives lower-casing. */
  lemma NotCapitalisedName(currency: string)
    requires Lower(currency) == currency
    ensures currency != "Pesos" && currency != "Dolares" && currency != "Euros" && currency != "Guaranies"
  {
    if |currency| > 0 {
      LowerKeepsNonUpper(currency, 0);
    }
  }

  /** The currency-dependent ranges are dead code: for a lower-case currency, the
      only one an account can hold, every non-negative withdrawal limit and
      interest rate is accepted and only a negative or non-numeric one fails. */
  lemma {:induction false} RangeChecksUnreachable(currency: string, v: Value)
    requires Lower(currency) == currency
    ensures ValidateWithdrawalLimit(currency, v).Success? <==> ToFloat(v).Some? && ToFloat(v).value >= 0.0
    ensures ValidateInterestRate(currency, v).Success? <==> ToFloat(v).Some? && ToFloat(v).value >= 0.0
  {
    NotCapitalisedName(currency);
  }

  // ------------------------------------------------------------ checking extra

  /** `validateMonthlyFee`: `float(v)` within [0, 20], both bounds included. */
  function ValidateMonthlyFee(v: Value): (r: Result<real, FieldError>)
    ensures r.Success? <==> ToFloat(v).Some? && 0.0 <= ToFloat(v).value <= MaxMonthlyFee
    ensures r.Success? ==> r.value == ToFloat(v).value
    ensures r.Failure? ==> r.error == BadMonthlyFee
  {
    match ToFloat(v)
    case None => Failure(BadMonthlyFee)
    case Some(x) =>
      if x < 0.0 then Failure(BadMonthlyFee)
      else if x > MaxMonthlyFee then Failure(BadMonthlyFee)
      else Success(x)
  }

  // ------------------------------------------------------------ negative amounts

  /** A positive amount typed after a minus sign is that amount negated, so the
      balance, the monthly fee and both savings extras reject it. */
  lemma NegativeTextRejected(t: string, currency: string)
    requires ParseUnsignedReal(t).Some? && ParseUnsignedReal(t).value > 0.0
    ensures ToFloat(Str("-" + t)) == Some(-ParseUnsignedReal(t).value)
    ensures ValidateBalance(Str("-" + t)).Failure?
    ensures ValidateMonthlyFee(Str("-" + t)).Failure?
    ensures ValidateWithdrawalLimit(currency, Str("-" + t)).Failure?
    ensures ValidateInterestRate(currency, Str("-" + t)).Failure?
  {
    var s := "-" + t;
    assert s[0] == '-' && s[1..] == t;
  }

  // ------------------------------------------------------------ re-validation

  /** Validating a value that was already accepted gives it back unchanged: a
      setter or a read-back that re-runs a validator on a stored field keeps it. */
  lemma {:induction false} RevalidationKeepsValue(v: Value, currency: string)
    ensures ValidateBalance(v).Success? ==> ValidateBalance(Float(ValidateBalance(v).value)) == ValidateBalance(v)
    ensures ValidateHolder(v).Success? ==> ValidateHolder(Str(ValidateHolder(v).value)) == ValidateHolder(v)
    ensures ValidateCurrency(v).Success? ==> ValidateCurrency(Str(ValidateCurrency(v).value)) == ValidateCurrency(v)
    ensures ValidateStatus(v).Success? ==> ValidateStatus(Str(ValidateStatus(v).value)) == ValidateStatus(v)
    ensures ValidateMonthlyFee(v).Success? ==> ValidateMonthlyFee(Float(ValidateMonthlyFee(v).value)) == ValidateMonthlyFee(v)
  {
    if v.Str? {
      LowerIdempotent(v.s);
    }
  }

  // ------------------------------------------------------------ intended ranges

  /** The withdrawal-limit range per currency that the capitalised comparisons
      were evidently meant to enforce. Not used by the entity model, which keeps
      the behaviour as written. */
  function IntendedWithdrawalRange(currency: string): (bounds: (real, real))
    requires currency in Currencies
    ensures 0.0 < bounds.0 < bounds.1
  {
    if currency == "pesos" then (80000.0, 170000.0)
    else if currency == "dolares" || currency == "euros" then (200.0, 300.0)
    else (150000000.0, 280000000.0)
  }

  /** The interest-rate range per currency, likewise intended but never enforced. */
  function IntendedInterestRange(currency: string): (bounds: (real, real))
    requires currency in Currencies
    ensures 0.0 < bounds.0 < bounds.1
  {
    if currency == "pesos" || currency == "guaranies" then (30.0, 35.0)
    else if currency == "dolares" then (20.0, 25.0)
    else (20.0, 30.0)
  }

  /** An accepted currency starts with a lower-case letter, so it is none of the
      capitalised names the range checks compare against. */
  lemma CurrencyNotCapitalised(currency: string)
    requires currency in Currencies
    ensures currency != "Pesos" && currency != "Dolares" && currency != "Euros" && currency != "Guaranies"
  {
    NamesAreLowerCase(currency);
    assert 'a' <= currency[0] <= 'z';
  }

  /** The withdrawal-limit check with the intended table applied to the stored
      (lower-case) currency. */
  function ValidateWithdrawalLimitIntended(currency: string, v: Value): (r: Result<real, FieldError>)
    requires currency in Currencies
    ensures r.Success? <==>
      ToFloat(v).Some? && IntendedWithdrawalRange(currency).0 <= ToFloat(v).value <= IntendedWithdrawalRange(currency).1
    ensures r.Success? ==> r.value == ToFloat(v).value
    ensures r.Failure? ==> r.error == BadWithdrawalLimit
    ensures r.Success? ==> ValidateWithdrawalLimit(currency, v) == r
  {
    var (lo, hi) := IntendedWithdrawalRange(currency);
    CurrencyNotCapitalised(currency);
    match ToFloat(v)
    case Some(x) => if lo <= x <= hi then Success(x) else Failure(BadWithdrawalLimit)
    case None => Failure(BadWithdrawalLimit)
  }

  /** The interest-rate check with the intended table. */
  function ValidateInterestRateIntended(currency: string, v: Value): (r: Result<real, FieldError>)
    requires currency in Currencies
    ensures r.Success? <==>
      ToFloat(v).Some? && IntendedInterestRange(currency).0 <= ToFloat(v).value <= IntendedInterestRange(currency).1
    ensures r.Success? ==> r.value == ToFloat(v).value
    ensures r.Failure? ==> r.error == BadInterestRate
    ensures r.Success? ==> ValidateInterestRate(currency, v) == r
  {
    var (lo, hi) := IntendedInterestRange(currency);
    CurrencyNotCapitalised(currency);
    match ToFloat(v)
    case Some(x) => if lo <= x <= hi then Success(x) else Failure(BadInterestRate)
    case None => Failure(BadInterestRate)
  }

  /** Every currency has non-negative values the code accepts although they lie
      below the intended range: for each, the value 0 passes as written and fails
      the intended check. */
  lemma {:induction false} RangeTableIgnored(currency: string)
    requires currency in Currencies
    ensures ValidateWithdrawalLimit(currency, Float(0.0)) == Success(0.0)
    ensures ValidateWithdrawalLimitIntended(currency, Float(0.0)).Failure?
    ensures ValidateInterestRate(currency, Float(0.0)) == Success(0.0)
    ensures ValidateInterestRateIntended(currency, Float(0.0)).Failure?
  {
    CurrencyNotCapitalised(currency);
  }
}
