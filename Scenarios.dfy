/**
 * Concrete inputs the system's behaviour is usually described by, and one
 * create / read / delete session against a store that starts with no file.
 */
module Scenarios {
  import opened Wrappers
  import opened Text
  import opened Numbers
  import opened Validation
  import opened Accounts
  import opened Store

  lemma AccountNumberExamples()
    ensures ValidateAccountNumber(Str("123456789012")).Success?
  {
    AccountNumberTextAccepted("123456789012");
    assert "123456789012"[0] == '1';
  }

  lemma AccountNumberCounterExamples()
    ensures ValidateAccountNumber(Str("12345")).Failure?
    ensures ValidateAccountNumber(Str("1234567890123")).Failure?
    ensures ValidateAccountNumber(Int(0)).Failure?
    ensures ValidateAccountNumber(Str("-12345678901")).Failure?
  {
    AccountNumberTextAccepted("-12345678901");
  }

  /** A leading zero passes the length check on the text, but the stored number's
      own text, the key it is filed under, is not twelve characters long. */
  lemma LeadingZeroExample()
    ensures ValidateAccountNumber(Str("012345678901")).Success?
    ensures |IntText(ValidateAccountNumber(Str("012345678901")).value)| != 12
  {
    var s := "012345678901";
    AccountNumberTextAccepted(s);
    assert s[1] == '1';
    StoredAccountNumberDigits(s);
  }

  lemma HolderExamples()
    ensures ValidateHolder(Str("Jane Doe")) == Success("Jane Doe")
  {
    HolderNameExample("Jane Doe");
  }

  /** A name of ASCII letters and spaces that starts with a letter. */
  lemma HolderNameExample(h: string)
    requires h != [] && h[0] != ' '
    requires forall i :: 0 <= i < |h| ==> h[i] == ' ' || 'A' <= h[i] <= 'Z' || 'a' <= h[i] <= 'z'
    ensures ValidateHolder(Str(h)) == Success(h)
  {
  }

  lemma HolderCounterExamples()
    ensures ValidateHolder(Str("Jane123")).Failure?
    ensures ValidateHolder(Str("")).Failure?
    ensures ValidateHolder(Str("   ")).Failure?
  {
    assert !IsLetter("Jane123"[4]);
  }

  lemma CurrencyExamples()
    ensures ValidateCurrency(Str("PESOS")) == Success("pesos")
  {
    NamesAreLowerCase("pesos");
    LowerMatchesWord("PESOS", "pesos");
  }

  lemma CurrencyCounterExample()
    ensures ValidateCurrency(Str("yen")).Failure?
  {
    assert |Lower("yen")| == 3;
  }

  lemma MonthlyFeeExamples()
    ensures ValidateMonthlyFee(Int(20)) == Success(20.0)
    ensures ValidateMonthlyFee(Str("20.01")).Failure?
    ensures ValidateMonthlyFee(Int(-1)).Failure?
  {
    var s := "20.01";
    assert s[2] == '.' && s[0] != '.' && s[1] != '.';
    assert PointIndex(s) == 2;
    assert s[..2] == "20" && s[3..] == "01";
    assert DigitsValue("20") == 20 by { assert "20"[..1] == "2"; }
  }

  /** The number Ana Diaz types is accepted and filed under the same text. */
  lemma AnaDiazNumber()
    ensures ValidateAccountNumber(Str("100000000001")).Success?
    ensures IntText(ValidateAccountNumber(Str("100000000001")).value) == "100000000001"
    ensures ValidateAccountNumber(Str("100000000001")).value >= Pow10(11)
  {
    var number := "100000000001";
    AccountNumberTextAccepted(number);
    assert number[0] == '1';
    StoredUnderTypedText(number);
    TwelveDigitText(ValidateAccountNumber(Str(number)).value);
  }

  lemma AnaDiazBalance()
    ensures ValidateBalance(Str("500")) == Success(500.0)
  {
    assert IntText(500) == "500";
    BalanceOfNumeral(500);
  }

  /** A balance typed as the decimal text of a whole number is read as that number. */
  lemma BalanceOfNumeral(n: nat)
    ensures ValidateBalance(Str(IntText(n))) == Success(n as real)
  {
    ParseIntText(n);
    ParseRealExtendsParseInt(IntText(n));
  }

  /** A balance typed as "-2.5" is minus two and a half, and is rejected. */
  lemma NegativeBalanceExample()
    ensures ToFloat(Str("-2.5")) == Some(-2.5)
    ensures ValidateBalance(Str("-2.5")).Failure?
  {
    var t := "2.5";
    assert t[1] == '.' && t[0] != '.';
    assert PointIndex(t) == 1;
    assert t[..1] == "2" && t[2..] == "5";
    assert "-" + t == "-2.5";
    NegativeTextRejected(t, "pesos");
  }

  lemma AnaDiazHolder()
    ensures ValidateHolder(Str("Ana Diaz")) == Success("Ana Diaz")
  {
    HolderNameExample("Ana Diaz");
  }

  lemma AnaDiazChoices()
    ensures ValidateCurrency(Str("dolares")) == Success("dolares")
    ensures ValidateStatus(Str("active")) == Success("active")
  {
    NamesAreLowerCase("dolares");
    LowerWordFixed("dolares");
    NamesAreLowerCase("active");
    LowerWordFixed("active");
  }

  /** The base fields of Ana Diaz's application are accepted as typed, and the
      number they give is filed under the text that was typed. */
  lemma AnaDiazAccepted()
    ensures var b := NewBase(Str("100000000001"), Str("500"), Str("Ana Diaz"), Str("dolares"), Str("active"));
            && b == Success(Base(ValidateAccountNumber(Str("100000000001")).value, 500.0,
                                 "Ana Diaz", "dolares", "active"))
            && b.value.accountNumber >= Pow10(11)
            && IntText(b.value.accountNumber) == "100000000001"
  {
    AnaDiazNumber();
    AnaDiazBalance();
    AnaDiazHolder();
    AnaDiazChoices();
    NewBaseAccepts(Str("100000000001"), Str("500"), Str("Ana Diaz"), Str("dolares"), Str("active"));
  }

  /** With the savings extras 250.0 and 22.0 the application opens a valid savings
      account whose number has twelve digits: one `CreateReadDeleteSession` accepts. */
  lemma AnaDiazSavings()
    ensures var r := NewSavings(Str("100000000001"), Str("500"), Str("Ana Diaz"), Str("dolares"), Str("active"),
                                Float(250.0), Float(22.0));
            && r.Success? && ValidAccount(r.value)
            && r.value == Savings(r.value.base, 250.0, 22.0)
            && r.value.base.accountNumber >= Pow10(11)
  {
    AnaDiazAccepted();
    assert NonNegativeNumber(Float(250.0)) && NonNegativeNumber(Float(22.0));
  }

  /** Validation succeeds whenever every field validator does. */
  lemma NewBaseAccepts(number: Value, balance: Value, holder: Value, currency: Value, status: Value)
    requires ValidateAccountNumber(number).Success? && ValidateBalance(balance).Success?
    requires ValidateHolder(holder).Success? && ValidateCurrency(currency).Success? && ValidateStatus(status).Success?
    ensures NewBase(number, balance, holder, currency, status)
            == Success(Base(ValidateAccountNumber(number).value, ValidateBalance(balance).value,
                            ValidateHolder(holder).value, ValidateCurrency(currency).value, ValidateStatus(status).value))
  {
  }

  /** A session against a store with no file: open an account whose number has
      twelve digits, find it by its number's text, delete it, and delete it again. */
  method CreateReadDeleteSession(account: Account) returns (created: Outcome, saved: Collection,
                                                            found: Result<Account, ReadError>,
                                                            deleted: Outcome, deletedAgain: Outcome, left: Collection)
    requires ValidAccount(account) && account.base.accountNumber >= Pow10(11)
    ensures created == Saved
    ensures saved == map[AccountKey(account) := ToRecord(account)]
    ensures found == Success(account)
    ensures deleted == Deleted && deletedAgain == NotFound
    ensures left == map[]
  {
    var key := AccountKey(account);
    RebuildToRecord(account);
    var store := new AccountManagement(None);
    created := store.CreateAccount(account);
    saved := store.data;
    found := store.ReadAccount(key);
    deleted := store.DeleteAccount(key);
    deletedAgain := store.DeleteAccount(key);
    left := store.data;
  }
}
