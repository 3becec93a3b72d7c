/**
 * The account entities: `BankAccount` with its two subclasses `SavingsAccount`
 * and `CheckingAccount`, their validating constructors and setters, `toDict`,
 * and the rebuilding of an entity from a stored record done by `readAccount`.
 */
module Accounts {
  import opened Wrappers
  import opened Text
  import opened Numbers
  import opened Validation

  /** The five private fields every account has. */
  datatype Base = Base(accountNumber: int, balance: real, holder: string, currency: string, status: string)

  /** The two account classes, each with its own extra fields. */
  datatype Account =
    | Savings(base: Base, withdrawalLimit: real, interestRate: real)
    | Checking(base: Base, monthlyFee: real)

  /** The keys `toDict` writes, one per field. */
  datatype Key =
    | AccountNumberKey | BalanceKey | HolderKey | CurrencyKey | StatusKey
    | WithdrawalLimitKey | InterestRateKey | MonthlyFeeKey

  /** The flat record `toDict` produces and the accounts file stores, keyed by
      field name. */
  type Record = map<Key, Value>

  /** What holds of every field of a live `BankAccount`: among other things, its
      balance and holder pass their validators again unchanged. */
  predicate ValidBase(b: Base): (v: bool)
    ensures v ==> ValidateBalance(Float(b.balance)) == Success(b.balance)
    ensures v ==> ValidateHolder(Str(b.holder)) == Success(b.holder)
  {
    && 0 < b.accountNumber < Pow10(12)
    && b.balance >= 0.0
    && IsHolderName(b.holder)
    && b.currency in Currencies
    && b.status in Statuses
  }

  /** What holds of every field of a live `SavingsAccount` or `CheckingAccount`:
      its extra fields pass their validators again unchanged. */
  predicate ValidAccount(a: Account): (v: bool)
    ensures v ==> ValidBase(a.base)
    ensures v && a.Savings? ==> NonNegativeNumber(Float(a.withdrawalLimit)) && NonNegativeNumber(Float(a.interestRate))
    ensures v && a.Checking? ==> ValidateMonthlyFee(Float(a.monthlyFee)) == Success(a.monthlyFee)
  {
    && ValidBase(a.base)
    && match a
       case Savings(_, limit, rate) => limit >= 0.0 && rate >= 0.0
       case Checking(_, fee) => 0.0 <= fee <= MaxMonthlyFee
  }

  predicate NonNegativeNumber(v: Value) {
    ToFloat(v).Some? && ToFloat(v).value >= 0.0
  }

  // ------------------------------------------------------------ constructors

  /** `BankAccount.__init__`: validates the five fields in declaration order and
      stops at the first that fails, reporting that field's error. */
  function NewBase(number: Value, balance: Value, holder: Value, currency: Value, status: Value): (r: Result<Base, FieldError>)
    ensures r.Success? ==> ValidBase(r.value)
    ensures r.Success? ==>
      && ValidateAccountNumber(number) == Success(r.value.accountNumber)
      && ValidateBalance(balance) == Success(r.value.balance)
      && ValidateHolder(holder) == Success(r.value.holder)
      && ValidateCurrency(currency) == Success(r.value.currency)
      && ValidateStatus(status) == Success(r.value.status)
    ensures r == Failure(BadAccountNumber) <==> ValidateAccountNumber(number).Failure?
    ensures r == Failure(BadBalance) <==>
      ValidateAccountNumber(number).Success? && ValidateBalance(balance).Failure?
    ensures r == Failure(BadHolder) <==>
      ValidateAccountNumber(number).Success? && ValidateBalance(balance).Success? && ValidateHolder(holder).Failure?
    ensures r == Failure(BadCurrency) <==>
      ValidateAccountNumber(number).Success? && ValidateBalance(balance).Success? && ValidateHolder(holder).Success?
      && ValidateCurrency(currency).Failure?
    ensures r == Failure(BadStatus) <==>
      ValidateAccountNumber(number).Success? && ValidateBalance(balance).Success? && ValidateHolder(holder).Success?
      && ValidateCurrency(currency).Success? && ValidateStatus(status).Failure?
    ensures (&& ValidateAccountNumber(number).Success? && ValidateBalance(balance).Success?
             && ValidateHolder(holder).Success? && ValidateCurrency(currency).Success?
             && ValidateStatus(status).Success?) ==> r.Success?
  {
    var accountNumber :- ValidateAccountNumber(number);
    var balance :- ValidateBalance(balance);
    var holder :- ValidateHolder(holder);
    var currency :- ValidateCurrency(currency);
    var status :- ValidateStatus(status);
    Success(Base(accountNumber, balance, holder, currency, status))
  }

  /** `SavingsAccount.__init__`: the base fields, then the withdrawal limit and the
      interest rate, both checked against the currency just stored. Because that
      currency is lower case, both are accepted exactly when they are
      non-negative numbers. */
  function NewSavings(number: Value, balance: Value, holder: Value, currency: Value, status: Value,
                      withdrawalLimit: Value, interestRate: Value): (r: Result<Account, FieldError>)
    ensures r.Success? ==> r.value.Savings? && ValidAccount(r.value)
    ensures r.Success? <==>
      NewBase(number, balance, holder, currency, status).Success?
      && NonNegativeNumber(withdrawalLimit) && NonNegativeNumber(interestRate)
    ensures r.Success? ==>
      && NewBase(number, balance, holder, currency, status) == Success(r.value.base)
      && ToFloat(withdrawalLimit) == Some(r.value.withdrawalLimit)
      && ToFloat(interestRate) == Some(r.value.interestRate)
    ensures NewBase(number, balance, holder, currency, status).Failure? ==>
      r == Failure(NewBase(number, balance, holder, currency, status).error)
    ensures NewBase(number, balance, holder, currency, status).Success? && !NonNegativeNumber(withdrawalLimit) ==>
      r == Failure(BadWithdrawalLimit)
    ensures NewBase(number, balance, holder, currency, status).Success? && NonNegativeNumber(withdrawalLimit)
            && !NonNegativeNumber(interestRate) ==>
      r == Failure(BadInterestRate)
  {
    var base :- NewBase(number, balance, holder, currency, status);
    LowerCaseCurrency(base);
    RangeChecksUnreachable(base.currency, withdrawalLimit);
    RangeChecksUnreachable(base.currency, interestRate);
    var limit :- ValidateWithdrawalLimit(base.currency, withdrawalLimit);
    var rate :- ValidateInterestRate(base.currency, interestRate);
    Success(Savings(base, limit, rate))
  }

  /** `CheckingAccount.__init__`: the base fields, then the monthly fee. */
  function NewChecking(number: Value, balance: Value, holder: Value, currency: Value, status: Value,
                       monthlyFee: Value): (r: Result<Account, FieldError>)
    ensures r.Success? ==> r.value.Checking? && ValidAccount(r.value)
    ensures r.Success? <==>
      NewBase(number, balance, holder, currency, status).Success? && ValidateMonthlyFee(monthlyFee).Success?
    ensures r.Success? ==>
      && NewBase(number, balance, holder, currency, status) == Success(r.value.base)
      && ValidateMonthlyFee(monthlyFee) == Success(r.value.monthlyFee)
    ensures NewBase(number, balance, holder, currency, status).Failure? ==>
      r == Failure(NewBase(number, balance, holder, currency, status).error)
    ensures NewBase(number, balance, holder, currency, status).Success? && ValidateMonthlyFee(monthlyFee).Failure? ==>
      r == Failure(BadMonthlyFee)
  {
    var base :- NewBase(number, balance, holder, currency, status);
    var fee :- ValidateMonthlyFee(monthlyFee);
    Success(Checking(base, fee))
  }

  lemma LowerCaseCurrency(b: Base)
    requires b.currency in Currencies
    ensures Lower(b.currency) == b.currency
  {
    NamesAreLowerCase(b.currency);
    LowerWordFixed(b.currency);
  }

  // ------------------------------------------------------------ toDict

  const BaseKeys: set<Key> := {AccountNumberKey, BalanceKey, HolderKey, CurrencyKey, StatusKey}
  const SavingsKeys: set<Key> := {WithdrawalLimitKey, InterestRateKey}
  const CheckingKeys: set<Key> := {MonthlyFeeKey}

  /** The keys of an account's record: the base fields and the subclass's own. */
  function KeysOf(a: Account): set<Key> {
    BaseKeys + if a.Savings? then SavingsKeys else CheckingKeys
  }

  /** The value `toDict` writes under one key. */
  function FieldValue(a: Account, k: Key): Value
    requires k in KeysOf(a)
  {
    match k
    case AccountNumberKey => Int(a.base.accountNumber)
    case BalanceKey => Float(a.base.balance)
    case HolderKey => Str(a.base.holder)
    case CurrencyKey => Str(a.base.currency)
    case StatusKey => Str(a.base.status)
    case WithdrawalLimitKey => Float(a.withdrawalLimit)
    case InterestRateKey => Float(a.interestRate)
    case MonthlyFeeKey => Float(a.monthlyFee)
  }

  /** `toDict`: the five base fields, then the subclass's own fields. */
  function ToRecord(a: Account): (r: Record)
    ensures r.Keys == BaseKeys + (if a.Savings? then SavingsKeys else CheckingKeys)
    ensures (InterestRateKey in r) <==> a.Savings?
  {
    map k | k in KeysOf(a) :: FieldValue(a, k)
  }

  /** Constructing a `SavingsAccount` and calling `toDict` gives back every field
      as validated: the holder exactly as given, the currency and status
      lower-cased, the numbers as parsed. */
  lemma SavingsToDict(number: Value, balance: Value, holder: Value, currency: Value, status: Value,
                      withdrawalLimit: Value, interestRate: Value)
    requires NewSavings(number, balance, holder, currency, status, withdrawalLimit, interestRate).Success?
    ensures var rec := ToRecord(NewSavings(number, balance, holder, currency, status, withdrawalLimit, interestRate).value);
            && rec.Keys == BaseKeys + SavingsKeys
            && rec[AccountNumberKey] == Int(ValidateAccountNumber(number).value)
            && rec[BalanceKey] == Float(ValidateBalance(balance).value)
            && rec[HolderKey] == holder
            && rec[CurrencyKey] == Str(ValidateCurrency(currency).value)
            && rec[StatusKey] == Str(ValidateStatus(status).value)
            && rec[WithdrawalLimitKey] == Float(ToFloat(withdrawalLimit).value)
            && rec[InterestRateKey] == Float(ToFloat(interestRate).value)
  {
    var a := NewSavings(number, balance, holder, currency, status, withdrawalLimit, interestRate).value;
    RecordFields(a);
    assert NewBase(number, balance, holder, currency, status) == Success(a.base);
  }

  /** Constructing a `CheckingAccount` and calling `toDict` gives back every field
      as validated. */
  lemma CheckingToDict(number: Value, balance: Value, holder: Value, currency: Value, status: Value,
                       monthlyFee: Value)
    requires NewChecking(number, balance, holder, currency, status, monthlyFee).Success?
    ensures var rec := ToRecord(NewChecking(number, balance, holder, currency, status, monthlyFee).value);
            && rec.Keys == BaseKeys + CheckingKeys
            && rec[AccountNumberKey] == Int(ValidateAccountNumber(number).value)
            && rec[BalanceKey] == Float(ValidateBalance(balance).value)
            && rec[HolderKey] == holder
            && rec[CurrencyKey] == Str(ValidateCurrency(currency).value)
            && rec[StatusKey] == Str(ValidateStatus(status).value)
            && rec[MonthlyFeeKey] == Float(ValidateMonthlyFee(monthlyFee).value)
  {
    var a := NewChecking(number, balance, holder, currency, status, monthlyFee).value;
    RecordFields(a);
    assert NewBase(number, balance, holder, currency, status) == Success(a.base);
  }

  /** What `toDict` writes under each key. */
  lemma RecordFields(a: Account)
    ensures var rec := ToRecord(a);
            && rec[AccountNumberKey] == Int(a.base.accountNumber)
            && rec[BalanceKey] == Float(a.base.balance)
            && rec[HolderKey] == Str(a.base.holder)
            && rec[CurrencyKey] == Str(a.base.currency)
            && rec[StatusKey] == Str(a.base.status)
    ensures a.Savings? ==>
      ToRecord(a)[WithdrawalLimitKey] == Float(a.withdrawalLimit) && ToRecord(a)[InterestRateKey] == Float(a.interestRate)
    ensures a.Checking? ==> ToRecord(a)[MonthlyFeeKey] == Float(a.monthlyFee)
  {
  }

  // ------------------------------------------------------------ setters

  /** The `account_number` setter: re-validates; on success only that field changes. */
  function SetAccountNumber(a: Account, v: Value): (r: Result<Account, FieldError>)
    requires ValidAccount(a)
    ensures r.Success? <==> ValidateAccountNumber(v).Success?
    ensures r.Success? ==>
      ValidAccount(r.value) && ToRecord(r.value) == ToRecord(a)[AccountNumberKey := Int(ValidateAccountNumber(v).value)]
    ensures r.Failure? ==> r.error == BadAccountNumber
  {
    var n :- ValidateAccountNumber(v);
    AccountNumberFrame(a, n);
    Success(a.(base := a.base.(accountNumber := n)))
  }

  /** The `balance` setter. */
  function SetBalance(a: Account, v: Value): (r: Result<Account, FieldError>)
    requires ValidAccount(a)
    ensures r.Success? <==> ValidateBalance(v).Success?
    ensures r.Success? ==>
      ValidAccount(r.value) && ToRecord(r.value) == ToRecord(a)[BalanceKey := Float(ValidateBalance(v).value)]
    ensures r.Failure? ==> r.error == BadBalance
  {
    var b :- ValidateBalance(v);
    BalanceFrame(a, b);
    Success(a.(base := a.base.(balance := b)))
  }

  /** The `holder` setter. */
  function SetHolder(a: Account, v: Value): (r: Result<Account, FieldError>)
    requires ValidAccount(a)
    ensures r.Success? <==> ValidateHolder(v).Success?
    ensures r.Success? ==> ValidAccount(r.value) && ToRecord(r.value) == ToRecord(a)[HolderKey := v]
    ensures r.Failure? ==> r.error == BadHolder
  {
    var h :- ValidateHolder(v);
    HolderFrame(a, h);
    Success(a.(base := a.base.(holder := h)))
  }

  /** The `currency` setter. The withdrawal limit and interest rate of a savings
      account are not re-checked, which the dead range checks make harmless. */
  function SetCurrency(a: Account, v: Value): (r: Result<Account, FieldError>)
    requires ValidAccount(a)
    ensures r.Success? <==> ValidateCurrency(v).Success?
    ensures r.Success? ==>
      ValidAccount(r.value) && ToRecord(r.value) == ToRecord(a)[CurrencyKey := Str(ValidateCurrency(v).value)]
    ensures r.Failure? ==> r.error == BadCurrency
  {
    var c :- ValidateCurrency(v);
    CurrencyFrame(a, c);
    Success(a.(base := a.base.(currency := c)))
  }

  /** The `status` setter. */
  function SetStatus(a: Account, v: Value): (r: Result<Account, FieldError>)
    requires ValidAccount(a)
    ensures r.Success? <==> ValidateStatus(v).Success?
    ensures r.Success? ==>
      ValidAccount(r.value) && ToRecord(r.value) == ToRecord(a)[StatusKey := Str(ValidateStatus(v).value)]
    ensures r.Failure? ==> r.error == BadStatus
  {
    var s :- ValidateStatus(v);
    StatusFrame(a, s);
    Success(a.(base := a.base.(status := s)))
  }

  /** The `withdrawal_limit` setter of `SavingsAccount`. */
  function SetWithdrawalLimit(a: Account, v: Value): (r: Result<Account, FieldError>)
    requires ValidAccount(a) && a.Savings?
    ensures r.Success? <==> NonNegativeNumber(v)
    ensures r.Success? ==>
      ValidAccount(r.value) && ToRecord(r.value) == ToRecord(a)[WithdrawalLimitKey := Float(ToFloat(v).value)]
    ensures r.Failure? ==> r.error == BadWithdrawalLimit
  {
    LowerCaseCurrency(a.base);
    RangeChecksUnreachable(a.base.currency, v);
    var limit :- ValidateWithdrawalLimit(a.base.currency, v);
    WithdrawalLimitFrame(a, limit);
    Success(a.(withdrawalLimit := limit))
  }

  /** The `interest_rate` setter of `SavingsAccount`. */
  function SetInterestRate(a: Account, v: Value): (r: Result<Account, FieldError>)
    requires ValidAccount(a) && a.Savings?
    ensures r.Success? <==> NonNegativeNumber(v)
    ensures r.Success? ==>
      ValidAccount(r.value) && ToRecord(r.value) == ToRecord(a)[InterestRateKey := Float(ToFloat(v).value)]
    ensures r.Failure? ==> r.error == BadInterestRate
  {
    LowerCaseCurrency(a.base);
    RangeChecksUnreachable(a.base.currency, v);
    var rate :- ValidateInterestRate(a.base.currency, v);
    InterestRateFrame(a, rate);
    Success(a.(interestRate := rate))
  }

  /** The `monthly_fee` setter of `CheckingAccount`. */
  function SetMonthlyFee(a: Account, v: Value): (r: Result<Account, FieldError>)
    requires ValidAccount(a) && a.Checking?
    ensures r.Success? <==> ValidateMonthlyFee(v).Success?
    ensures r.Success? ==>
      ValidAccount(r.value) && ToRecord(r.value) == ToRecord(a)[MonthlyFeeKey := Float(ValidateMonthlyFee(v).value)]
    ensures r.Failure? ==> r.error == BadMonthlyFee
  {
    var fee :- ValidateMonthlyFee(v);
    MonthlyFeeFrame(a, fee);
    Success(a.(monthlyFee := fee))
  }

  /** Changing one field of an account changes only that entry of its record. */
  lemma AccountNumberFrame(a: Account, n: int)
    ensures ToRecord(a.(base := a.base.(accountNumber := n))) == ToRecord(a)[AccountNumberKey := Int(n)]
  {
  }

  lemma BalanceFrame(a: Account, b: real)
    ensures ToRecord(a.(base := a.base.(balance := b))) == ToRecord(a)[BalanceKey := Float(b)]
  {
  }

  lemma HolderFrame(a: Account, h: string)
    ensures ToRecord(a.(base := a.base.(holder := h))) == ToRecord(a)[HolderKey := Str(h)]
  {
  }

  lemma CurrencyFrame(a: Account, c: string)
    ensures ToRecord(a.(base := a.base.(currency := c))) == ToRecord(a)[CurrencyKey := Str(c)]
  {
  }

  lemma StatusFrame(a: Account, s: string)
    ensures ToRecord(a.(base := a.base.(status := s))) == ToRecord(a)[StatusKey := Str(s)]
  {
  }

  lemma WithdrawalLimitFrame(a: Account, limit: real)
    requires a.Savings?
    ensures ToRecord(a.(withdrawalLimit := limit)) == ToRecord(a)[WithdrawalLimitKey := Float(limit)]
  {
  }

  lemma InterestRateFrame(a: Account, rate: real)
    requires a.Savings?
    ensures ToRecord(a.(interestRate := rate)) == ToRecord(a)[InterestRateKey := Float(rate)]
  {
  }

  lemma MonthlyFeeFrame(a: Account, fee: real)
    requires a.Checking?
    ensures ToRecord(a.(monthlyFee := fee)) == ToRecord(a)[MonthlyFeeKey := Float(fee)]
  {
  }

  // ------------------------------------------------------------ readAccount's rebuild

  /** Why `readAccount` returns no account. */
  datatype ReadError =
    | NoSuchAccount
    | MissingField(key: Key)
    | Rejected(error: FieldError)

  /** `account_data[key]`, which raises `KeyError` for a missing key. */
  function Field(rec: Record, key: Key): (r: Result<Value, ReadError>)
    ensures r.Success? <==> key in rec
    ensures r.Success? ==> r.value == rec[key]
    ensures r.Failure? ==> r.error == MissingField(key)
  {
    if key in rec then Success(rec[key]) else Failure(MissingField(key))
  }

  /** A constructor's outcome as the outcome of a read: a field error becomes the
      read's `Rejected` error. */
  function AsReadResult(r: Result<Account, FieldError>): Result<Account, ReadError> {
    match r
    case Success(a) => Success(a)
    case Failure(e) => Failure(Rejected(e))
  }

  /** The body of `readAccount` once the record is found: copy the five base
      fields, choose the class by whether `interest_rate` is present, copy that
      class's fields, and run its constructor (so every field is re-validated). */
  function RebuildAccount(rec: Record): (r: Result<Account, ReadError>)
    ensures r.Success? ==> ValidAccount(r.value)
    ensures r.Success? ==> (r.value.Savings? <==> InterestRateKey in rec)
    ensures r.Failure? ==> r.error != NoSuchAccount
  {
    var number :- Field(rec, AccountNumberKey);
    var balance :- Field(rec, BalanceKey);
    var holder :- Field(rec, HolderKey);
    var currency :- Field(rec, CurrencyKey);
    var status :- Field(rec, StatusKey);
    if InterestRateKey in rec then
      var limit :- Field(rec, WithdrawalLimitKey);
      AsReadResult(NewSavings(number, balance, holder, currency, status, limit, rec[InterestRateKey]))
    else
      var fee :- Field(rec, MonthlyFeeKey);
      AsReadResult(NewChecking(number, balance, holder, currency, status, fee))
  }

  /** The record holds every field `readAccount` copies: the five base fields, and
      the withdrawal limit when `interest_rate` is present, the monthly fee when not. */
  predicate HasFields(rec: Record) {
    && AccountNumberKey in rec && BalanceKey in rec && HolderKey in rec && CurrencyKey in rec && StatusKey in rec
    && (InterestRateKey in rec ==> WithdrawalLimitKey in rec)
    && (InterestRateKey !in rec ==> MonthlyFeeKey in rec)
  }

  /** The constructor `readAccount` runs on a record that has all its fields. */
  function Construct(rec: Record): Result<Account, FieldError>
    requires HasFields(rec)
  {
    if InterestRateKey in rec then
      NewSavings(rec[AccountNumberKey], rec[BalanceKey], rec[HolderKey], rec[CurrencyKey], rec[StatusKey],
                 rec[WithdrawalLimitKey], rec[InterestRateKey])
    else
      NewChecking(rec[AccountNumberKey], rec[BalanceKey], rec[HolderKey], rec[CurrencyKey], rec[StatusKey],
                  rec[MonthlyFeeKey])
  }

  /** A record is read back only when it has all its fields, and then the outcome
      is that of the class's constructor on them. */
  lemma RebuildConstructs(rec: Record)
    ensures RebuildAccount(rec).Success? ==> HasFields(rec)
    ensures HasFields(rec) ==> RebuildAccount(rec) == AsReadResult(Construct(rec))
  {
  }

  /** Re-running the base constructor with another status: the same base with the
      new (lower-cased) status, or the status error. */
  lemma NewBaseWithStatus(number: Value, balance: Value, holder: Value, currency: Value, oldStatus: Value, status: Value)
    requires NewBase(number, balance, holder, currency, oldStatus).Success?
    ensures var b := NewBase(number, balance, holder, currency, oldStatus).value;
            NewBase(number, balance, holder, currency, status)
            == match ValidateStatus(status)
               case Success(s) => Success(b.(status := s))
               case Failure(_) => Failure(BadStatus)
  {
  }

  /** `SavingsAccount.__init__` with another status. */
  lemma SavingsWithStatus(number: Value, balance: Value, holder: Value, currency: Value, oldStatus: Value,
                          status: Value, limit: Value, rate: Value)
    requires NewSavings(number, balance, holder, currency, oldStatus, limit, rate).Success?
    ensures var a := NewSavings(number, balance, holder, currency, oldStatus, limit, rate).value;
            NewSavings(number, balance, holder, currency, status, limit, rate)
            == match ValidateStatus(status)
               case Success(s) => Success(Savings(a.base.(status := s), a.withdrawalLimit, a.interestRate))
               case Failure(_) => Failure(BadStatus)
  {
    NewBaseWithStatus(number, balance, holder, currency, oldStatus, status);
  }

  /** `CheckingAccount.__init__` with another status. */
  lemma CheckingWithStatus(number: Value, balance: Value, holder: Value, currency: Value, oldStatus: Value,
                           status: Value, fee: Value)
    requires NewChecking(number, balance, holder, currency, oldStatus, fee).Success?
    ensures var a := NewChecking(number, balance, holder, currency, oldStatus, fee).value;
            NewChecking(number, balance, holder, currency, status, fee)
            == match ValidateStatus(status)
               case Success(s) => Success(Checking(a.base.(status := s), a.monthlyFee))
               case Failure(_) => Failure(BadStatus)
  {
    NewBaseWithStatus(number, balance, holder, currency, oldStatus, status);
  }

  /** Re-running a record's constructor after its `status` is overwritten. */
  lemma {:induction false} ConstructWithStatus(rec: Record, status: Value)
    requires HasFields(rec) && Construct(rec).Success?
    ensures HasFields(rec[StatusKey := status])
    ensures var a := Construct(rec).value;
            Construct(rec[StatusKey := status])
            == match ValidateStatus(status)
               case Success(s) => Success(a.(base := a.base.(status := s)))
               case Failure(_) => Failure(BadStatus)
  {
    var number, balance, holder, currency := rec[AccountNumberKey], rec[BalanceKey], rec[HolderKey], rec[CurrencyKey];
    ConstructOfStatusUpdate(rec, status);
    if InterestRateKey in rec {
      SavingsWithStatus(number, balance, holder, currency, rec[StatusKey], status,
                        rec[WithdrawalLimitKey], rec[InterestRateKey]);
    } else {
      CheckingWithStatus(number, balance, holder, currency, rec[StatusKey], status, rec[MonthlyFeeKey]);
    }
  }

  /** Overwriting `status` changes only the status the constructor is given. */
  lemma ConstructOfStatusUpdate(rec: Record, status: Value)
    requires HasFields(rec)
    ensures HasFields(rec[StatusKey := status])
    ensures InterestRateKey in rec ==>
      Construct(rec[StatusKey := status])
      == NewSavings(rec[AccountNumberKey], rec[BalanceKey], rec[HolderKey], rec[CurrencyKey], status,
                    rec[WithdrawalLimitKey], rec[InterestRateKey])
    ensures InterestRateKey !in rec ==>
      Construct(rec[StatusKey := status])
      == NewChecking(rec[AccountNumberKey], rec[BalanceKey], rec[HolderKey], rec[CurrencyKey], status,
                     rec[MonthlyFeeKey])
  {
  }


  /** Re-validating the fields of a live base gives the same base back, provided
      its account number has twelve digits. */
  lemma {:induction false} NewBaseOfFields(b: Base)
    requires ValidBase(b)
    ensures NewBase(Int(b.accountNumber), Float(b.balance), Str(b.holder), Str(b.currency), Str(b.status))
            == if b.accountNumber >= Pow10(11) then Success(b) else Failure(BadAccountNumber)
  {
    StoredFieldsAccepted(b);
  }

  /** The stored fields of a live base other than its number are accepted again
      as they are; the number is, exactly when it has twelve digits. */
  lemma StoredFieldsAccepted(b: Base)
    requires ValidBase(b)
    ensures ValidateAccountNumber(Int(b.accountNumber))
            == if b.accountNumber >= Pow10(11) then Success(b.accountNumber) else Failure(BadAccountNumber)
    ensures ValidateBalance(Float(b.balance)) == Success(b.balance)
    ensures ValidateHolder(Str(b.holder)) == Success(b.holder)
    ensures ValidateCurrency(Str(b.currency)) == Success(b.currency)
    ensures ValidateStatus(Str(b.status)) == Success(b.status)
  {
    StoredNumberAccepted(b.accountNumber);
    StoredBalanceHolderAccepted(b.balance, b.holder);
    StoredChoicesAccepted(b.currency, b.status);
  }

  lemma StoredNumberAccepted(number: int)
    requires 0 < number < Pow10(12)
    ensures ValidateAccountNumber(Int(number))
            == if number >= Pow10(11) then Success(number) else Failure(BadAccountNumber)
  {
  }

  lemma StoredBalanceHolderAccepted(balance: real, holder: string)
    requires balance >= 0.0 && IsHolderName(holder)
    ensures ValidateBalance(Float(balance)) == Success(balance)
    ensures ValidateHolder(Str(holder)) == Success(holder)
  {
  }

  lemma StoredChoicesAccepted(currency: string, status: string)
    requires currency in Currencies && status in Statuses
    ensures ValidateCurrency(Str(currency)) == Success(currency)
    ensures ValidateStatus(Str(status)) == Success(status)
  {
    NamesAreLowerCase(currency);
    LowerWordFixed(currency);
    NamesAreLowerCase(status);
    LowerWordFixed(status);
  }

  /** The constructor run on the record `toDict` writes gives the account back
      exactly when its account number has twelve digits. */
  lemma ReconstructValid(a: Account)
    requires ValidAccount(a)
    ensures HasFields(ToRecord(a))
    ensures Construct(ToRecord(a)) == if a.base.accountNumber >= Pow10(11) then Success(a) else Failure(BadAccountNumber)
  {
    var b := a.base;
    RebuildReadsFields(a);
    NewBaseOfFields(b);
    match a
    case Savings(_, limit, rate) =>
      assert NonNegativeNumber(Float(limit)) && NonNegativeNumber(Float(rate));
    case Checking(_, fee) =>
      assert ValidateMonthlyFee(Float(fee)) == Success(fee);
  }

  /** The record `toDict` writes has every field `readAccount` copies, and the
      constructor run on it is the account's own class's constructor on its
      fields, each in the kind of value `toDict` wrote. */
  lemma RebuildReadsFields(a: Account)
    ensures HasFields(ToRecord(a))
    ensures Construct(ToRecord(a)) == match a
      case Savings(b, limit, rate) =>
        NewSavings(Int(b.accountNumber), Float(b.balance), Str(b.holder), Str(b.currency), Str(b.status),
                   Float(limit), Float(rate))
      case Checking(b, fee) =>
        NewChecking(Int(b.accountNumber), Float(b.balance), Str(b.holder), Str(b.currency), Str(b.status),
                    Float(fee))
  {
    var rec := ToRecord(a);
    assert rec[AccountNumberKey] == Int(a.base.accountNumber);
    assert rec[BalanceKey] == Float(a.base.balance);
    assert rec[HolderKey] == Str(a.base.holder);
    assert rec[CurrencyKey] == Str(a.base.currency);
    assert rec[StatusKey] == Str(a.base.status);
    if a.Savings? {
      assert rec[WithdrawalLimitKey] == Float(a.withdrawalLimit);
      assert rec[InterestRateKey] == Float(a.interestRate);
    } else {
      assert rec[MonthlyFeeKey] == Float(a.monthlyFee);
    }
  }

  /** Saving an account and reading it back gives the same account, of the same
      class, exactly when its account number has twelve digits; an account made
      from a text such as "012345678901" is stored but can no longer be read. */
  lemma {:induction false} RebuildToRecord(a: Account)
    requires ValidAccount(a)
    ensures RebuildAccount(ToRecord(a))
            == if a.base.accountNumber >= Pow10(11) then Success(a) else Failure(Rejected(BadAccountNumber))
  {
    ReconstructValid(a);
    RebuildConstructs(ToRecord(a));
  }
}
