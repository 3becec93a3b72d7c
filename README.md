# Bank accounts with validated fields over a flat accounts file

This project models the core of `Laboratorio.py`. That file is a small bank-account tool with three parts:

- a `BankAccount` entity with two subclasses, `SavingsAccount` and `CheckingAccount`. Each field is validated when an account is constructed and every time a setter changes it.
- `toDict`, which turns an account into a flat record.
- `AccountManagement`, which creates, reads, updates and deletes records in a JSON object keyed by the account number's text.

The model has seven modules:

- `Wrappers`: the `Option` and `Result` types.
- `Text`: Python's `str.lower`, `str.replace(" ", "")` and `str.isalpha` on Latin-1 text.
- `Numbers`: Python's `int(text)`, `float(text)` and `str(n)` on signed decimal numerals.
- `Validation`: the eight field validators. Each returns the normalised value or that field's error. In the source, every inner `raise` of a validator is caught by its own `except` and re-raised as that field's `ValueError`; for the currency and the status, that message embeds the inner one. The model keeps one error per field.
- `Accounts`: the entity as the value `Account = Savings(base, withdrawalLimit, interestRate) | Checking(base, monthlyFee)`. It holds the constructors in declaration order, with the first failing field reported. It also holds the setters, `toDict` as a map from record keys to values, and the rebuilding of an entity from a stored record that `readAccount` performs.
- `Store`: the class `AccountManagement`. Its field `data` is the content of the accounts file, and `createAccount`, `updateAccount` and `deleteAccount` are methods that reassign it. Each of these is proved against a function on collections: `Insert`, `WithStatus` and `Without`. `readAccount` leaves `data` as it is and returns `RebuildAccount` of the stored record. An invariant, `Readable`, says that every stored record reads back under its own key. The store's lemmas say which operations preserve it.
- `Scenarios`: the documented examples, plus a create / read / delete session against a store that starts with no file.

Two behaviours of the code are kept as written and proved:

- **The currency ranges are never applied.** `validateWithdrawalLimit` and `validateInterestRate` compare the account's currency with `"Pesos"`, `"Dolares"`, `"Euros"` and `"Guaranies"`. A stored currency is always lower case, so these comparisons never succeed. Any non-negative number is accepted; see `Validation.RangeChecksUnreachable`. The range table the comparisons evidently meant to enforce is written out separately as `Validation.IntendedWithdrawalRange`, `Validation.IntendedInterestRange` and the two `...Intended` validators. These are a labelled deviation that the entity model does not use. `Validation.RangeTableIgnored` shows the gap: a value of 0 passes for every currency.
- **A leading zero is accepted but cannot be read back.** `validateAccountNumber` checks the length of the text as typed, not of the number. So `"012345678901"` is accepted and stored as the eleven-digit number 12345678901. `createAccount` files it under the key `"12345678901"`. `readAccount` then re-validates that stored number, finds eleven digits and rejects it. See `Validation.StoredUnderTypedText`, `Accounts.RebuildToRecord` and `Store.InsertReadable`. Two store operations can break the `Readable` invariant. One is creating an account with such a short number. The other is updating an account with a status the validator rejects, which the menu prevents; see `Store.WithStatusReadable`.

## Model

| member | source | states |
|---|---|---|
| `Validation.ValidateAccountNumber` | Laboratorio.py:60-69 | an accepted number is positive and below 10^12; a JSON integer is accepted exactly when it has twelve digits, and is kept as it is; every failure is the account-number error |
| `Validation.AccountNumberTextAccepted` | Laboratorio.py:60-69 | a text is accepted exactly when it is twelve characters long, is all digits or `+` followed by digits, and is not all zeros |
| `Validation.StoredAccountNumberDigits` | Laboratorio.py:62-63 | the number stored for an accepted text has twelve digits exactly when the text starts with a non-zero digit |
| `Validation.StoredUnderTypedText` | Laboratorio.py:232-234 | an accepted text equals the text of the stored number, which is the file key, exactly when it starts with a non-zero digit |
| `Numbers.ParseNatural` | Laboratorio.py:62 | a text parses as a natural number exactly when it is a non-empty run of ASCII digits |
| `Numbers.ParseInt` | Laboratorio.py:62 | `int(s)` succeeds exactly when the part after an optional sign is a non-empty run of ASCII digits; the magnitude is the value of those digits; after a minus sign the result is that value negated, and otherwise it is not negative |
| `Numbers.NatText` | Laboratorio.py:233 | `str(n)` of a natural number is a non-empty run of digits, starting with `0` only for zero |
| `Numbers.IntText` | Laboratorio.py:63 | `str(n)` starts with a minus sign exactly for a negative number, and the digits after it have no leading zero unless the number is zero |
| `Numbers.ParseIntText` | Laboratorio.py:62-63 | `int(str(n)) == n` for every integer |
| `Numbers.TwelveDigitText` | Laboratorio.py:63-65 | a positive integer's decimal text has twelve characters exactly when 10^11 <= n < 10^12 |
| `Numbers.NatTextLength` | Laboratorio.py:63 | for k >= 1, the decimal text of n has at most k characters exactly when n < 10^k |
| `Numbers.CanonicalNumeralText` | Laboratorio.py:233 | `str(int(s)) == s` for a digit string without a leading zero |
| `Numbers.DigitsValuePositive` | Laboratorio.py:65 | a numeral denotes a positive number exactly when one of its digits is not '0' |
| `Numbers.LeadingDigitMagnitude` | Laboratorio.py:62-63 | a twelve-digit numeral denotes at least 10^11 exactly when its first digit is not '0' |
| `Numbers.ParseRealExtendsParseInt` | Laboratorio.py:53 | `float(s)` agrees with `int(s)` on every integer numeral |
| `Numbers.ParseUnsignedReal` | Laboratorio.py:53 | an unsigned numeral parses to a non-negative real |
| `Numbers.ParseReal` | Laboratorio.py:53 | `float(s)` succeeds exactly when the part after an optional sign is an unsigned numeral; the magnitude is that numeral's value; after a minus sign the result is that value negated, and otherwise it is not negative |
| `Validation.ToFloat` | Laboratorio.py:53 | `float(v)` of a JSON integer or float is that number; of the text of an integer, it is that integer |
| `Validation.ValidateBalance` | Laboratorio.py:51-58 | success exactly when the value converts with `float` and is not negative; the result is the converted value; otherwise the balance error |
| `Validation.NegativeTextRejected` | Laboratorio.py:51-58 | a positive amount typed after a minus sign converts to that amount negated, and the balance, monthly-fee, withdrawal-limit and interest-rate validators all reject it |
| `Text.Lower` | Laboratorio.py:81 | lower-casing keeps the length |
| `Text.LowerAt` | Laboratorio.py:81 | each character of the lower-cased text is its own lower-cased character |
| `Text.LowerIdempotent` | Laboratorio.py:81 | lower-casing twice is lower-casing once |
| `Text.LowerChar` | Laboratorio.py:81 | lower-casing keeps letters letters and maps A-Z onto a-z |
| `Text.RemoveSpaces` | Laboratorio.py:73 | `replace(" ", "")` never lengthens the text, leaves no space, and leaves a text without spaces unchanged |
| `Text.IsAlpha` | Laboratorio.py:73 | `isalpha()` never holds of a text that contains a space |
| `Text.RemoveSpacesContents` | Laboratorio.py:73 | `replace(" ", "")` leaves no space, keeps only characters of the input, and keeps every non-space character |
| `Validation.HolderNameCheck` | Laboratorio.py:73 | "non-empty and alphabetic once spaces are removed" is the same as "some non-space character, and every character a space or a letter" |
| `Validation.ValidateHolder` | Laboratorio.py:71-77 | success exactly when the value is a text that is a holder name; the name is stored unchanged; otherwise the holder error |
| `Validation.ValidateChoice` | Laboratorio.py:79-95 | success exactly when the value is a text whose lower-cased form is one of the names; the result is that lower-cased form |
| `Validation.ValidateCurrency` | Laboratorio.py:79-86 | the stored currency is one of the four names and is already lower case; otherwise the currency error |
| `Validation.ValidateStatus` | Laboratorio.py:88-95 | the stored status is `active` or `inactive` and is already lower case; otherwise the status error |
| `Validation.NamesAreLowerCase` | Laboratorio.py:82 | every accepted currency and status name is a lower-case ASCII word |
| `Validation.LowerMatchesWord` | Laboratorio.py:81-82 | a text lower-cases to a given lower-case word exactly when it spells that word in any mix of cases |
| `Validation.ChoiceCaseInsensitive` | Laboratorio.py:81-82 | matching against lower-case names accepts exactly the texts that spell one of them in any case |
| `Validation.CurrencyCaseInsensitive` | Laboratorio.py:79-86 | a currency text is accepted exactly when it spells one of the four names in any case |
| `Validation.StatusCaseInsensitive` | Laboratorio.py:88-95 | a status text is accepted exactly when it spells `active` or `inactive` in any case |
| `Validation.ValidateWithdrawalLimit` | Laboratorio.py:128-147 | as written: an accepted limit is the converted value and is not negative; every failure is the withdrawal-limit error |
| `Validation.ValidateInterestRate` | Laboratorio.py:149-168 | as written: an accepted rate is the converted value and is not negative; every failure is the interest-rate error |
| `Validation.NotCapitalisedName` | Laboratorio.py:133-144 | a lower-cased text is none of the capitalised names the range checks compare against |
| `Validation.RangeChecksUnreachable` | Laboratorio.py:128-168 | for a lower-case currency, both checks accept exactly the non-negative numbers |
| `Validation.ValidateMonthlyFee` | Laboratorio.py:189-198 | success exactly when the value converts and lies in [0, 20], both bounds included; the result is the converted value |
| `Validation.RevalidationKeepsValue` | Laboratorio.py:51-95 | validating an accepted value again gives the same value, for balance, holder, currency, status and fee |
| `Validation.IntendedWithdrawalRange` | Laboratorio.py:133-144 | labelled deviation: the per-currency withdrawal range the comparisons name is a proper positive interval |
| `Validation.IntendedInterestRange` | Laboratorio.py:154-165 | labelled deviation: the per-currency interest range the comparisons name is a proper positive interval |
| `Validation.ValidateWithdrawalLimitIntended` | Laboratorio.py:128-147 | labelled deviation: accepted exactly when the value converts with `float` and lies in the currency's range, both bounds included; the result is the converted value; otherwise the withdrawal-limit error; what it accepts, the code as written accepts too |
| `Validation.ValidateInterestRateIntended` | Laboratorio.py:149-168 | labelled deviation: accepted exactly when the value converts with `float` and lies in the currency's range, both bounds included; the result is the converted value; otherwise the interest-rate error; what it accepts, the code as written accepts too |
| `Validation.RangeTableIgnored` | Laboratorio.py:128-168 | for every currency, 0 is accepted as written and rejected by the intended range |
| `Accounts.ValidBase` | Laboratorio.py:4-9 | the invariant of a live `BankAccount`'s fields: the balance and the holder of a base that satisfies it pass their validators again unchanged |
| `Accounts.ValidAccount` | Laboratorio.py:106-110 | the invariant of a live savings or checking account: the base is valid, a savings account's limit and rate are non-negative numbers, and a checking account's fee passes its validator again unchanged |
| `Accounts.NewBase` | Laboratorio.py:4-9 | a constructed base is valid and holds what each validator returned; it succeeds whenever all five validators do; it fails with a field's error exactly when every earlier field passed and that field failed |
| `Accounts.NewSavings` | Laboratorio.py:106-110 | success exactly when the base succeeds and both extras are non-negative numbers; the result is a valid savings account holding those values; otherwise the first failing field's error |
| `Accounts.NewChecking` | Laboratorio.py:176-179 | success exactly when the base succeeds and the fee validates; the result is a valid checking account; otherwise the first failing field's error |
| `Accounts.LowerCaseCurrency` | Laboratorio.py:8 | a stored currency is its own lower-cased form |
| `Accounts.ToRecord` | Laboratorio.py:97-104 | the record has the five base keys plus the subclass's own keys, and it has `interest_rate` exactly for a savings account |
| `Accounts.RecordFields` | Laboratorio.py:170-174 | the record holds each field of the account under its key, for base and subclass fields |
| `Accounts.SavingsToDict` | Laboratorio.py:170-174 | constructing a savings account and calling `toDict` gives back every field as validated: the holder as given, the choices lower-cased, the numbers as parsed |
| `Accounts.CheckingToDict` | Laboratorio.py:200-203 | the same round trip for a checking account |
| `Accounts.SetBalance` | Laboratorio.py:31-33 | succeeds exactly when the balance validates; then the account stays valid and its record changes under `balance` only |
| `Accounts.SetAccountNumber` | Laboratorio.py:35-37 | succeeds exactly when the number validates; only `account_number` changes |
| `Accounts.SetHolder` | Laboratorio.py:39-41 | succeeds exactly when the holder validates; only `holder` changes |
| `Accounts.SetCurrency` | Laboratorio.py:43-45 | succeeds exactly when the currency validates; only `currency` changes, to the lower-cased name |
| `Accounts.SetStatus` | Laboratorio.py:47-49 | succeeds exactly when the status validates; only `status` changes |
| `Accounts.SetWithdrawalLimit` | Laboratorio.py:120-122 | succeeds exactly when the value is a non-negative number; only `withdrawal_limit` changes |
| `Accounts.SetInterestRate` | Laboratorio.py:124-126 | succeeds exactly when the value is a non-negative number; only `interest_rate` changes |
| `Accounts.SetMonthlyFee` | Laboratorio.py:185-187 | succeeds exactly when the fee validates; only `monthly_fee` changes |
| `Accounts.Field` | Laboratorio.py:249-253 | reading a key succeeds exactly when it is in the record; a missing key is reported as that missing field |
| `Accounts.RebuildAccount` | Laboratorio.py:248-262 | a rebuilt account is valid, and is a savings account exactly when the record has `interest_rate`; a failure is never "no such account" |
| `Accounts.RebuildConstructs` | Laboratorio.py:256-262 | a record reads back only if it has all the fields its class needs, and then the outcome is that class's constructor on them |
| `Accounts.NewBaseWithStatus` | Laboratorio.py:4-9 | constructing a base with another status gives the same base with the new status lower-cased, or the status error |
| `Accounts.ConstructWithStatus` | Laboratorio.py:278 | overwriting the stored status changes the rebuilt account's status only, or makes it fail with the status error |
| `Accounts.NewBaseOfFields` | Laboratorio.py:248-254 | re-validating a live base's own fields gives it back exactly when its number has twelve digits |
| `Accounts.ReconstructValid` | Laboratorio.py:256-262 | the constructor `readAccount` runs on the record `toDict` wrote gives the account back exactly when its number has twelve digits, and the account-number error otherwise |
| `Accounts.RebuildReadsFields` | Laboratorio.py:248-262 | the record `toDict` wrote has every field `readAccount` copies, and the constructor run on it is the account's own class's constructor on its fields |
| `Accounts.RebuildToRecord` | Laboratorio.py:242-262 | saving an account and reading it back gives the same account, of the same class, exactly when its number has twelve digits; otherwise the account-number error |
| `Store.AccountKey` | Laboratorio.py:233-234 | the key an account is filed under parses back to its number |
| `Store.Load` | Laboratorio.py:209-218 | a missing file reads as the empty collection; an existing one as its content |
| `Store.Insert` | Laboratorio.py:229-240 | an existing key leaves the collection unchanged; otherwise exactly the new key is added, holding the account's record, and every other record is kept |
| `Store.WithStatus` | Laboratorio.py:274-285 | an absent key changes nothing; otherwise only that record's `status` is overwritten, with the value as given; the keys and every other record are kept |
| `Store.Without` | Laboratorio.py:287-298 | an absent key changes nothing; otherwise exactly that key is removed and every other record is kept |
| `Store.AccountManagement.constructor` | Laboratorio.py:205-218 | the store starts from the file's content, or from nothing when there is no file |
| `Store.AccountManagement.CreateAccount` | Laboratorio.py:229-240 | the new content is `Insert` of the old; the outcome reports "already exists" exactly when the key was present |
| `Store.AccountManagement.ReadAccount` | Laboratorio.py:242-272 | changes nothing; an absent key gives "no such account"; otherwise the result is the record rebuilt, and a rebuilt account is valid |
| `Store.AccountManagement.UpdateAccount` | Laboratorio.py:274-285 | the new content is `WithStatus` of the old; the outcome reports "not found" exactly when the key was absent |
| `Store.AccountManagement.DeleteAccount` | Laboratorio.py:287-298 | the new content is `Without` of the old; the outcome reports "not found" exactly when the key was absent |
| `Store.LoadMissingReadable` | Laboratorio.py:213-214 | the empty collection from a missing file is readable |
| `Store.InsertReadable` | Laboratorio.py:229-240 | adding an account to a readable collection keeps it readable exactly when the account's number has twelve digits |
| `Store.ReadAfterCreate` | Laboratorio.py:242-262 | reading an account just created gives it back, or the account-number error when its number is shorter than twelve digits |
| `Store.RebuildWithStatus` | Laboratorio.py:274-285 | after a status update, a stored account reads back with the new status lower-cased, or fails with the status error |
| `Store.WithStatusReadable` | Laboratorio.py:274-285 | an update keeps the collection readable exactly when the new status is one the status validator accepts |
| `Store.ReadableReplace` | Laboratorio.py:242-262 | replacing one record with one that reads back under the same key keeps the collection readable |
| `Store.WithoutReadable` | Laboratorio.py:287-298 | deleting keeps the collection readable |
| `Store.WithoutIdempotent` | Laboratorio.py:287-298 | after a delete the key is absent, and deleting again changes nothing |
| `Scenarios.AccountNumberExamples` | Laboratorio.py:60-69 | `"123456789012"` is accepted |
| `Scenarios.AccountNumberCounterExamples` | Laboratorio.py:60-69 | `"12345"`, `"1234567890123"`, `0` and `"-12345678901"` are rejected |
| `Scenarios.LeadingZeroExample` | Laboratorio.py:62-63 | `"012345678901"` is accepted, and the stored number's text is not twelve characters long |
| `Scenarios.HolderExamples` | Laboratorio.py:71-77 | `"Jane Doe"` is accepted unchanged |
| `Scenarios.HolderCounterExamples` | Laboratorio.py:71-77 | `"Jane123"`, the empty text and a text of spaces are rejected |
| `Scenarios.CurrencyExamples` | Laboratorio.py:79-86 | `"PESOS"` is accepted as `"pesos"` |
| `Scenarios.CurrencyCounterExample` | Laboratorio.py:79-86 | `"yen"` is rejected |
| `Scenarios.MonthlyFeeExamples` | Laboratorio.py:189-198 | a fee of `20` is accepted; `"20.01"` and `-1` are rejected |
| `Scenarios.AnaDiazNumber` | Laboratorio.py:60-69 | `"100000000001"` is accepted and filed under the same text |
| `Scenarios.NegativeBalanceExample` | Laboratorio.py:51-58 | the balance `"-2.5"` converts to -2.5 and is rejected |
| `Scenarios.BalanceOfNumeral` | Laboratorio.py:51-58 | a balance typed as the text of a whole number is read as that number |
| `Scenarios.AnaDiazAccepted` | Laboratorio.py:4-9 | the base fields of the documented savings example are accepted as typed, with the number filed under `"100000000001"` |
| `Scenarios.AnaDiazSavings` | Laboratorio.py:106-110 | the documented savings application, with extras 250.0 and 22.0, opens a valid savings account holding those extras, with a twelve-digit number |
| `Scenarios.NewBaseAccepts` | Laboratorio.py:4-9 | when every field validator succeeds, the base holds exactly their results |
| `Scenarios.CreateReadDeleteSession` | Laboratorio.py:229-298 | starting from no file, an account with a twelve-digit number is saved; the file then holds just its record; reading finds the same account; deleting succeeds; deleting again reports "not found"; the file ends empty |

## Left out

- `Main.py`, the interactive menu, is not part of this model. The model does not capture the screen clearing or the prompts. It also does not capture the menu validating a status before it calls `updateAccount`; that condition is stated as `Store.WithStatusReadable`.
- File input and output and JSON encoding are left out. The file's content is the store's `data`, and a missing file is `Load(None)`. The model does not include `readData`'s exception for a file that exists but does not parse, or `saveData` failing to write.
- Printed messages are not modelled. Each operation's outcome is a value: an `Outcome`, or a `ReadError` for a read.
- Python's `int(text)` and `float(text)` are modelled only for an optional sign followed by ASCII digits, with an optional decimal point for `float`. Surrounding whitespace, underscores between digits, exponents, `inf`, `nan` and non-ASCII digits are left out. Floating point is modelled as exact reals.
- `str.lower` and `str.isalpha` are modelled only for characters up to U+00FF.
- `Validation.ValidateAccountNumber` rejects every float. Python accepts a float whose text is twelve characters long, such as `1234567890.0`. Such a value reaches the validator only from a hand-edited file.
- `Validation.ValidateHolder` reports the holder error for any non-text value. Python also gives the holder error for a zero number, since `not holder` holds for it. For a non-zero number, Python raises `AttributeError` instead, and that is not a `ValueError`.
- A value read from the file is text, an integer or a float. JSON `true`, `false`, `null`, arrays and objects are not represented. Python's `float(True)` is 1.0, so a hand-edited `"balance": true` would read back as a balance of 1.0.
- Setters are functions from an account to a new account. The in-place update of the object and aliasing between references to it are not modelled.
- `createAccount` stores the record under the integer account number, and JSON turns that into its decimal text when the file is saved. The model stores it under the text directly.
- `updateAccount` and `deleteAccount` look the account number up as given, while `readAccount` looks up its text. So in the source an integer argument never matches a stored key in update or delete. The model takes every key as text, so it does not capture that mismatch.
- Records are maps over the eight keys the source writes. Any other key a hand-edited file might hold is not represented.
