/**
 * `AccountManagement`: create, read, update and delete over the accounts file.
 * Each operation of the source loads the whole file, changes the loaded
 * dictionary in place and saves it back; here the file's content is the field
 * `data`, and each method reassigns it once.
 */
module Store {
  import opened Wrappers
  import opened Numbers
  import opened Validation
  import opened Accounts

  /** The content of the accounts file: account-number text to record. */
  type Collection = map<string, Record>

  /** What an operation reports to the operator. */
  datatype Outcome = Saved | AlreadyExists | StatusUpdated | Deleted | NotFound

  /** The key an account is stored under: the text of its account number. */
  function AccountKey(a: Account): (key: string)
    requires ValidAccount(a)
    ensures ParseInt(key) == Some(a.base.accountNumber)
  {
    ParseIntText(a.base.accountNumber);
    IntText(a.base.accountNumber)
  }

  /** `readData`: a file that does not exist reads as the empty collection. */
  function Load(file: Option<Collection>): (c: Collection)
    ensures file.None? ==> c == map[]
    ensures file.Some? ==> c == file.value
  {
    match file
    case None => map[]
    case Some(content) => content
  }

  // ------------------------------------------------------------ the four operations on values

  /** The collection after `createAccount`: a new key gets the account's record;
      an existing key is left alone. */
  function Insert(c: Collection, a: Account): (r: Collection)
    requires ValidAccount(a)
    ensures AccountKey(a) in c ==> r == c
    ensures AccountKey(a) !in c ==>
      && r.Keys == c.Keys + {AccountKey(a)}
      && r[AccountKey(a)] == ToRecord(a)
      && forall key :: key in c ==> r[key] == c[key]
  {
    var key := AccountKey(a);
    if key in c then c else c[key := ToRecord(a)]
  }

  /** The collection after `updateAccount`: the record under `key`, if any, gets
      `status` overwritten with the value as given, without validation. */
  function WithStatus(c: Collection, key: string, status: Value): (r: Collection)
    ensures key !in c ==> r == c
    ensures r.Keys == c.Keys
    ensures key in c ==> r[key] == c[key][StatusKey := status]
    ensures forall other :: other in c && other != key ==> r[other] == c[other]
  {
    if key in c then c[key := c[key][StatusKey := status]] else c
  }

  /** The collection after `deleteAccount`: the key, if present, is gone. */
  function Without(c: Collection, key: string): (r: Collection)
    ensures key !in c ==> r == c
    ensures r.Keys == c.Keys - {key}
    ensures forall other :: other in r ==> r[other] == c[other]
  {
    if key in c then c - {key} else c
  }

  // ------------------------------------------------------------ the store

  class AccountManagement {
    /** The current content of the accounts file. */
    var data: Collection

    /** `AccountManagement(file)`; `None` stands for a file that does not exist yet. */
    constructor (file: Option<Collection>)
      ensures data == Load(file)
    {
      data := Load(file);
    }

    /** `createAccount`: refuses an account number that is already stored. */
    method CreateAccount(account: Account) returns (outcome: Outcome)
      requires ValidAccount(account)
      modifies this
      ensures data == Insert(old(data), account)
      ensures outcome == if AccountKey(account) in old(data) then AlreadyExists else Saved
    {
      var loaded := data;
      var key := AccountKey(account);
      if key !in loaded {
        loaded := loaded[key := ToRecord(account)];
        data := loaded;
        outcome := Saved;
      } else {
        outcome := AlreadyExists;
      }
    }

    /** `readAccount`: rebuilds the entity from the stored record, if there is one. */
    method ReadAccount(key: string) returns (r: Result<Account, ReadError>)
      ensures key !in data ==> r == Failure(NoSuchAccount)
      ensures key in data ==> r == RebuildAccount(data[key])
      ensures r.Success? ==> ValidAccount(r.value)
    {
      var loaded := data;
      if key in loaded {
        r := RebuildAccount(loaded[key]);
      } else {
        r := Failure(NoSuchAccount);
      }
    }

    /** `updateAccount`: overwrites the stored `status` and nothing else. */
    method UpdateAccount(key: string, newStatus: Value) returns (outcome: Outcome)
      modifies this
      ensures data == WithStatus(old(data), key, newStatus)
      ensures outcome == if key in old(data) then StatusUpdated else NotFound
    {
      var loaded := data;
      if key in loaded {
        loaded := loaded[key := loaded[key][StatusKey := newStatus]];
        data := loaded;
        outcome := StatusUpdated;
      } else {
        outcome := NotFound;
      }
    }

    /** `deleteAccount`: removes the key outright. */
    method DeleteAccount(key: string) returns (outcome: Outcome)
      modifies this
      ensures data == Without(old(data), key)
      ensures outcome == if key in old(data) then Deleted else NotFound
    {
      var loaded := data;
      if key in loaded {
        loaded := loaded - {key};
        data := loaded;
        outcome := Deleted;
      } else {
        outcome := NotFound;
      }
    }
  }

  // ------------------------------------------------------------ the collection invariant

  /** Every stored record can be read back, under the key of the account it holds. */
  predicate Readable(c: Collection) {
    forall key :: key in c ==>
      RebuildAccount(c[key]).Success? && IntText(RebuildAccount(c[key]).value.base.accountNumber) == key
  }

  /** A collection that starts empty (a missing file) is readable. */
  lemma LoadMissingReadable()
    ensures Readable(Load(None))
  {
  }

  /** `createAccount` keeps every record readable exactly when the new account's
      number has twelve digits; one made from "012345678901" is stored under the
      key "12345678901" and cannot be read back. */
  lemma {:induction false} InsertReadable(c: Collection, a: Account)
    requires Readable(c) && ValidAccount(a) && AccountKey(a) !in c
    ensures Readable(Insert(c, a)) <==> a.base.accountNumber >= Pow10(11)
  {
    var key, rec := AccountKey(a), ToRecord(a);
    RebuildToRecord(a);
    assert Insert(c, a) == c[key := rec];
    if a.base.accountNumber >= Pow10(11) {
      assert RebuildAccount(rec) == Success(a);
      ReadableReplace(c, key, rec);
    } else {
      assert RebuildAccount(c[key := rec][key]).Failure?;
    }
  }

  /** Reading an account just created gives it back, if its number has twelve digits. */
  lemma {:induction false} ReadAfterCreate(c: Collection, a: Account)
    requires ValidAccount(a) && AccountKey(a) !in c
    ensures RebuildAccount(Insert(c, a)[AccountKey(a)])
            == if a.base.accountNumber >= Pow10(11) then Success(a) else Failure(Rejected(BadAccountNumber))
  {
    RebuildToRecord(a);
  }

  /** Rewriting `status` in a readable record: the account read back is the old
      one with the new status lower-cased, or the read fails on the status. */
  lemma {:induction false} RebuildWithStatus(rec: Record, status: Value)
    requires RebuildAccount(rec).Success?
    ensures var before := RebuildAccount(rec).value;
            RebuildAccount(rec[StatusKey := status])
            == match ValidateStatus(status)
               case Success(s) => Success(before.(base := before.base.(status := s)))
               case Failure(_) => Failure(Rejected(BadStatus))
  {
    RebuildConstructs(rec);
    RebuildConstructs(rec[StatusKey := status]);
    ConstructWithStatus(rec, status);
  }

  /** `updateAccount` keeps every record readable exactly when the new status is
      one the status validator accepts (as the menu checks before calling it). */
  lemma {:induction false} WithStatusReadable(c: Collection, key: string, status: Value)
    requires Readable(c) && key in c
    ensures Readable(WithStatus(c, key, status)) <==> ValidateStatus(status).Success?
  {
    var rec := c[key][StatusKey := status];
    assert WithStatus(c, key, status) == c[key := rec];
    RebuildWithStatus(c[key], status);
    if ValidateStatus(status).Success? {
      ReadableReplace(c, key, rec);
    } else {
      assert RebuildAccount(c[key := rec][key]).Failure?;
    }
  }

  /** Replacing one record of a readable collection by a record that reads back
      under the same key keeps it readable. */
  lemma {:induction false} ReadableReplace(c: Collection, key: string, rec: Record)
    requires Readable(c)
    requires RebuildAccount(rec).Success? && IntText(RebuildAccount(rec).value.base.accountNumber) == key
    ensures Readable(c[key := rec])
  {
    var r := c[key := rec];
    forall other | other in r
      ensures RebuildAccount(r[other]).Success? && IntText(RebuildAccount(r[other]).value.base.accountNumber) == other
    {
      if other != key {
        assert r[other] == c[other];
      }
    }
  }

  /** `deleteAccount` keeps every record readable. */
  lemma {:induction false} WithoutReadable(c: Collection, key: string)
    requires Readable(c)
    ensures Readable(Without(c, key))
  {
    var r := Without(c, key);
    forall other | other in r
      ensures RebuildAccount(r[other]).Success? && IntText(RebuildAccount(r[other]).value.base.accountNumber) == other
    {
      assert r[other] == c[other];
    }
  }

  /** Deleting twice is deleting once: the second delete finds nothing. */
  lemma WithoutIdempotent(c: Collection, key: string)
    ensures key !in Without(c, key)
    ensures Without(Without(c, key), key) == Without(c, key)
  {
  }
}
