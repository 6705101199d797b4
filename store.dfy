/**
  The database the views work on: the account table and the transaction table,
  each a sequence indexed by primary key, with the constraints the schema declares.
*/
module Store {
  import opened Wrappers
  import opened Accounts
  import opened Transactions
  import opened Errors

  datatype Db = Db(accounts: seq<Account>, records: seq<Transaction>)

  /** The database an operation leaves behind: its result, or the database unchanged when refused. */
  function Apply(db: Db, r: Result<Db, Error>): Db {
    if r.Success? then r.value else db
  }

  /** A record's foreign keys name existing accounts. */
  predicate Refers(n: nat, t: Transaction) {
    t.account < n && (t.toAccount.Some? ==> t.toAccount.value < n)
  }

  /** account_number is unique, each user has at most one account (a one-to-one field),
      and every record's foreign keys resolve. */
  predicate Valid(db: Db) {
    && (forall i, j :: 0 <= i < j < |db.accounts| ==> db.accounts[i].number != db.accounts[j].number)
    && (forall i, j :: 0 <= i < j < |db.accounts| ==> db.accounts[i].user.id != db.accounts[j].user.id)
    && (forall k :: 0 <= k < |db.records| ==> Refers(|db.accounts|, db.records[k]))
  }

  /** In a valid database an account number, and a user, each identify at most one account. */
  lemma ValidIdentifies(db: Db, i: AccountId, j: AccountId)
    requires Valid(db) && i < |db.accounts| && j < |db.accounts|
    ensures db.accounts[i].number == db.accounts[j].number ==> i == j
    ensures db.accounts[i].user.id == db.accounts[j].user.id ==> i == j
  {
    if i < j {
      assert db.accounts[i].number != db.accounts[j].number;
    } else if j < i {
      assert db.accounts[j].number != db.accounts[i].number;
    }
  }

  /** `account.save(update_fields=['balance'])`: only the balance column of one row is written. */
  function WriteBalance(accounts: seq<Account>, id: AccountId, balance: int): (r: seq<Account>)
    requires id < |accounts|
    ensures |r| == |accounts|
    ensures r[id].balance == balance
    ensures r[id].accountType == accounts[id].accountType && r[id].isBankrupt == accounts[id].isBankrupt
    ensures forall i :: 0 <= i < |r| ==> r[i].user == accounts[i].user && r[i].number == accounts[i].number
    ensures forall i :: 0 <= i < |r| && i != id ==> r[i] == accounts[i]
  {
    accounts[id := accounts[id].(balance := balance)]
  }

  /** Writing a balance does not move any account number, so lookups by number find the same row. */
  lemma {:induction false} FindAfterWrite(accounts: seq<Account>, id: AccountId, balance: int, number: string)
    requires id < |accounts|
    ensures FindByNumber(WriteBalance(accounts, id, balance), number) == FindByNumber(accounts, number)
  {
    var w := WriteBalance(accounts, id, balance);
    if id > 0 {
      assert w[1..] == WriteBalance(accounts[1..], id - 1, balance);
      FindAfterWrite(accounts[1..], id - 1, balance, number);
    }
  }

  /** Writing balances keeps the database valid, since no key column changes. */
  lemma ValidAfterWrites(db: Db, accounts: seq<Account>, records: seq<Transaction>)
    requires Valid(db)
    requires |accounts| == |db.accounts|
    requires forall i :: 0 <= i < |accounts| ==> accounts[i].user == db.accounts[i].user && accounts[i].number == db.accounts[i].number
    requires forall k :: 0 <= k < |records| ==> Refers(|accounts|, records[k])
    ensures Valid(Db(accounts, records))
  {
  }

  /** Two balance writes, the second one winning when both name the same row. */
  lemma WriteTwice(accounts: seq<Account>, a: AccountId, x: int, b: AccountId, y: int)
    requires a < |accounts| && b < |accounts|
    ensures var w := WriteBalance(WriteBalance(accounts, a, x), b, y);
      && |w| == |accounts|
      && w[b].balance == y
      && (a != b ==> w[a].balance == x)
      && (a == b ==> w == WriteBalance(accounts, a, y))
      && (forall i :: 0 <= i < |w| && i != a && i != b ==> w[i] == accounts[i])
      && (forall i :: 0 <= i < |w| ==> w[i].user == accounts[i].user && w[i].number == accounts[i].number)
  {
  }

  /** The money held by all accounts together. */
  function TotalBalance(accounts: seq<Account>): int {
    if accounts == [] then 0 else accounts[0].balance + TotalBalance(accounts[1..])
  }

  lemma {:induction false} TotalAfterWrite(accounts: seq<Account>, id: AccountId, balance: int)
    requires id < |accounts|
    ensures TotalBalance(WriteBalance(accounts, id, balance)) == TotalBalance(accounts) - accounts[id].balance + balance
  {
    var w := WriteBalance(accounts, id, balance);
    if id == 0 {
      assert w[1..] == accounts[1..];
    } else {
      assert w[1..] == WriteBalance(accounts[1..], id - 1, balance);
      TotalAfterWrite(accounts[1..], id - 1, balance);
    }
  }

  /** The records of one account. */
  function OwnedBy(id: AccountId): Transaction -> bool {
    (t: Transaction) => t.account == id
  }

  /** The LOAN records of one account that are approved (the loan view's count query). */
  function ApprovedLoanOf(id: AccountId): Transaction -> bool {
    (t: Transaction) => t.account == id && t.kind == Some(Loan) && t.loanApproved
  }

  function ApprovedLoanCount(records: seq<Transaction>, id: AccountId): (n: nat)
    ensures n <= |records|
    ensures n == 0 <==> forall t :: t in records ==> !(t.account == id && t.kind == Some(Loan) && t.loanApproved)
  {
    var w := Where(records, ApprovedLoanOf(id));
    assert w != [] ==> w[0] in w;
    |w|
  }

  /** Whether some account already has this number or belongs to this user. */
  function Taken(accounts: seq<Account>, user: User, number: string): (b: bool)
    ensures !b <==> forall i :: 0 <= i < |accounts| ==> accounts[i].number != number && accounts[i].user.id != user.id
  {
    exists i | 0 <= i < |accounts| :: accounts[i].number == number || accounts[i].user.id == user.id
  }

  /** `UserBankAccount.objects.create(...)`: a new row with balance 0.00 and not bankrupt; the
      unique constraints refuse a repeated account number or a second account for one user. */
  function OpenAccount(db: Db, user: User, accountType: string, number: string): (r: Result<Db, Error>)
    requires Valid(db)
    ensures r.Success? <==> forall i :: 0 <= i < |db.accounts| ==> db.accounts[i].number != number && db.accounts[i].user.id != user.id
    ensures r.Failure? ==> r.error == DuplicateAccount
    ensures r.Success? ==> Valid(r.value) && r.value.records == db.records
    ensures r.Success? ==> |r.value.accounts| == |db.accounts| + 1 && r.value.accounts[..|db.accounts|] == db.accounts
    ensures r.Success? ==> var a := r.value.accounts[|db.accounts|];
      a.user == user && a.number == number && a.accountType == accountType && a.balance == 0 && !a.isBankrupt
  {
    if Taken(db.accounts, user, number) then Failure(DuplicateAccount)
    else
      var accounts := db.accounts + [NewAccount(user, accountType, number)];
      assert accounts[..|db.accounts|] == db.accounts;
      Success(Db(accounts, db.records))
  }
}
