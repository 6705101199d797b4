/**
  What the transaction views (transactions/views.py) do to the database, as functions
  from the database before a request to the database after it. A refused request
  changes nothing (Store.Apply).
*/
module Views {
  import opened Wrappers
  import opened Accounts
  import opened Transactions
  import opened Errors
  import opened Forms
  import opened Store

  /** The loan view refuses when more than this many approved LOAN records exist. */
  const MaxApprovedLoans: nat := 3

  /** `accounts` is `before` with only account `id`'s balance moved by `delta`. */
  predicate Moved(before: seq<Account>, after: seq<Account>, id: AccountId, delta: int) {
    id < |before| && after == WriteBalance(before, id, before[id].balance + delta)
  }

  /** DepositView.form_valid: the balance rises by the amount and a DEPOSIT record holding the new
      balance is saved. */
  function MakeDeposit(db: Db, id: AccountId, amount: int, now: int): (r: Result<Db, Error>)
    requires Valid(db) && id < |db.accounts|
    ensures r.Success? <==> FitsField(amount) && amount >= MinDeposit
    ensures r.Failure? ==> r.error == (if FitsField(amount) then BelowMinimum else TooManyDigits)
    ensures r.Success? ==> Valid(r.value) && Moved(db.accounts, r.value.accounts, id, amount)
    ensures r.Success? ==> r.value.accounts[id].balance > db.accounts[id].balance
    ensures r.Success? ==>
      r.value.records == db.records + [NewTransaction(id, Deposit, amount, r.value.accounts[id].balance, now, None)]
  {
    match CleanDeposit(amount)
    case Failure(e) => Failure(e)
    case Success(amount) =>
      var account := db.accounts[id];
      var account := account.(balance := account.balance + amount);
      var accounts := WriteBalance(db.accounts, id, account.balance);
      Success(Db(accounts, db.records + [NewTransaction(id, Deposit, amount, account.balance, now, None)]))
  }

  /** WithdrawView.form_valid: the balance falls by the amount, never below zero, and a WITHDRAWAL
      record holding the new balance is saved. */
  function MakeWithdrawal(db: Db, id: AccountId, amount: int, now: int): (r: Result<Db, Error>)
    requires Valid(db) && id < |db.accounts|
    ensures r.Success? <==> CleanWithdraw(amount, db.accounts[id]).Success?
    ensures r.Failure? ==> r.error == CleanWithdraw(amount, db.accounts[id]).error
    ensures r.Success? ==> Valid(r.value) && Moved(db.accounts, r.value.accounts, id, -amount)
    ensures r.Success? ==> 0 <= r.value.accounts[id].balance < db.accounts[id].balance
    ensures r.Success? ==>
      r.value.records == db.records + [NewTransaction(id, Withdrawal, amount, r.value.accounts[id].balance, now, None)]
  {
    match CleanWithdraw(amount, db.accounts[id])
    case Failure(e) => Failure(e)
    case Success(amount) =>
      var account := db.accounts[id];
      var account := account.(balance := account.balance - amount);
      var accounts := WriteBalance(db.accounts, id, account.balance);
      Success(Db(accounts, db.records + [NewTransaction(id, Withdrawal, amount, account.balance, now, None)]))
  }

  /** LoanRequestsView.form_valid: the balance is never touched; a LOAN record that is not yet
      approved is saved unless the account already has more than three approved LOAN records. */
  function RequestLoan(db: Db, id: AccountId, amount: int, now: int): (r: Result<Db, Error>)
    requires Valid(db) && id < |db.accounts|
    ensures r.Success? <==>
      FitsField(amount) && amount <= LoanFactor * db.accounts[id].balance && ApprovedLoanCount(db.records, id) <= MaxApprovedLoans
    ensures r.Failure? ==> (r.error ==
      (if !FitsField(amount) then TooManyDigits
       else if amount > LoanFactor * db.accounts[id].balance then ExceedsLoanLimit
       else LoanLimitReached))
    ensures r.Success? ==> Valid(r.value) && r.value.accounts == db.accounts
    ensures r.Success? ==>
      r.value.records == db.records + [NewTransaction(id, Loan, amount, db.accounts[id].balance, now, None)]
  {
    match CleanLoan(amount, db.accounts[id])
    case Failure(e) => Failure(e)
    case Success(amount) =>
      if ApprovedLoanCount(db.records, id) > MaxApprovedLoans then Failure(LoanLimitReached)
      else Success(Db(db.accounts, db.records + [NewTransaction(id, Loan, amount, db.accounts[id].balance, now, None)]))
  }

  /** LoanPaidView.get: any approved record whose amount is strictly below its account's balance is
      paid. Neither the record's type nor its owner is checked; the same record becomes LOAN_PAID,
      stays approved, keeps its timestamp and holds the new balance. */
  function PayLoan(db: Db, loanId: nat): (r: Result<Db, Error>)
    requires Valid(db)
    ensures r.Success? <==>
      loanId < |db.records| && db.records[loanId].loanApproved &&
      db.records[loanId].amount < db.accounts[db.records[loanId].account].balance
    ensures r.Failure? ==> (r.error ==
      (if loanId >= |db.records| then NoSuchRecord
       else if !db.records[loanId].loanApproved then LoanNotApproved
       else NotEnoughToPayLoan))
    ensures r.Success? ==> var loan := db.records[loanId];
      && Valid(r.value)
      && Moved(db.accounts, r.value.accounts, loan.account, -loan.amount)
      && r.value.accounts[loan.account].balance > 0
      && |r.value.records| == |db.records|
      && (forall k :: 0 <= k < |db.records| && k != loanId ==> r.value.records[k] == db.records[k])
      && r.value.records[loanId] == loan.(kind := Some(LoanPaid), balanceAfter := r.value.accounts[loan.account].balance)
      && r.value.records[loanId].loanApproved
  {
    if loanId >= |db.records| then Failure(NoSuchRecord)
    else
      var loan := db.records[loanId];
      if !loan.loanApproved then Failure(LoanNotApproved)
      else
        var userAccount := db.accounts[loan.account];
        if !(loan.amount < userAccount.balance) then Failure(NotEnoughToPayLoan)
        else
          var userAccount := userAccount.(balance := userAccount.balance - loan.amount);
          var loan := loan.(balanceAfter := userAccount.balance);
          var accounts := WriteBalance(db.accounts, loan.account, userAccount.balance);
          var loan := loan.(loanApproved := true, kind := Some(LoanPaid));
          Success(Db(accounts, db.records[loanId := loan]))
  }

  /** TransferView.form_valid with TransferForm.save. The source and the destination are two
      separate copies of their rows; the source's balance is written first and the destination's
      second. A RECEIVE record goes on the destination, then the form saves a TRANSFER record on the
      source holding the source copy's balance. */
  function TransferMoney(db: Db, from: AccountId, number: string, amount: int, now: int): (r: Result<Db, Error>)
    requires Valid(db) && from < |db.accounts|
    ensures r.Success? <==>
      FitsField(amount) && FindByNumber(db.accounts, number).Some? && amount <= db.accounts[from].balance
    ensures r.Failure? ==> (r.error ==
      (if !FitsField(amount) then TooManyDigits
       else if FindByNumber(db.accounts, number).None? then InvalidAccountNumber
       else NotEnoughToTransfer))
    ensures r.Success? ==> Valid(r.value)
  {
    match CleanTransfer(amount, number, db.accounts)
    case Failure(e) => Failure(e)
    case Success(number) =>
      var fromAccount := db.accounts[from];
      if fromAccount.balance < amount then Failure(NotEnoughToTransfer)
      else
        var to := FindByNumber(db.accounts, number).value;
        var toAccount := db.accounts[to];
        var fromAccount := fromAccount.(balance := fromAccount.balance - amount);
        var toAccount := toAccount.(balance := toAccount.balance + amount);
        var received := NewTransaction(to, Receive, amount, toAccount.balance, now, Some(from));
        var accounts := WriteBalance(WriteBalance(db.accounts, from, fromAccount.balance), to, toAccount.balance);
        WriteTwice(db.accounts, from, fromAccount.balance, to, toAccount.balance);
        var sent := NewTransaction(from, Transfer, amount, fromAccount.balance, now, Some(to));
        var records := db.records + [received, sent];
        assert forall k :: 0 <= k < |records| ==> Refers(|accounts|, records[k]);
        ValidAfterWrites(db, accounts, records);
        Success(Db(accounts, records))
  }

  /** The database a successful transfer leaves, written out. */
  lemma TransferMoneyWritten(db: Db, from: AccountId, number: string, amount: int, now: int,
                             to: AccountId, fromBalance: int, toBalance: int)
    requires Valid(db) && from < |db.accounts|
    requires FitsField(amount) && FindByNumber(db.accounts, number) == Some(to) && amount <= db.accounts[from].balance
    requires fromBalance == db.accounts[from].balance - amount && toBalance == db.accounts[to].balance + amount
    ensures TransferMoney(db, from, number, amount, now) == Success(Db(
        WriteBalance(WriteBalance(db.accounts, from, fromBalance), to, toBalance),
        db.records + [NewTransaction(to, Receive, amount, toBalance, now, Some(from)),
                      NewTransaction(from, Transfer, amount, fromBalance, now, Some(to))]))
  {
  }

  /** What a transfer does to the balances and the records. Between two accounts the amount
      leaves the source, which stays non-negative, and reaches the destination, so their sum is
      unchanged. To the sender's own number the destination write wins and the balance rises by
      the amount, while the sender's TRANSFER record holds the lowered balance of the source copy.
      The RECEIVE record always holds the destination's new balance. */
  lemma TransferBalances(db: Db, from: AccountId, number: string, amount: int, now: int)
    requires Valid(db) && from < |db.accounts|
    requires TransferMoney(db, from, number, amount, now).Success?
    ensures var after := TransferMoney(db, from, number, amount, now).value;
      var to := FindByNumber(db.accounts, number).value;
      && |after.accounts| == |db.accounts|
      && after.records == db.records + [
           NewTransaction(to, Receive, amount, after.accounts[to].balance, now, Some(from)),
           NewTransaction(from, Transfer, amount, db.accounts[from].balance - amount, now, Some(to))]
      && (to != from ==>
        && after.accounts[from].balance == db.accounts[from].balance - amount >= 0
        && after.accounts[to].balance == db.accounts[to].balance + amount
        && after.accounts[from].balance + after.accounts[to].balance == db.accounts[from].balance + db.accounts[to].balance
        && (forall k :: 0 <= k < |db.accounts| && k != from && k != to ==> after.accounts[k] == db.accounts[k])
        && after.accounts[from] == db.accounts[from].(balance := db.accounts[from].balance - amount)
        && after.accounts[to] == db.accounts[to].(balance := db.accounts[to].balance + amount)
        && after.records[|db.records| + 1].balanceAfter == after.accounts[from].balance)
      && (to == from ==>
        && Moved(db.accounts, after.accounts, from, amount)
        && after.records[|db.records| + 1].balanceAfter == after.accounts[from].balance - 2 * amount)
  {
    var to := FindByNumber(db.accounts, number).value;
    TransferMoneyWritten(db, from, number, amount, now, to, db.accounts[from].balance - amount, db.accounts[to].balance + amount);
    WriteTwice(db.accounts, from, db.accounts[from].balance - amount, to, db.accounts[to].balance + amount);
  }

  /** What the report page shows: the records, and the figure shown beside them. */
  datatype ReportPage = ReportPage(records: seq<Transaction>, total: Option<int>)

  /** The records whose calendar day lies in [start, end], of any account. */
  function WithinDays(start: int, end: int): Transaction -> bool {
    (t: Transaction) => start <= Day(t.timestamp) <= end
  }

  /** The records of one account whose calendar day lies in [start, end]. */
  function OwnedWithin(id: AccountId, start: int, end: int): Transaction -> bool {
    (t: Transaction) => t.account == id && start <= Day(t.timestamp) <= end
  }

  /** `Sum('amount')`, which is NULL over no rows. */
  function Aggregate(s: seq<Transaction>): (total: Option<int>)
    ensures total.None? <==> |s| == 0
    ensures total.Some? ==> total.value == SumAmounts(s)
  {
    if s == [] then None else Some(SumAmounts(s))
  }

  /** TransactionReportView.get_queryset: the account's records in timestamp order, limited to the
      inclusive day range when both dates are given. The figure beside them is then the sum of
      the amounts of every account's records in that range; otherwise it is the account's balance. */
  function Report(db: Db, id: AccountId, start: Option<int>, end: Option<int>): (page: ReportPage)
    requires id < |db.accounts|
    ensures SortedByTime(page.records)
    ensures forall t :: t in page.records <==>
      t in db.records && t.account == id && (start.Some? && end.Some? ==> start.value <= Day(t.timestamp) <= end.value)
    ensures start.Some? && end.Some? ==>
      && multiset(page.records) == multiset(Where(db.records, OwnedWithin(id, start.value, end.value)))
      && (page.total.None? <==> forall t :: t in db.records ==> !(start.value <= Day(t.timestamp) <= end.value))
      && (page.total.Some? ==> page.total.value == SumAmounts(Where(db.records, WithinDays(start.value, end.value))))
    ensures !(start.Some? && end.Some?) ==>
      && multiset(page.records) == multiset(Where(db.records, OwnedBy(id)))
      && page.total == Some(db.accounts[id].balance)
  {
    if start.Some? && end.Some? then
      var inRange := Where(db.records, WithinDays(start.value, end.value));
      assert inRange != [] ==> inRange[0] in inRange;
      ReportPage(SortByTime(Where(db.records, OwnedWithin(id, start.value, end.value))), Aggregate(inRange))
    else
      ReportPage(SortByTime(Where(db.records, OwnedBy(id))), Some(db.accounts[id].balance))
  }

  /** The LOAN records of one account. */
  function LoanOf(id: AccountId): Transaction -> bool {
    (t: Transaction) => t.account == id && t.kind == Some(Loan)
  }

  /** LoanListView.get_queryset: the account's LOAN records, in timestamp order. Paid loans
      (LOAN_PAID) are not listed. */
  function LoanList(db: Db, id: AccountId): (loans: seq<Transaction>)
    ensures SortedByTime(loans)
    ensures forall t :: t in loans <==> t in db.records && t.account == id && t.kind == Some(Loan)
    ensures multiset(loans) == multiset(Where(db.records, LoanOf(id)))
  {
    SortByTime(Where(db.records, LoanOf(id)))
  }
}
