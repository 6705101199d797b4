/**
  Properties of the ledger that relate several requests, or a request to the money held by the
  bank as a whole: what each view does to the total of all balances, how the loan limit counts,
  what the report's figure adds up, and the behaviours the code allows that a reader of the
  screens would not expect (negative transfers, paying one loan twice, re-crediting on an admin
  edit).
*/
module Properties {
  import opened Wrappers
  import opened Accounts
  import opened Transactions
  import opened Store
  import opened Views
  import Admin

  /** A deposit adds its amount to the money held by all accounts. */
  lemma DepositAddsToTotal(db: Db, id: AccountId, amount: int, now: int)
    requires Valid(db) && id < |db.accounts|
    requires MakeDeposit(db, id, amount, now).Success?
    ensures TotalBalance(MakeDeposit(db, id, amount, now).value.accounts) == TotalBalance(db.accounts) + amount
  {
    TotalAfterWrite(db.accounts, id, db.accounts[id].balance + amount);
  }

  /** A withdrawal takes its amount out of the money held by all accounts. */
  lemma WithdrawalTakesFromTotal(db: Db, id: AccountId, amount: int, now: int)
    requires Valid(db) && id < |db.accounts|
    requires MakeWithdrawal(db, id, amount, now).Success?
    ensures TotalBalance(MakeWithdrawal(db, id, amount, now).value.accounts) == TotalBalance(db.accounts) - amount
  {
    TotalAfterWrite(db.accounts, id, db.accounts[id].balance - amount);
  }

  /** Requesting a loan moves no money: the loan is only recorded, and approval happens elsewhere. */
  lemma LoanRequestMovesNoMoney(db: Db, id: AccountId, amount: int, now: int)
    requires Valid(db) && id < |db.accounts|
    ensures TotalBalance(Apply(db, RequestLoan(db, id, amount, now)).accounts) == TotalBalance(db.accounts)
  {
    if RequestLoan(db, id, amount, now).Success? {
      assert RequestLoan(db, id, amount, now).value.accounts == db.accounts;
    }
  }

  /** Paying a loan takes the loan's amount out of the money held by all accounts. */
  lemma PayLoanTakesFromTotal(db: Db, loanId: nat)
    requires Valid(db)
    requires PayLoan(db, loanId).Success?
    ensures TotalBalance(PayLoan(db, loanId).value.accounts) == TotalBalance(db.accounts) - db.records[loanId].amount
  {
    var loan := db.records[loanId];
    TotalAfterWrite(db.accounts, loan.account, db.accounts[loan.account].balance - loan.amount);
  }

  /** A transfer between two different accounts keeps the money held by all accounts. */
  lemma TransferKeepsTotal(db: Db, from: AccountId, number: string, amount: int, now: int)
    requires Valid(db) && from < |db.accounts|
    requires TransferMoney(db, from, number, amount, now).Success?
    requires FindByNumber(db.accounts, number).value != from
    ensures TotalBalance(TransferMoney(db, from, number, amount, now).value.accounts) == TotalBalance(db.accounts)
  {
    var to := FindByNumber(db.accounts, number).value;
    var fromBalance, toBalance := db.accounts[from].balance - amount, db.accounts[to].balance + amount;
    var once := WriteBalance(db.accounts, from, fromBalance);
    TransferMoneyWritten(db, from, number, amount, now, to, fromBalance, toBalance);
    assert TransferMoney(db, from, number, amount, now).value.accounts == WriteBalance(once, to, toBalance);
    TotalAfterWrite(db.accounts, from, fromBalance);
    assert once[to] == db.accounts[to];
    TotalAfterWrite(once, to, toBalance);
  }

  /** A transfer to the sender's own number creates money: the destination copy is written last,
      so the account ends up `amount` richer and so does the bank. */
  lemma SelfTransferCreatesMoney(db: Db, from: AccountId, amount: int, now: int)
    requires Valid(db) && from < |db.accounts|
    requires TransferMoney(db, from, db.accounts[from].number, amount, now).Success?
    ensures var after := TransferMoney(db, from, db.accounts[from].number, amount, now).value;
      && after.accounts[from].balance == db.accounts[from].balance + amount
      && TotalBalance(after.accounts) == TotalBalance(db.accounts) + amount
  {
    var number := db.accounts[from].number;
    FindByNumberFinds(db.accounts, from);
    TransferBalances(db, from, number, amount, now);
    TotalAfterWrite(db.accounts, from, db.accounts[from].balance + amount);
  }

  /** The transfer form checks only the number of digits of the amount, so a negative amount
      passes whenever it is at most the sender's balance (always, when that balance is
      non-negative). Sent to another account, it takes money from the destination, which may
      end below zero, and gives it to the sender. */
  lemma NegativeTransferPullsMoney(db: Db, from: AccountId, number: string, amount: int, now: int)
    requires Valid(db) && from < |db.accounts|
    requires FindByNumber(db.accounts, number).Some? && FindByNumber(db.accounts, number).value != from
    requires FitsField(amount) && amount < 0 && amount <= db.accounts[from].balance
    ensures TransferMoney(db, from, number, amount, now).Success?
    ensures var after := TransferMoney(db, from, number, amount, now).value;
      var to := FindByNumber(db.accounts, number).value;
      && after.accounts[to].balance == db.accounts[to].balance + amount < db.accounts[to].balance
      && after.accounts[from].balance > db.accounts[from].balance
      && (db.accounts[to].balance < -amount ==> after.accounts[to].balance < 0)
  {
    TransferBalances(db, from, number, amount, now);
  }

  /** A negative amount sent to the sender's own number lowers the sender's balance by its size,
      so a transfer that passed the balance check can leave the sender below zero. */
  lemma NegativeSelfTransferLowersBalance(db: Db, from: AccountId, amount: int, now: int)
    requires Valid(db) && from < |db.accounts|
    requires FitsField(amount) && amount < 0 && amount <= db.accounts[from].balance
    ensures TransferMoney(db, from, db.accounts[from].number, amount, now).Success?
    ensures var after := TransferMoney(db, from, db.accounts[from].number, amount, now).value;
      && after.accounts[from].balance == db.accounts[from].balance + amount < db.accounts[from].balance
      && (db.accounts[from].balance < -amount ==> after.accounts[from].balance < 0)
  {
    FindByNumberFinds(db.accounts, from);
    TransferBalances(db, from, db.accounts[from].number, amount, now);
  }

  /** An admin save credits the form's amount to the record's account, whatever the record's type. */
  lemma AdminSaveCreditsTotal(db: Db, target: Option<nat>, form: Admin.AdminForm, now: int)
    requires Valid(db)
    requires Admin.AdminSave(db, target, form, now).Success?
    ensures TotalBalance(Admin.AdminSave(db, target, form, now).value.accounts) == TotalBalance(db.accounts) + form.amount
  {
    var after := Admin.AdminSave(db, target, form, now).value;
    assert after.accounts == WriteBalance(db.accounts, form.account, db.accounts[form.account].balance + form.amount);
    TotalAfterWrite(db.accounts, form.account, db.accounts[form.account].balance + form.amount);
  }

  /** Saving the same record again in the admin, unchanged, credits its amount a second time. */
  lemma AdminResaveCreditsAgain(db: Db, target: Option<nat>, form: Admin.AdminForm, now: int, later: int)
    requires Valid(db)
    requires Admin.AdminSave(db, target, form, now).Success?
    ensures var once := Admin.AdminSave(db, target, form, now).value;
      var edited := if target.Some? then target.value else |db.records|;
      && Admin.AdminSave(once, Some(edited), form, later).Success?
      && Admin.AdminSave(once, Some(edited), form, later).value.accounts[form.account].balance
           == db.accounts[form.account].balance + 2 * form.amount
  {
    var once := Admin.AdminSave(db, target, form, now).value;
    var edited := if target.Some? then target.value else |db.records|;
    assert edited < |once.records|;
  }

  /** A new loan request is recorded as not approved, so it never counts towards the limit of any
      account: the limit only moves when an administrator approves loans. */
  lemma {:induction false} LoanRequestKeepsApprovedCount(db: Db, id: AccountId, amount: int, now: int, other: AccountId)
    requires Valid(db) && id < |db.accounts|
    requires RequestLoan(db, id, amount, now).Success?
    ensures ApprovedLoanCount(RequestLoan(db, id, amount, now).value.records, other) == ApprovedLoanCount(db.records, other)
  {
    var t := NewTransaction(id, Loan, amount, db.accounts[id].balance, now, None);
    WhereAppend(db.records, t, ApprovedLoanOf(other));
  }

  /** Paying an approved LOAN record turns it into LOAN_PAID, which frees one place under the
      loan limit of its account and leaves every other account's count alone. */
  lemma {:induction false} PayLoanFreesLoanPlace(db: Db, loanId: nat, other: AccountId)
    requires Valid(db)
    requires PayLoan(db, loanId).Success? && db.records[loanId].kind == Some(Loan)
    ensures var owner := db.records[loanId].account;
      ApprovedLoanCount(PayLoan(db, loanId).value.records, other) ==
        ApprovedLoanCount(db.records, other) - (if other == owner then 1 else 0)
  {
    var after := PayLoan(db, loanId).value;
    assert after.records == db.records[loanId := after.records[loanId]];
    WhereUpdateCount(db.records, loanId, after.records[loanId], ApprovedLoanOf(other));
  }

  /** A paid loan stays approved, so the same record can be paid again as long as the balance
      still exceeds its amount; each payment takes the amount again. */
  lemma PaidLoanStaysPayable(db: Db, loanId: nat)
    requires Valid(db)
    requires PayLoan(db, loanId).Success?
    ensures var once := PayLoan(db, loanId).value;
      var loan := db.records[loanId];
      (PayLoan(once, loanId).Success? <==> loan.amount < once.accounts[loan.account].balance)
      && (PayLoan(once, loanId).Success? ==>
            PayLoan(once, loanId).value.accounts[loan.account].balance == db.accounts[loan.account].balance - 2 * loan.amount)
  {
  }

  /** A paid loan leaves the loan list: the list shows LOAN records only. */
  lemma PaidLoanLeavesLoanList(db: Db, loanId: nat)
    requires Valid(db)
    requires PayLoan(db, loanId).Success?
    ensures var after := PayLoan(db, loanId).value;
      after.records[loanId] !in LoanList(after, db.records[loanId].account)
  {
  }

  /** When every record in the date range belongs to the reporting account, the figure beside
      the report is the sum of the amounts of the records it lists (None when it lists nothing). */
  lemma ReportTotalIsOwnSumWhenAlone(db: Db, id: AccountId, start: int, end: int)
    requires id < |db.accounts|
    requires forall t :: t in db.records && start <= Day(t.timestamp) <= end ==> t.account == id
    ensures var page := Report(db, id, Some(start), Some(end));
      page.total == (if page.records == [] then None else Some(SumAmounts(page.records)))
  {
    var page := Report(db, id, Some(start), Some(end));
    WhereAgree(db.records, WithinDays(start, end), OwnedWithin(id, start, end));
    var own := Where(db.records, OwnedWithin(id, start, end));
    SumSorted(own);
    assert own != [] ==> own[0] in own;
    if page.records != [] {
      assert page.records[0] in page.records;
    }
  }

  /** The figure beside a dated report adds up every account's records in the range: an account
      with no records of its own in the range still sees a total when another account has some. */
  lemma ReportTotalCountsOtherAccounts(db: Db, id: AccountId, start: int, end: int, k: nat)
    requires id < |db.accounts| && k < |db.records|
    requires start <= Day(db.records[k].timestamp) <= end
    requires forall t :: t in db.records && start <= Day(t.timestamp) <= end ==> t.account != id
    ensures Report(db, id, Some(start), Some(end)).records == []
    ensures Report(db, id, Some(start), Some(end)).total.Some?
  {
    assert db.records[k] in db.records;
  }
}
