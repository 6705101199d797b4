/**
  The bank as the views, forms and admin change it: the two tables are fields that the
  operations reassign step by step, in the order the source writes them. Each operation is
  proved to leave the tables exactly as the matching function of Views or Admin says.
*/
module Bank {
  import opened Wrappers
  import opened Accounts
  import opened Transactions
  import opened Errors
  import opened Forms
  import opened Store
  import Views
  import Admin

  class Bank {
    /** The UserBankAccount table. */
    var accounts: seq<Account>
    /** The Transaction table. */
    var records: seq<Transaction>

    function State(): Db
      reads this
    {
      Db(accounts, records)
    }

    predicate Valid()
      reads this
    {
      Store.Valid(State())
    }

    constructor ()
      ensures Valid() && accounts == [] && records == []
    {
      accounts := [];
      records := [];
    }

    /** Creates the account row of a newly registered user. */
    method OpenAccount(user: User, accountType: string, number: string) returns (id: Option<AccountId>)
      requires Valid()
      modifies this
      ensures Valid()
      ensures State() == Apply(old(State()), Store.OpenAccount(old(State()), user, accountType, number))
      ensures id == if Store.OpenAccount(old(State()), user, accountType, number).Success? then Some(old(|accounts|)) else None
    {
      if Taken(accounts, user, number) {
        return None;
      }
      accounts := accounts + [NewAccount(user, accountType, number)];
      id := Some(|accounts| - 1);
    }

    /** TransactionForm.save: the record is put on the form's account and holds the balance of
        that account object as it is in memory now; its type is the view's initial value. */
    method SaveTransactionForm(id: AccountId, account: Account, kind: TxType, amount: int,
                               to: Option<AccountId>, now: int)
      requires id < |accounts| && (to.Some? ==> to.value < |accounts|)
      modifies this
      ensures accounts == old(accounts)
      ensures records == old(records) + [NewTransaction(id, kind, amount, account.balance, now, to)]
    {
      var instance := NewTransaction(id, kind, amount, account.balance, now, to);
      records := records + [instance];
    }

    /** TransferForm.save: as TransactionForm.save on the source account, with the destination,
        looked up again by number, as the counterparty. */
    method SaveTransferForm(from: AccountId, fromAccount: Account, kind: TxType, number: string,
                            amount: int, now: int)
      requires from < |accounts| && FindByNumber(accounts, number).Some?
      modifies this
      ensures accounts == old(accounts)
      ensures records == old(records) +
        [NewTransaction(from, kind, amount, fromAccount.balance, now, Some(FindByNumber(accounts, number).value))]
    {
      var to := FindByNumber(accounts, number).value;
      SaveTransactionForm(from, fromAccount, kind, amount, Some(to), now);
    }

    /** DepositView.form_valid for the logged-in user's account `id`. */
    method MakeDeposit(id: AccountId, amount: int, now: int) returns (outcome: Outcome)
      requires Valid() && id < |accounts|
      modifies this
      ensures Valid()
      ensures State() == Apply(old(State()), Views.MakeDeposit(old(State()), id, amount, now))
      ensures outcome == OutcomeOf(Views.MakeDeposit(old(State()), id, amount, now))
    {
      var cleaned := CleanDeposit(amount);
      if cleaned.Failure? {
        return Refused(cleaned.error);
      }
      var account := accounts[id];
      account := account.(balance := account.balance + cleaned.value);
      ghost var before := State();
      accounts := WriteBalance(accounts, id, account.balance);
      ValidAfterWrites(before, accounts, records);
      SaveTransactionForm(id, account, Deposit, cleaned.value, None, now);
      outcome := Done;
    }

    /** WithdrawView.form_valid for the logged-in user's account `id`. */
    method MakeWithdrawal(id: AccountId, amount: int, now: int) returns (outcome: Outcome)
      requires Valid() && id < |accounts|
      modifies this
      ensures Valid()
      ensures State() == Apply(old(State()), Views.MakeWithdrawal(old(State()), id, amount, now))
      ensures outcome == OutcomeOf(Views.MakeWithdrawal(old(State()), id, amount, now))
    {
      var cleaned := CleanWithdraw(amount, accounts[id]);
      if cleaned.Failure? {
        return Refused(cleaned.error);
      }
      var account := accounts[id];
      account := account.(balance := account.balance - cleaned.value);
      ghost var before := State();
      accounts := WriteBalance(accounts, id, account.balance);
      ValidAfterWrites(before, accounts, records);
      SaveTransactionForm(id, account, Withdrawal, cleaned.value, None, now);
      outcome := Done;
    }

    /** LoanRequestsView.form_valid for the logged-in user's account `id`. */
    method RequestLoan(id: AccountId, amount: int, now: int) returns (outcome: Outcome)
      requires Valid() && id < |accounts|
      modifies this
      ensures Valid()
      ensures State() == Apply(old(State()), Views.RequestLoan(old(State()), id, amount, now))
      ensures outcome == OutcomeOf(Views.RequestLoan(old(State()), id, amount, now))
    {
      var cleaned := CleanLoan(amount, accounts[id]);
      if cleaned.Failure? {
        return Refused(cleaned.error);
      }
      var currentLoanCount := ApprovedLoanCount(records, id);
      if currentLoanCount > Views.MaxApprovedLoans {
        return Refused(LoanLimitReached);
      }
      SaveTransactionForm(id, accounts[id], Loan, cleaned.value, None, now);
      outcome := Done;
    }

    /** LoanPaidView.get for the record `loanId`, whoever asks. */
    method PayLoan(loanId: nat) returns (outcome: Outcome)
      requires Valid()
      modifies this
      ensures Valid()
      ensures State() == Apply(old(State()), Views.PayLoan(old(State()), loanId))
      ensures outcome == OutcomeOf(Views.PayLoan(old(State()), loanId))
    {
      if loanId >= |records| {
        return Refused(NoSuchRecord);
      }
      var loan := records[loanId];
      if !loan.loanApproved {
        return Refused(LoanNotApproved);
      }
      var userAccount := accounts[loan.account];
      if !(loan.amount < userAccount.balance) {
        return Refused(NotEnoughToPayLoan);
      }
      userAccount := userAccount.(balance := userAccount.balance - loan.amount);
      loan := loan.(balanceAfter := userAccount.balance);
      accounts := accounts[loan.account := userAccount];
      loan := loan.(loanApproved := true, kind := Some(LoanPaid));
      records := records[loanId := loan];
      outcome := Done;
    }

    /** The part of TransferView.form_valid after the form and the balance check have passed:
        both balances are written from in-memory copies, source first, then the two records. */
    method CompleteTransfer(from: AccountId, fromAccount: Account, number: string, amount: int, now: int)
      requires Valid() && from < |accounts| && fromAccount == accounts[from]
      requires FitsField(amount) && FindByNumber(accounts, number).Some? && amount <= fromAccount.balance
      modifies this
      ensures Views.TransferMoney(old(State()), from, number, amount, now).Success?
      ensures State() == Views.TransferMoney(old(State()), from, number, amount, now).value
    {
      ghost var db := State();
      var fromCopy := fromAccount;
      var to := FindByNumber(accounts, number).value;
      var toAccount := accounts[to];
      fromCopy := fromCopy.(balance := fromCopy.balance - amount);
      toAccount := toAccount.(balance := toAccount.balance + amount);
      records := records + [NewTransaction(to, Receive, amount, toAccount.balance, now, Some(from))];
      accounts := WriteBalance(accounts, from, fromCopy.balance);
      FindAfterWrite(db.accounts, from, fromCopy.balance, number);
      ghost var once := accounts;
      accounts := WriteBalance(accounts, to, toAccount.balance);
      FindAfterWrite(once, to, toAccount.balance, number);
      SaveTransferForm(from, fromCopy, Transfer, number, amount, now);
      Views.TransferMoneyWritten(db, from, number, amount, now, to, fromCopy.balance, toAccount.balance);
    }

    /** TransferView.form_valid from the logged-in user's account `from` to the account numbered
        `number`. */
    method TransferMoney(from: AccountId, number: string, amount: int, now: int) returns (outcome: Outcome)
      requires Valid() && from < |accounts|
      modifies this
      ensures Valid()
      ensures State() == Apply(old(State()), Views.TransferMoney(old(State()), from, number, amount, now))
      ensures outcome == OutcomeOf(Views.TransferMoney(old(State()), from, number, amount, now))
    {
      ghost var db := State();
      var cleaned := CleanTransfer(amount, number, accounts);
      if cleaned.Failure? {
        return Refused(cleaned.error);
      }
      var fromAccount := accounts[from];
      if fromAccount.balance < amount {
        return Refused(NotEnoughToTransfer);
      }
      CompleteTransfer(from, fromAccount, number, amount, now);
      outcome := Done;
    }

    /** TransactionAdmin.save_model: a new record (`target` = None) or an edit of record `target`. */
    method AdminSave(target: Option<nat>, form: Admin.AdminForm, now: int) returns (outcome: Outcome)
      requires Valid()
      modifies this
      ensures Valid()
      ensures State() == Apply(old(State()), Admin.AdminSave(old(State()), target, form, now))
      ensures outcome == OutcomeOf(Admin.AdminSave(old(State()), target, form, now))
    {
      var invalid := Admin.CheckForm(State(), target, form);
      if invalid.Some? {
        return Refused(invalid.value);
      }
      var obj := Admin.Bound(State(), target, form, now);
      var account := accounts[obj.account];
      account := account.(balance := account.balance + obj.amount);
      obj := obj.(balanceAfter := account.balance);
      accounts := accounts[obj.account := account];
      if target.None? {
        records := records + [obj];
      } else {
        records := records[target.value := obj];
      }
      outcome := Done;
    }
  }
}
