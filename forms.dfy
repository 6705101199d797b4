/**
  The validators of the transaction forms (transactions/forms.py). Each one runs
  after the form framework has checked that the amount fits its DecimalField, and
  hands the amount back unchanged when it accepts it.
*/
module Forms {
  import opened Wrappers
  import opened Accounts
  import opened Errors

  const MinDeposit: int := 100 * Hundredths
  const MinWithdraw: int := 100 * Hundredths
  const MaxWithdraw: int := 100_000 * Hundredths
  const LoanFactor: int := 3

  /** The framework's field check on `amount`: at most twelve digits (two after the point). */
  function CleanAmountField(amount: int): (r: Result<int, Error>)
    ensures r.Success? <==> -FieldLimit < amount < FieldLimit
    ensures r.Success? ==> r.value == amount
    ensures r.Failure? ==> r.error == TooManyDigits
  {
    if FitsField(amount) then Success(amount) else Failure(TooManyDigits)
  }

  /** DepositForm.clean_amount: a deposit of at least 100.00 is accepted. */
  function CleanDeposit(amount: int): (r: Result<int, Error>)
    ensures r.Success? <==> FitsField(amount) && amount >= MinDeposit
    ensures r.Success? ==> r.value == amount
    ensures r.Failure? ==> r.error == (if FitsField(amount) then BelowMinimum else TooManyDigits)
  {
    match CleanAmountField(amount)
    case Failure(e) => Failure(e)
    case Success(amount) =>
      if amount < MinDeposit then Failure(BelowMinimum)
      else Success(amount)
  }

  /** WithdrawForm.clean_amount: four checks in a fixed order; the first that fails is reported. */
  function CleanWithdraw(amount: int, account: Account): (r: Result<int, Error>)
    ensures r.Success? <==>
      FitsField(amount) && MinWithdraw <= amount <= MaxWithdraw && amount <= account.balance && !account.isBankrupt
    ensures r.Success? ==> r.value == amount
    ensures r == Failure(TooManyDigits) <==> !FitsField(amount)
    ensures r == Failure(BelowMinimum) <==> FitsField(amount) && amount < MinWithdraw
    ensures r == Failure(AboveMaximum) <==> FitsField(amount) && amount > MaxWithdraw
    ensures r == Failure(InsufficientBalance) <==>
      FitsField(amount) && MinWithdraw <= amount <= MaxWithdraw && amount > account.balance
    ensures r == Failure(AccountBankrupt) <==>
      FitsField(amount) && MinWithdraw <= amount <= MaxWithdraw && amount <= account.balance && account.isBankrupt
  {
    match CleanAmountField(amount)
    case Failure(e) => Failure(e)
    case Success(amount) =>
      if amount < MinWithdraw then Failure(BelowMinimum)
      else if amount > MaxWithdraw then Failure(AboveMaximum)
      else if amount > account.balance then Failure(InsufficientBalance)
      else if account.isBankrupt then Failure(AccountBankrupt)
      else Success(amount)
  }

  /** LoanForm.clean_amount: at most three times the balance, and no lower bound. */
  function CleanLoan(amount: int, account: Account): (r: Result<int, Error>)
    ensures r.Success? <==> FitsField(amount) && amount <= LoanFactor * account.balance
    ensures r.Success? ==> r.value == amount
    ensures r.Failure? ==> r.error == (if FitsField(amount) then ExceedsLoanLimit else TooManyDigits)
  {
    match CleanAmountField(amount)
    case Failure(e) => Failure(e)
    case Success(amount) =>
      var maxLoan := account.balance * LoanFactor;
      if amount > maxLoan then Failure(ExceedsLoanLimit)
      else Success(amount)
  }

  /** TransferForm.clean_to_account_number: the number must belong to an account. `number` is the
      value after the CharField's own cleaning, which strips surrounding whitespace and refuses
      an empty value before this check runs. */
  function CleanToAccountNumber(number: string, accounts: seq<Account>): (r: Result<string, Error>)
    ensures r.Success? <==> exists i :: 0 <= i < |accounts| && accounts[i].number == number
    ensures r.Success? ==> r.value == number
    ensures r.Failure? ==> r.error == InvalidAccountNumber
  {
    if FindByNumber(accounts, number).None? then Failure(InvalidAccountNumber)
    else Success(number)
  }

  /** The transfer form has no clean_amount: only the field check applies to its amount,
      and then the destination number is checked. */
  function CleanTransfer(amount: int, number: string, accounts: seq<Account>): (r: Result<string, Error>)
    ensures r.Success? <==> FitsField(amount) && exists i :: 0 <= i < |accounts| && accounts[i].number == number
    ensures r.Success? ==> r.value == number
    ensures r.Failure? ==> r.error == (if FitsField(amount) then InvalidAccountNumber else TooManyDigits)
  {
    match CleanAmountField(amount)
    case Failure(e) => Failure(e)
    case Success(_) =>
      match CleanToAccountNumber(number, accounts)
      case Failure(e) => Failure(e)
      case Success(number) => Success(number)
  }
}
