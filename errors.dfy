/** The reasons a form or a view refuses an operation, and what an operation on the bank reports. */
module Errors {
  import opened Wrappers

  datatype Error =
    | TooManyDigits         // the amount does not fit DecimalField(max_digits=12, decimal_places=2)
    | BelowMinimum          // "Amount should be greater than 100"
    | AboveMaximum          // "Amount should be less than 100000"
    | InsufficientBalance   // the withdrawal form's balance check
    | AccountBankrupt       // "Your account is bankrupt"
    | ExceedsLoanLimit      // the loan form's 3 x balance check, which reports "Amount should be less than 100000" too
    | InvalidAccountNumber  // the transfer form's destination lookup
    | LoanLimitReached      // the loan view's count of approved loans
    | NotEnoughToTransfer   // the transfer view's balance check
    | NoSuchRecord          // a lookup by primary key that finds nothing (HTTP 404)
    | LoanNotApproved       // the loan-payment view redirects without doing anything
    | NotEnoughToPayLoan    // "You do not have enough balance to pay the loan"
    | InvalidChoice         // an admin form's foreign key names no account
    | DuplicateAccount      // a unique column (account_number, user) would repeat

  datatype Outcome = Done | Refused(reason: Error)

  /** What a view reports for the result of a ledger operation. */
  function OutcomeOf<T>(r: Result<T, Error>): (o: Outcome)
    ensures o.Done? <==> r.Success?
    ensures r.Failure? ==> o == Refused(r.error)
  {
    match r
    case Success(_) => Done
    case Failure(e) => Refused(e)
  }
}
