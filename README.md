# AMAR-Bank ledger, modelled in Dafny

AMAR-Bank is a small Django banking site. This project models its ledger:
- the bank-account table (`UserBankAccount`) and the transaction table (`Transaction`);
- the form validators for deposits, withdrawals, loan requests and transfers;
- the views that move money: deposit, withdraw, request a loan, pay a loan and transfer;
- the two list views: the transaction report and the loan list;
- the admin save, which credits money whenever a record is saved.

Money is a whole number of hundredths. The `DecimalField(max_digits=12, decimal_places=2)` columns become the bound `Accounts.FitsField`. An account or a record is identified by its position in its table.

The project has two layers:
- **Functions** (modules `Forms`, `Store`, `Views`, `Admin`). Each one maps the database before a request to a `Result`: the database after the request, or the error that refused it. A refused request changes nothing (`Store.Apply`).
- **The class `Bank.Bank`**. Its two tables are fields. Its methods make the same changes step by step, in the order the source does: in-memory copies of account rows, balances written one row at a time, and records appended. Each method is proved to leave exactly the state the matching function describes.

The module `Properties` proves facts that span several requests:
- what each request does to the total money held by all accounts;
- how the loan limit counts;
- what the report's figure adds up;
- behaviour that the code allows but a user of the screens would not expect:
  - a transfer to one's own number creates money;
  - a negative transfer pulls money from the recipient;
  - a paid loan can be paid again;
  - re-saving a record in the admin credits it again.

## Model

| member | source | states |
|---|---|---|
| Accounts.Str | accounts/models.py:18-19 | the string form is the username, a dash and the account number, with the dash right after the username |
| Accounts.StrRoundTrip | accounts/models.py:18-19 | when the account number has no dash, splitting the string form at its last dash gives back the username and the number, even if the username has dashes |
| Accounts.FindByNumber | accounts/models.py:11 | the lookup by account number returns an account that has that number, and returns none only when no account has it |
| Accounts.FindByNumberFinds | accounts/models.py:11 | because account numbers are unique, the lookup by an account's number finds that account |
| Store.ValidIdentifies | accounts/models.py:9-11 | in a valid database (Store.Valid: unique account numbers, one account per user, foreign keys that resolve) an account number, and a user, each identify at most one account; every operation keeps the database valid |
| Forms.CleanDeposit | transactions/forms.py:25-31 | a deposit is accepted exactly when it fits the field and is at least 100.00; otherwise the error is too many digits or below the minimum; an accepted amount is unchanged |
| Forms.CleanWithdraw | transactions/forms.py:32-47 | a withdrawal is accepted exactly when it fits the field, lies between 100.00 and 100000.00, is at most the balance and the account is not bankrupt; each error is reported exactly when every earlier check passed and its own check failed |
| Forms.CleanLoan | transactions/forms.py:49-57 | a loan is accepted exactly when it fits the field and is at most three times the balance; there is no lower bound |
| Forms.CleanToAccountNumber | transactions/forms.py:66-70 | the destination number is accepted exactly when some account has it; otherwise the error is an invalid account number |
| Forms.CleanAmountField | transactions/models.py:12 | the amount field accepts exactly the values with at most twelve digits, two of them after the point, unchanged; anything else is the too-many-digits error |
| Forms.CleanTransfer | transactions/forms.py:59-70 | the transfer form checks only the field size of the amount, then the destination number; any amount that fits, negative ones included, passes |
| Store.OpenAccount | accounts/models.py:8-16 | a new account is created with balance 0 and not bankrupt, exactly when neither its number nor its user is already taken; existing rows and records are unchanged |
| Store.ApprovedLoanCount | transactions/views.py:108-111 | the count of an account's approved LOAN records is at most the number of records, and is zero exactly when no record of that account is an approved LOAN |
| Store.WriteBalance | transactions/views.py:67-69 | saving with update_fields balance changes that one row's balance and nothing else |
| Store.TotalAfterWrite | transactions/views.py:67-69 | writing one balance changes the total of all balances by the difference between the new and old values |
| Store.FindAfterWrite | transactions/views.py:243-244 | writing a balance does not change which row a number lookup finds |
| Transactions.SortByTime | transactions/models.py:17-18 | records listed by timestamp are in non-decreasing time order and are a permutation of the records selected |
| Transactions.NewTransaction | transactions/models.py:14-15 | a record created by a view is not approved for a loan, has the view's type and is stamped with the creation time |
| Transactions.SumSorted | transactions/models.py:17-18 | ordering records by timestamp does not change the sum of their amounts |
| Transactions.WhereAppend | transactions/views.py:108-111 | filtering a table after one record is appended gives the old selection, plus the new record if it matches |
| Transactions.WhereUpdateCount | transactions/views.py:108-111 | after one record is replaced, a filter selects one fewer if the old record matched and one more if the new one matches |
| Views.MakeDeposit | transactions/views.py:63-75 | a deposit is refused with the form's error, or it raises only this account's balance by the amount and appends a DEPOSIT record holding the new balance |
| Views.MakeWithdrawal | transactions/views.py:85-97 | a withdrawal is refused with the form's error, or it lowers only this account's balance by the amount (never below zero) and appends a WITHDRAWAL record holding the new balance |
| Views.RequestLoan | transactions/views.py:106-123 | a loan request succeeds exactly when the form accepts it and the account has at most three approved LOAN records; it never touches a balance and appends an unapproved LOAN record holding the current balance |
| Views.PayLoan | transactions/views.py:153-175 | paying succeeds exactly when the record exists, is approved and its amount is strictly below its account's balance; the account loses the amount and stays positive; the same record becomes LOAN_PAID with the new balance and stays approved; other records are unchanged |
| Views.TransferMoney | transactions/views.py:217-252 | a transfer succeeds exactly when the amount fits, the number exists and the amount is at most the sender's balance; the error is from the first failed check; the database stays valid |
| Views.TransferBalances | transactions/views.py:229-244 | between two accounts the sender loses the amount and stays non-negative, the destination gains it, and their sum is kept; the two written rows keep every other column and all other rows are unchanged; to one's own number the balance rises by the amount, while the TRANSFER record holds the balance minus twice the amount |
| Views.Report | transactions/views.py:130-144 | the report lists exactly this account's records (within the day range when both dates are given), in time order; with dates, the figure is the sum over every account's records in the range, or none when there are none; without dates, it is the balance |
| Views.Aggregate | transactions/views.py:140 | the sum of amounts over no rows is none (NULL); over some rows it is their sum |
| Views.LoanList | transactions/views.py:182-185 | the loan list shows exactly this account's LOAN records, in time order; paid loans are not listed |
| Admin.AdminSave | transactions/admin.py:12-17 | an admin save, whether a create or an edit and whatever the type, credits the record's amount to its account, changing no other column and no other account, and stores the new balance on the record; an edit keeps the timestamp and replaces the record, a create appends it; invalid forms are refused in field order |
| Bank.Bank.OpenAccount | accounts/models.py:8-16 | the account table becomes exactly what Store.OpenAccount gives |
| Bank.Bank.SaveTransactionForm | transactions/forms.py:20-23 | the form puts the record on the form's account, with the balance of the in-memory account object, and appends it |
| Bank.Bank.SaveTransferForm | transactions/forms.py:72-81 | the transfer form's record is on the sender and holds the sender copy's balance; the counterparty is the account looked up again by number |
| Bank.Bank.MakeDeposit | transactions/views.py:63-75 | the tables become exactly what Views.MakeDeposit gives, and the outcome is its success or error |
| Bank.Bank.MakeWithdrawal | transactions/views.py:85-97 | the tables become exactly what Views.MakeWithdrawal gives, and the outcome is its success or error |
| Bank.Bank.RequestLoan | transactions/views.py:106-123 | the tables become exactly what Views.RequestLoan gives, and the outcome is its success or error |
| Bank.Bank.PayLoan | transactions/views.py:153-175 | the tables become exactly what Views.PayLoan gives, and the outcome is its success or error |
| Bank.Bank.CompleteTransfer | transactions/views.py:229-252 | after the checks pass, the two in-memory copies, the two writes and the two saved records give exactly Views.TransferMoney's database |
| Bank.Bank.TransferMoney | transactions/views.py:217-252 | the tables become exactly what Views.TransferMoney gives, and the outcome is its success or error |
| Bank.Bank.AdminSave | transactions/admin.py:12-17 | the tables become exactly what Admin.AdminSave gives, and the outcome is its success or error |
| Properties.DepositAddsToTotal | transactions/views.py:63-69 | a deposit adds its amount to the money held by all accounts |
| Properties.WithdrawalTakesFromTotal | transactions/views.py:85-91 | a withdrawal takes its amount out of the money held by all accounts |
| Properties.LoanRequestMovesNoMoney | transactions/views.py:106-123 | a loan request, accepted or not, leaves the total money unchanged |
| Properties.PayLoanTakesFromTotal | transactions/views.py:157-161 | paying a loan takes the loan's amount out of the total money |
| Properties.TransferKeepsTotal | transactions/views.py:229-244 | a transfer between two different accounts keeps the total money |
| Properties.SelfTransferCreatesMoney | transactions/views.py:229-244 | a transfer to one's own number raises the balance and the total money by the amount |
| Properties.NegativeTransferPullsMoney | transactions/forms.py:59-70 | when the destination is another account, a negative amount that fits the field and is at most the sender's balance (always so when that balance is non-negative) is transferred: the recipient's balance falls by its size, below zero if it was smaller, and the sender's rises |
| Properties.NegativeSelfTransferLowersBalance | transactions/views.py:222-244 | a negative amount sent to one's own number passes the balance check and lowers the balance by its size, so a balance smaller than that size ends below zero |
| Properties.AdminSaveCreditsTotal | transactions/admin.py:12-15 | an admin save adds the form's amount to the total money, whatever the record's type |
| Properties.AdminResaveCreditsAgain | transactions/admin.py:12-17 | saving the same record again in the admin, unchanged, succeeds and credits the amount a second time |
| Properties.LoanRequestKeepsApprovedCount | transactions/views.py:108-112 | a new loan request is unapproved, so it does not change any account's count of approved loans |
| Properties.PayLoanFreesLoanPlace | transactions/views.py:108-112 | paying an approved LOAN record lowers its owner's approved-loan count by one and leaves every other account's count alone |
| Properties.PaidLoanStaysPayable | transactions/views.py:156-164 | a paid record stays approved, so it can be paid again exactly when the balance still exceeds its amount, and a second payment takes the amount again |
| Properties.PaidLoanLeavesLoanList | transactions/views.py:182-185 | after payment the record is no longer in its owner's loan list |
| Properties.ReportTotalIsOwnSumWhenAlone | transactions/views.py:134-140 | when every record in the range is the reporting account's own, the figure is the sum of the listed amounts, or none when nothing is listed |
| Properties.ReportTotalCountsOtherAccounts | transactions/views.py:134-140 | an account with no records in the range lists nothing, yet sees a figure when another account has records there |

## Left out

- E-mails, flash messages, redirects, templates and page contexts are left out: they do not change the tables when they succeed.
- The model assumes every e-mail send returns. The deposit, withdraw and transfer views are not atomic, and they send their e-mails after writing the balance but before the form saves the record. A send that raised would leave the new balance without its DEPOSIT or WITHDRAWAL record; for a transfer it would leave the RECEIVE record and both balance writes without the TRANSFER record. The admin save runs inside the admin's database transaction and is not affected.
- Parsing the report's dates with `strptime` is left out. Dates are given as day numbers, and a timestamp's calendar day is its seconds divided by 86400. Time zones are not modelled.
- The clock is a parameter (`now`). Both records of a transfer carry the same `now`.
- Concurrency and database transactions are left out. The requests run one at a time.
- `number` in the transfer operations is the destination number after the CharField's own cleaning: surrounding whitespace is stripped and an empty value gets the field's "required" error. Both steps happen in the form framework before `clean_to_account_number` and are not modelled.
- Forms report only the first failing field, not all field errors together.
- Only the amount's field size is checked, not the balance column's. A balance pushed past twelve digits is stored unbounded here; the database would reject it.
- The admin form's required `balance_after_transaction` field and its `transaction_type` choices are not validated. The typed balance is overwritten by the save anyway.
- Each view takes the logged-in user's account as a `requires` that it exists. A user without an account makes the framework raise an error, which is not modelled.
- `is_bankrupt` is nullable in the table. NULL is read as false, as the withdraw form treats it.
- `TransferForm.save` also sets `to_account_balance_after_transaction`, which is not a column of the table. Nothing stores it, so the model drops it.
- Deleting accounts or records (cascades, the admin delete) is left out. Ids are table positions.
- Approving loans is done only through the admin's `loan_approved` field, which Admin.AdminSave models; there is no separate approval view.
- The report's `.distinct()` is not modelled separately: the account filter cannot produce duplicate rows.
- Views.TransferMoney: its own contract states the success condition, the error order and validity. The balances and records it leaves are stated by Views.TransferBalances.
