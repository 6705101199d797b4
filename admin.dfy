/**
  The admin save (transactions/admin.py): every save of a record through the admin
  credits the record's amount to its account, whatever the record's type and whether
  the record is new or edited, and then stores the new balance on the record.
*/
module Admin {
  import opened Wrappers
  import opened Accounts
  import opened Transactions
  import opened Errors
  import opened Store

  /** The editable fields of a Transaction as the admin form submits them; the timestamp is not
      editable, and the typed balance-after value is overwritten by the save. */
  datatype AdminForm = AdminForm(
    account: AccountId,
    kind: Option<TxType>,
    amount: int,
    balanceAfter: int,
    loanApproved: bool,
    toAccount: Option<AccountId>)

  /** The instance the admin form fills in: a new record stamped `now`, or the record `target`
      with its editable fields replaced. */
  function Bound(db: Db, target: Option<nat>, form: AdminForm, now: int): Transaction
    requires target.Some? ==> target.value < |db.records|
  {
    var timestamp := if target.Some? then db.records[target.value].timestamp else now;
    Transaction(form.account, form.kind, form.amount, form.balanceAfter, timestamp, form.loanApproved, form.toAccount)
  }

  /** The admin form's validation, field by field in the model's order, after the record to
      edit has been looked up. */
  function CheckForm(db: Db, target: Option<nat>, form: AdminForm): Option<Error> {
    if target.Some? && target.value >= |db.records| then Some(NoSuchRecord)
    else if form.account >= |db.accounts| then Some(InvalidChoice)
    else if !FitsField(form.amount) || !FitsField(form.balanceAfter) then Some(TooManyDigits)
    else if form.toAccount.Some? && form.toAccount.value >= |db.accounts| then Some(InvalidChoice)
    else None
  }

  /** TransactionAdmin.save_model for a new record (`target` = None) or an edit of record `target`. */
  function AdminSave(db: Db, target: Option<nat>, form: AdminForm, now: int): (r: Result<Db, Error>)
    requires Valid(db)
    ensures r.Success? <==>
      && (target.Some? ==> target.value < |db.records|)
      && form.account < |db.accounts|
      && FitsField(form.amount) && FitsField(form.balanceAfter)
      && (form.toAccount.Some? ==> form.toAccount.value < |db.accounts|)
    ensures r.Failure? ==> (r.error ==
      (if target.Some? && target.value >= |db.records| then NoSuchRecord
       else if form.account >= |db.accounts| then InvalidChoice
       else if !FitsField(form.amount) || !FitsField(form.balanceAfter) then TooManyDigits
       else InvalidChoice))
    ensures r.Success? ==> Valid(r.value)
    ensures r.Success? ==>
      && |r.value.accounts| == |db.accounts|
      && r.value.accounts[form.account].balance == db.accounts[form.account].balance + form.amount
      && (forall i :: 0 <= i < |db.accounts| && i != form.account ==> r.value.accounts[i] == db.accounts[i])
    ensures r.Success? ==>
      r.value.accounts == WriteBalance(db.accounts, form.account, db.accounts[form.account].balance + form.amount)
    ensures r.Success? ==>
      var saved := Transaction(form.account, form.kind, form.amount, r.value.accounts[form.account].balance,
                               if target.Some? then db.records[target.value].timestamp else now,
                               form.loanApproved, form.toAccount);
      && (target.None? ==> r.value.records == db.records + [saved])
      && (target.Some? ==> r.value.records == db.records[target.value := saved])
  {
    match CheckForm(db, target, form)
    case Some(e) => Failure(e)
    case None =>
      var obj := Bound(db, target, form, now);
      var account := db.accounts[obj.account];
      var account := account.(balance := account.balance + obj.amount);
      var obj := obj.(balanceAfter := account.balance);
      var accounts := db.accounts[obj.account := account];
      var records := if target.None? then db.records + [obj] else db.records[target.value := obj];
      assert accounts == WriteBalance(db.accounts, obj.account, account.balance);
      assert forall k :: 0 <= k < |records| ==> Refers(|accounts|, records[k]);
      ValidAfterWrites(db, accounts, records);
      Success(Db(accounts, records))
  }
}
