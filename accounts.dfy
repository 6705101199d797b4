/**
  The bank account table (accounts/models.py): one UserBankAccount row per user.
  Money is held as a whole number of hundredths, the fixed-point value with two
  decimal places that the DecimalField columns store.
*/
module Accounts {
  import opened Wrappers

  /** Hundredths in one unit of currency. */
  const Hundredths: int := 100

  /** DecimalField(max_digits=12, decimal_places=2): ten digits before the point and two after,
      so a value in hundredths has at most twelve digits. */
  const FieldLimit: int := 1_000_000_000_000

  predicate FitsField(x: int) {
    -FieldLimit < x < FieldLimit
  }

  /** The primary key of an account: its position in the account table. */
  type AccountId = nat

  /** The part of the auth user that the bank reads. */
  datatype User = User(id: nat, username: string)

  /** A UserBankAccount row; `isBankrupt` is nullable in the table and NULL reads as false. */
  datatype Account = Account(
    user: User,
    accountType: string,
    number: string,
    balance: int,
    isBankrupt: bool)

  /** The row that objects.create writes: balance defaults to 0.00 and is_bankrupt to false. */
  function NewAccount(user: User, accountType: string, number: string): Account {
    Account(user, accountType, number, 0, false)
  }

  /** `UserBankAccount.__str__`: the username, a dash, then the account number. */
  function Str(a: Account): (s: string)
    ensures |s| == |a.user.username| + 1 + |a.number|
    ensures s[|a.user.username|] == '-'
    ensures s[..|a.user.username|] == a.user.username && s[|a.user.username| + 1..] == a.number
  {
    a.user.username + "-" + a.number
  }

  /** The position of the last dash in `s`, if any. */
  function LastDash(s: string): (r: Option<nat>)
    ensures r.Some? ==> r.value < |s| && s[r.value] == '-'
    ensures r.Some? ==> forall k :: r.value < k < |s| ==> s[k] != '-'
    ensures r.None? ==> forall k :: 0 <= k < |s| ==> s[k] != '-'
  {
    if s == [] then None
    else if s[|s| - 1] == '-' then Some(|s| - 1)
    else LastDash(s[..|s| - 1])
  }

  /** Splits an account's string form back into username and account number, at the last dash. */
  function ParseStr(s: string): Option<(string, string)> {
    match LastDash(s)
    case None => None
    case Some(k) => Some((s[..k], s[k + 1..]))
  }

  /** The string form loses nothing when the account number has no dash (it is a number:
      10000 plus the user's id), even when the username has dashes. */
  lemma StrRoundTrip(a: Account)
    requires forall k :: 0 <= k < |a.number| ==> a.number[k] != '-'
    ensures ParseStr(Str(a)) == Some((a.user.username, a.number))
  {
    var s, u, n := Str(a), a.user.username, a.number;
    assert s == u + "-" + n;
    var r := LastDash(s);
    assert s[|u|] == '-';
    assert forall k :: |u| < k < |s| ==> s[k] == n[k - |u| - 1];
    assert r == Some(|u|);
    assert s[..|u|] == u;
    assert s[|u| + 1..] == n;
  }

  /** When account numbers are unique, the lookup finds the one account with that number. */
  lemma FindByNumberFinds(accounts: seq<Account>, i: AccountId)
    requires i < |accounts|
    requires forall j, k :: 0 <= j < k < |accounts| ==> accounts[j].number != accounts[k].number
    ensures FindByNumber(accounts, accounts[i].number) == Some(i)
  {
  }

  /** The account whose number is `number`, if one exists. */
  function FindByNumber(accounts: seq<Account>, number: string): (r: Option<AccountId>)
    ensures r.Some? ==> r.value < |accounts| && accounts[r.value].number == number
    ensures r.None? ==> forall i :: 0 <= i < |accounts| ==> accounts[i].number != number
  {
    if accounts == [] then None
    else if accounts[0].number == number then Some(0)
    else match FindByNumber(accounts[1..], number)
      case None => None
      case Some(i) => Some(i + 1)
  }
}
