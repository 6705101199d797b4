/**
  The transaction record table (transactions/models.py). Records are listed in
  timestamp order; the timestamp is set once, when the record is created.
*/
module Transactions {
  import opened Wrappers
  import opened Accounts

  /** The transaction-type constants. */
  datatype TxType = Deposit | Withdrawal | Loan | LoanPaid | Transfer | Receive

  /** A Transaction row. `kind` (transaction_type) and `toAccount` (the counterparty) are nullable;
      `amount` and `balanceAfter` are hundredths; `timestamp` is seconds on the server's clock. */
  datatype Transaction = Transaction(
    account: AccountId,
    kind: Option<TxType>,
    amount: int,
    balanceAfter: int,
    timestamp: int,
    loanApproved: bool,
    toAccount: Option<AccountId>)

  /** A record as the create path writes it: loan_approved keeps its default, false. */
  function NewTransaction(account: AccountId, kind: TxType, amount: int, balanceAfter: int, now: int,
                          toAccount: Option<AccountId>): (t: Transaction)
    ensures !t.loanApproved && t.kind == Some(kind) && t.timestamp == now
  {
    Transaction(account, Some(kind), amount, balanceAfter, now, false, toAccount)
  }

  const SecondsPerDay: int := 86400

  /** The calendar day of a timestamp, which `timestamp__date` compares. */
  function Day(timestamp: int): int {
    timestamp / SecondsPerDay
  }

  predicate SortedByTime(s: seq<Transaction>) {
    forall i, j :: 0 <= i < j < |s| ==> s[i].timestamp <= s[j].timestamp
  }

  function InsertByTime(t: Transaction, s: seq<Transaction>): (r: seq<Transaction>)
    requires SortedByTime(s)
    ensures SortedByTime(r)
    ensures multiset(r) == multiset(s) + multiset{t}
  {
    if s == [] || t.timestamp <= s[0].timestamp then [t] + s
    else
      var rest := InsertByTime(t, s[1..]);
      assert s == [s[0]] + s[1..];
      assert forall u :: u in multiset(s[1..]) ==> s[0].timestamp <= u.timestamp by {
        forall u | u in multiset(s[1..]) ensures s[0].timestamp <= u.timestamp {
          var j :| 0 <= j < |s[1..]| && s[1..][j] == u;
          assert s[j + 1] == u;
        }
      }
      assert forall k :: 0 <= k < |rest| ==> rest[k] in multiset(rest);
      [s[0]] + rest
  }

  /** `ordering = ['timestamp']`: the records in non-decreasing timestamp order. The database
      promises no order among records with equal timestamps; this model picks one. */
  function SortByTime(s: seq<Transaction>): (r: seq<Transaction>)
    ensures SortedByTime(r)
    ensures multiset(r) == multiset(s)
    ensures forall t :: t in r <==> t in s
  {
    if s == [] then []
    else
      assert s == [s[0]] + s[1..];
      var r := InsertByTime(s[0], SortByTime(s[1..]));
      SameMembers(r, s);
      r
  }

  lemma SameMembers(a: seq<Transaction>, b: seq<Transaction>)
    requires multiset(a) == multiset(b)
    ensures forall t :: t in a <==> t in b
  {
    forall t ensures t in a <==> t in b {
      assert t in a <==> t in multiset(a);
      assert t in b <==> t in multiset(b);
    }
  }

  /** The records of `s` that satisfy `p`, in their order in `s` (a queryset filter). */
  function Where(s: seq<Transaction>, p: Transaction -> bool): (r: seq<Transaction>)
    ensures |r| <= |s|
    ensures forall t :: t in r <==> t in s && p(t)
  {
    if s == [] then []
    else (if p(s[0]) then [s[0]] else []) + Where(s[1..], p)
  }

  lemma {:induction false} WhereAppend(s: seq<Transaction>, t: Transaction, p: Transaction -> bool)
    ensures Where(s + [t], p) == Where(s, p) + (if p(t) then [t] else [])
  {
    if s == [] {
      assert [t][1..] == [];
    } else {
      assert (s + [t])[1..] == s[1..] + [t];
      WhereAppend(s[1..], t, p);
    }
  }

  /** Replacing one record changes how many a filter selects by what it thought of the old
      record and of the new one. */
  lemma {:induction false} WhereUpdateCount(s: seq<Transaction>, i: nat, u: Transaction, p: Transaction -> bool)
    requires i < |s|
    ensures |Where(s[i := u], p)| == |Where(s, p)| - (if p(s[i]) then 1 else 0) + (if p(u) then 1 else 0)
  {
    if i == 0 {
      assert s[i := u][1..] == s[1..];
    } else {
      assert s[i := u][1..] == s[1..][i - 1 := u];
      WhereUpdateCount(s[1..], i - 1, u, p);
    }
  }

  /** Two filters that agree on every record of `s` select the same records. */
  lemma {:induction false} WhereAgree(s: seq<Transaction>, p: Transaction -> bool, q: Transaction -> bool)
    requires forall t :: t in s ==> p(t) == q(t)
    ensures Where(s, p) == Where(s, q)
  {
    if s != [] {
      assert forall t :: t in s[1..] ==> t in s;
      WhereAgree(s[1..], p, q);
    }
  }

  /** `Sum('amount')` over a list of records. */
  function SumAmounts(s: seq<Transaction>): int {
    if s == [] then 0 else s[0].amount + SumAmounts(s[1..])
  }

  lemma {:induction false} SumInsert(t: Transaction, s: seq<Transaction>)
    requires SortedByTime(s)
    ensures SumAmounts(InsertByTime(t, s)) == t.amount + SumAmounts(s)
  {
    if s != [] && t.timestamp > s[0].timestamp {
      SumInsert(t, s[1..]);
    }
  }

  /** Putting records in timestamp order does not change their total. */
  lemma {:induction false} SumSorted(s: seq<Transaction>)
    ensures SumAmounts(SortByTime(s)) == SumAmounts(s)
  {
    if s != [] {
      SumSorted(s[1..]);
      SumInsert(s[0], SortByTime(s[1..]));
    }
  }
}
