/** The apply phase of ledgerService.js. Each `process*` method opens a unit of work, reads the
    transaction, runs its UPDATEs and INSERTs and commits; any error rolls the whole unit back
    and is rethrown. Here the unit is all-or-nothing: `fails` says whether a store error occurs
    inside it, and an error of any kind leaves every table as it was. */
module Ledger {
  import opened Common
  import opened Constants
  import opened Schema
  import opened Accounts
  import opened Transactions
  import opened Loans
  import opened Amortization

  datatype ApplyError = TransactionNotFound | AlreadyProcessed | LoanNotFound | StoreFailure

  datatype ApplyResult = Applied | ApplyFailed(error: ApplyError)

  /** The account a nullable account reference selects; NULL selects no row (id 0). */
  function Target(ref: Option<nat>): int {
    if ref.Some? then ref.value else 0
  }

  // ------------------------------------------------------------ effects on the tables

  /** processTransfer and processLoanRepayment on the accounts: the source loses `amount` from
      its current balance only, the destination gains it on both balances. */
  function TransferEffect(rows: seq<Account>, t: Txn): seq<Account> {
    Adjust(Adjust(rows, Target(t.from), -t.amount, 0), Target(t.to), t.amount, t.amount)
  }

  /** processDeposit and processLoanDisbursement on the accounts: the destination gains
      `amount` on both balances. */
  function DepositEffect(rows: seq<Account>, t: Txn): seq<Account> {
    Adjust(rows, Target(t.to), t.amount, t.amount)
  }

  /** processWithdrawal on the accounts: the source loses `amount` from its current balance
      and then has `amount` added back to its available balance. */
  function WithdrawalEffect(rows: seq<Account>, t: Txn): seq<Account> {
    Adjust(Adjust(rows, Target(t.from), -t.amount, 0), Target(t.from), 0, t.amount)
  }

  /** A transfer between two distinct existing accounts moves `amount` from the source's
      current balance to both balances of the destination and touches no other account. */
  lemma TransferMovesBalances(rows: seq<Account>, t: Txn, from: nat, to: nat)
    requires t.from == Some(from) && t.to == Some(to) && from != to
    requires HasAccount(rows, from) && HasAccount(rows, to)
    ensures var r := TransferEffect(rows, t);
      |r| == |rows|
      && r[from - 1] == rows[from - 1].(current := rows[from - 1].current - t.amount)
      && r[to - 1] == rows[to - 1].(current := rows[to - 1].current + t.amount,
                                    available := rows[to - 1].available + t.amount)
      && forall k :: 0 <= k < |rows| && k != from - 1 && k != to - 1 ==> r[k] == rows[k]
  {
  }

  /** Between existing accounts the transfer keeps the bank's total current balance, and after
      the hold placed before it, the total available balance too. */
  lemma TransferConserves(rows: seq<Account>, t: Txn)
    requires t.from.Some? && t.to.Some?
    requires HasAccount(rows, t.from.value) && HasAccount(rows, t.to.value)
    ensures SumCurrent(TransferEffect(rows, t)) == SumCurrent(rows)
    ensures SumAvailable(TransferEffect(Adjust(rows, t.from.value, 0, -t.amount), t)) == SumAvailable(rows)
  {
    TransferKeepsCurrent(rows, t);
    var held := Adjust(rows, t.from.value, 0, -t.amount);
    AdjustTotals(rows, t.from.value, 0, -t.amount);
    TransferMovesAvailable(held, t);
  }

  /** The debit and the credit of a transfer between existing accounts cancel out. */
  lemma TransferKeepsCurrent(rows: seq<Account>, t: Txn)
    requires t.from.Some? && t.to.Some?
    requires HasAccount(rows, t.from.value) && HasAccount(rows, t.to.value)
    ensures SumCurrent(TransferEffect(rows, t)) == SumCurrent(rows)
  {
    DebitThenCredit(rows, Target(t.from), Target(t.to), t.amount);
  }

  /** Taking `amount` off the current balance of one existing account and crediting it to another
      (or the same) existing account leaves the total current balance where it was. */
  lemma DebitThenCredit(rows: seq<Account>, from: int, to: int, amount: int)
    requires HasAccount(rows, from) && HasAccount(rows, to)
    ensures SumCurrent(Adjust(Adjust(rows, from, -amount, 0), to, amount, amount)) == SumCurrent(rows)
  {
    AdjustTotals(rows, from, -amount, 0);
    AdjustTotals(Adjust(rows, from, -amount, 0), to, amount, amount);
  }

  /** A transfer to an existing account raises the total available balance by its amount. */
  lemma TransferMovesAvailable(rows: seq<Account>, t: Txn)
    requires t.from.Some? && t.to.Some?
    requires HasAccount(rows, t.to.value)
    ensures SumAvailable(TransferEffect(rows, t)) == SumAvailable(rows) + t.amount
  {
    var debited := Adjust(rows, Target(t.from), -t.amount, 0);
    AdjustTotals(rows, Target(t.from), -t.amount, 0);
    assert HasAccount(debited, Target(t.to));
    AdjustTotals(debited, Target(t.to), t.amount, t.amount);
  }

  /** After the hold of a transfer, the transfer keeps a table at rest: the source ends at rest
      with `amount` less on both balances. */
  lemma HeldTransferEndsAtRest(rows: seq<Account>, t: Txn)
    requires AtRest(rows) && t.from.Some? && t.to.Some? && t.from != t.to
    ensures AtRest(TransferEffect(Adjust(rows, t.from.value, 0, -t.amount), t))
  {
  }

  /** A deposit credits both balances of its destination and nothing else. */
  lemma DepositCredits(rows: seq<Account>, t: Txn, to: nat)
    requires t.to == Some(to) && HasAccount(rows, to)
    ensures var r := DepositEffect(rows, t);
      |r| == |rows|
      && r[to - 1] == rows[to - 1].(current := rows[to - 1].current + t.amount,
                                    available := rows[to - 1].available + t.amount)
      && forall k :: 0 <= k < |rows| && k != to - 1 ==> r[k] == rows[k]
    ensures SumCurrent(DepositEffect(rows, t)) == SumCurrent(rows) + t.amount
  {
    AdjustTotals(rows, to, t.amount, t.amount);
  }

  /** A withdrawal after the controller's hold lowers the current balance by `amount` but leaves
      the available balance where it was before the hold; an account at rest is left with more
      available than it holds. */
  lemma HeldWithdrawalRestoresAvailable(rows: seq<Account>, t: Txn, from: nat)
    requires t.from == Some(from) && HasAccount(rows, from)
    ensures var r := WithdrawalEffect(Adjust(rows, from, 0, -t.amount), t);
      |r| == |rows|
      && r[from - 1].current == rows[from - 1].current - t.amount
      && r[from - 1].available == rows[from - 1].available
      && forall k :: 0 <= k < |rows| && k != from - 1 ==> r[k] == rows[k]
    ensures rows[from - 1].available == rows[from - 1].current && t.amount > 0 ==>
      var r := WithdrawalEffect(Adjust(rows, from, 0, -t.amount), t);
      r[from - 1].available == r[from - 1].current + t.amount
  {
  }

  // ------------------------------------------------------------------- EMIs

  /** The EMI row inserted in iteration `i` (from 1) of the disbursement loop. */
  function EmiRow(loanId: nat, loan: Loan, nowMs: int, i: nat): Emi
    requires i >= 1
  {
    var r := MonthlyRate(loan.interestRate);
    var emi := loan.emiAmount as real;
    Emi(loanId, i, nowMs + i * 30 * DAY_MS, loan.emiAmount,
        PrincipalPart(loan.amount as real, r, emi, i),
        InterestPart(loan.amount as real, r, emi, i),
        EmiPending, 0, None)
  }

  /** The first `n` EMI rows of the loan's schedule. */
  function EmiRows(loanId: nat, loan: Loan, nowMs: int, n: nat): seq<Emi> {
    seq(n, k requires 0 <= k => EmiRow(loanId, loan, nowMs, k + 1))
  }

  /** The schedule written at disbursement: `tenure_months` pending EMIs numbered 1..n in order,
      each of the loan's EMI amount, split into interest on the remaining principal and the rest
      as principal, due every thirty days from `nowMs`. */
  lemma DisbursementSchedule(loanId: nat, loan: Loan, nowMs: int, k: nat)
    requires k < loan.tenureMonths
    ensures var rows := EmiRows(loanId, loan, nowMs, loan.tenureMonths);
      var r := MonthlyRate(loan.interestRate);
      var e := rows[k];
      |rows| == loan.tenureMonths
      && e.loanId == loanId && e.emiNumber == k + 1 && e.status == EmiPending && e.amount == loan.emiAmount
      && e.interest == Remaining(loan.amount as real, r, loan.emiAmount as real, k) * r
      && e.principal + e.interest == loan.emiAmount as real
      && e.dueDate == nowMs + (k + 1) * 30 * DAY_MS
      && (k > 0 ==> e.dueDate == rows[k - 1].dueDate + 30 * DAY_MS)
  {
  }

  predicate PendingOf(e: Emi, loanId: nat) {
    e.loanId == loanId && e.status == EmiPending
  }

  /** The position of the row that `ORDER BY emi_number LIMIT 1` picks among the loan's pending
      EMIs: the lowest number, the first in table order among equals. */
  function NextPending(emis: seq<Emi>, loanId: nat): (k: Option<nat>)
    ensures k.Some? ==> k.value < |emis| && PendingOf(emis[k.value], loanId)
    ensures k.Some? ==> forall j :: 0 <= j < |emis| && PendingOf(emis[j], loanId) ==>
      emis[k.value].emiNumber <= emis[j].emiNumber
    ensures k.None? ==> forall j :: 0 <= j < |emis| ==> !PendingOf(emis[j], loanId)
  {
    if emis == [] then None
    else
      var n := |emis|;
      var front := NextPending(emis[..n - 1], loanId);
      assert forall j :: 0 <= j < n - 1 ==> emis[..n - 1][j] == emis[j];
      if PendingOf(emis[n - 1], loanId) && (front.None? || emis[n - 1].emiNumber < emis[front.value].emiNumber)
      then Some(n - 1)
      else front
  }

  /** The EMI update of processLoanRepayment: the chosen EMI becomes paid, with its paid amount
      set to its own scheduled amount. */
  function PayNextEmi(emis: seq<Emi>, loanId: nat, nowMs: int): seq<Emi> {
    match NextPending(emis, loanId)
    case None => emis
    case Some(k) => emis[k := emis[k].(status := EmiPaid, paidAmount := emis[k].amount, paidDate := Some(nowMs))]
  }

  function CountPending(emis: seq<Emi>, loanId: nat): nat {
    if emis == [] then 0 else (if PendingOf(emis[0], loanId) then 1 else 0) + CountPending(emis[1..], loanId)
  }

  lemma {:induction false} CountPendingUpdate(emis: seq<Emi>, loanId: nat, k: nat, e: Emi)
    requires k < |emis| && PendingOf(emis[k], loanId) && !PendingOf(e, loanId)
    ensures CountPending(emis[k := e], loanId) == CountPending(emis, loanId) - 1
  {
    if k > 0 {
      CountPendingUpdate(emis[1..], loanId, k - 1, e);
      assert emis[k := e][1..] == emis[1..][k - 1 := e];
    }
  }

  lemma {:induction false} CountPendingNone(emis: seq<Emi>, loanId: nat)
    requires forall j :: 0 <= j < |emis| ==> !PendingOf(emis[j], loanId)
    ensures CountPending(emis, loanId) == 0
  {
    if emis != [] {
      CountPendingNone(emis[1..], loanId);
    }
  }

  /** A repayment settles exactly one EMI of the loan when one is pending, the lowest-numbered,
      at its scheduled amount whatever was repaid; with none pending it changes nothing. */
  lemma PayNextEmiEffect(emis: seq<Emi>, loanId: nat, nowMs: int)
    ensures |PayNextEmi(emis, loanId, nowMs)| == |emis|
    ensures CountPending(emis, loanId) == 0 ==> PayNextEmi(emis, loanId, nowMs) == emis
    ensures CountPending(emis, loanId) > 0 ==>
      CountPending(PayNextEmi(emis, loanId, nowMs), loanId) == CountPending(emis, loanId) - 1
      && (exists k :: 0 <= k < |emis| && PendingOf(emis[k], loanId)
           && PayNextEmi(emis, loanId, nowMs)[k] == emis[k].(status := EmiPaid, paidAmount := emis[k].amount, paidDate := Some(nowMs))
           && (forall j :: 0 <= j < |emis| && j != k ==> PayNextEmi(emis, loanId, nowMs)[j] == emis[j])
           && (forall j :: 0 <= j < |emis| && PendingOf(emis[j], loanId) ==> emis[k].emiNumber <= emis[j].emiNumber))
  {
    match NextPending(emis, loanId)
    case None =>
      CountPendingNone(emis, loanId);
    case Some(k) =>
      CountPendingUpdate(emis, loanId, k, emis[k].(status := EmiPaid, paidAmount := emis[k].amount, paidDate := Some(nowMs)));
  }

  // --------------------------------------------------------- the process* methods

  /** How a unit of work that reads the transaction ends. `guarded` is processTransfer's check
      that the transaction is still pending; no other method has it. */
  function Outcome(txns: seq<Txn>, tid: string, guarded: bool, fails: bool): ApplyResult {
    match FindByTransactionId(txns, tid)
    case None => ApplyFailed(TransactionNotFound)
    case Some(t) =>
      if guarded && t.status != Pending then ApplyFailed(AlreadyProcessed)
      else if fails then ApplyFailed(StoreFailure)
      else Applied
  }

  /** processTransfer refuses a transaction that is no longer pending; the other methods apply
      the same transaction again. */
  lemma OnlyTransferIsGuarded(txns: seq<Txn>, tid: string, fails: bool)
    requires FindByTransactionId(txns, tid).Some? && FindByTransactionId(txns, tid).value.status == Completed
    ensures Outcome(txns, tid, true, fails) == ApplyFailed(AlreadyProcessed)
    ensures Outcome(txns, tid, false, fails) == (if fails then ApplyFailed(StoreFailure) else Applied)
  {
  }

  /** `ledgerService.processTransfer`. */
  method ProcessTransfer(db: Database, tid: string, fails: bool) returns (r: ApplyResult)
    modifies db`accounts
    ensures r == Outcome(old(db.txns), tid, true, fails)
    ensures r.ApplyFailed? ==> db.accounts == old(db.accounts)
    ensures r.Applied? ==> db.accounts == TransferEffect(old(db.accounts), FindByTransactionId(db.txns, tid).value)
  {
    var found := FindByTransactionId(db.txns, tid);
    if found.None? { return ApplyFailed(TransactionNotFound); }
    var t := found.value;
    if t.status != Pending { return ApplyFailed(AlreadyProcessed); }
    if fails { return ApplyFailed(StoreFailure); }
    UpdateBalanceLegs(db, Target(t.from), -t.amount, 0);
    UpdateBalanceLegs(db, Target(t.to), t.amount, t.amount);
    r := Applied;
  }

  /** One `UPDATE accounts` statement inside a unit of work. */
  method UpdateBalanceLegs(db: Database, id: int, dCurrent: int, dAvailable: int)
    modifies db`accounts
    ensures db.accounts == Adjust(old(db.accounts), id, dCurrent, dAvailable)
  {
    if 1 <= id <= |db.accounts| {
      var a := db.accounts[id - 1];
      db.accounts := db.accounts[id - 1 := a.(current := a.current + dCurrent, available := a.available + dAvailable)];
    }
  }

  /** `ledgerService.processDeposit`. */
  method ProcessDeposit(db: Database, tid: string, fails: bool) returns (r: ApplyResult)
    modifies db`accounts
    ensures r == Outcome(old(db.txns), tid, false, fails)
    ensures r.ApplyFailed? ==> db.accounts == old(db.accounts)
    ensures r.Applied? ==> db.accounts == DepositEffect(old(db.accounts), FindByTransactionId(db.txns, tid).value)
  {
    var found := FindByTransactionId(db.txns, tid);
    if found.None? { return ApplyFailed(TransactionNotFound); }
    if fails { return ApplyFailed(StoreFailure); }
    var t := found.value;
    UpdateBalanceLegs(db, Target(t.to), t.amount, t.amount);
    r := Applied;
  }

  /** `ledgerService.processWithdrawal`. */
  method ProcessWithdrawal(db: Database, tid: string, fails: bool) returns (r: ApplyResult)
    modifies db`accounts
    ensures r == Outcome(old(db.txns), tid, false, fails)
    ensures r.ApplyFailed? ==> db.accounts == old(db.accounts)
    ensures r.Applied? ==> db.accounts == WithdrawalEffect(old(db.accounts), FindByTransactionId(db.txns, tid).value)
  {
    var found := FindByTransactionId(db.txns, tid);
    if found.None? { return ApplyFailed(TransactionNotFound); }
    if fails { return ApplyFailed(StoreFailure); }
    var t := found.value;
    UpdateBalanceLegs(db, Target(t.from), -t.amount, 0);
    UpdateBalanceLegs(db, Target(t.from), 0, t.amount);
    r := Applied;
  }

  /** The loan row after the disbursement's `UPDATE loans SET status = 'active', disbursed_at`. */
  function Activate(loans: seq<Loan>, loanId: int, nowMs: int): seq<Loan> {
    if HasLoan(loans, loanId) then loans[loanId - 1 := loans[loanId - 1].(status := Active, disbursedAt := Some(nowMs))]
    else loans
  }

  /** `ledgerService.processLoanDisbursement`: credits the borrower, activates the loan and writes
      its EMI schedule. Reading a missing loan throws inside the unit of work. */
  method ProcessLoanDisbursement(db: Database, tid: string, loanId: nat, nowMs: int, fails: bool) returns (r: ApplyResult)
    modifies db`accounts, db`loans, db`emis
    ensures var o := Outcome(old(db.txns), tid, false, fails);
      r == (if o.Applied? && !HasLoan(old(db.loans), loanId) then ApplyFailed(LoanNotFound) else o)
    ensures r.ApplyFailed? ==>
      db.accounts == old(db.accounts) && db.loans == old(db.loans) && db.emis == old(db.emis)
    ensures r.Applied? ==>
      db.accounts == DepositEffect(old(db.accounts), FindByTransactionId(db.txns, tid).value)
      && db.loans == Activate(old(db.loans), loanId, nowMs)
      && db.emis == old(db.emis) + EmiRows(loanId, old(db.loans)[loanId - 1], nowMs, old(db.loans)[loanId - 1].tenureMonths)
  {
    var found := FindByTransactionId(db.txns, tid);
    if found.None? { return ApplyFailed(TransactionNotFound); }
    if fails { return ApplyFailed(StoreFailure); }
    if !(1 <= loanId <= |db.loans|) { return ApplyFailed(LoanNotFound); }
    var t := found.value;
    var loan := db.loans[loanId - 1];
    UpdateBalanceLegs(db, Target(t.to), t.amount, t.amount);
    db.loans := Activate(db.loans, loanId, nowMs);
    WriteSchedule(db, loanId, loan, nowMs);
    r := Applied;
  }

  /** The loop of processLoanDisbursement that inserts one EMI row per month of the tenure,
      carrying the remaining principal from one installment to the next. */
  method WriteSchedule(db: Database, loanId: nat, loan: Loan, nowMs: int)
    modifies db`emis
    ensures db.emis == old(db.emis) + EmiRows(loanId, loan, nowMs, loan.tenureMonths)
  {
    var emi := loan.emiAmount as real;
    var principal := loan.amount as real;
    var monthlyRate := MonthlyRate(loan.interestRate);
    var remainingPrincipal := principal;
    var i := 1;
    while i <= loan.tenureMonths
      invariant 1 <= i <= loan.tenureMonths + 1
      invariant remainingPrincipal == Remaining(principal, monthlyRate, emi, i - 1)
      invariant db.emis == old(db.emis) + EmiRows(loanId, loan, nowMs, i - 1)
    {
      var interest := remainingPrincipal * monthlyRate;
      var principalPaid := emi - interest;
      remainingPrincipal := remainingPrincipal - principalPaid;
      db.emis := db.emis + [Emi(loanId, i, nowMs + i * 30 * DAY_MS, loan.emiAmount, principalPaid, interest, EmiPending, 0, None)];
      assert interest == InterestPart(principal, monthlyRate, emi, i);
      assert db.emis[|db.emis| - 1] == EmiRow(loanId, loan, nowMs, i);
      assert EmiRows(loanId, loan, nowMs, i) == EmiRows(loanId, loan, nowMs, i - 1) + [EmiRow(loanId, loan, nowMs, i)];
      i := i + 1;
    }
  }

  /** `ledgerService.processLoanRepayment`: moves the money like a transfer and settles the
      loan's next pending EMI. */
  method ProcessLoanRepayment(db: Database, tid: string, loanId: nat, nowMs: int, fails: bool) returns (r: ApplyResult)
    modifies db`accounts, db`emis
    ensures r == Outcome(old(db.txns), tid, false, fails)
    ensures r.ApplyFailed? ==> db.accounts == old(db.accounts) && db.emis == old(db.emis)
    ensures r.Applied? ==>
      db.accounts == TransferEffect(old(db.accounts), FindByTransactionId(db.txns, tid).value)
      && db.emis == PayNextEmi(old(db.emis), loanId, nowMs)
  {
    var found := FindByTransactionId(db.txns, tid);
    if found.None? { return ApplyFailed(TransactionNotFound); }
    if fails { return ApplyFailed(StoreFailure); }
    var t := found.value;
    UpdateBalanceLegs(db, Target(t.from), -t.amount, 0);
    UpdateBalanceLegs(db, Target(t.to), t.amount, t.amount);
    db.emis := PayNextEmi(db.emis, loanId, nowMs);
    r := Applied;
  }
}
