/** The loan record of loan.model.js: creation, status changes, repayment bookkeeping and the
    overdue query. The EMI formula lives in module Amortization. */
module Loans {
  import opened Common
  import opened Constants
  import opened Schema

  predicate HasLoan(rows: seq<Loan>, id: int) { 1 <= id <= |rows| }

  /** `LOAN`, the millisecond timestamp, and a random number drawn from 1000..9999 (passed in). */
  function GenerateLoanNumber(nowMs: nat, random: int): (number: string)
    requires 1000 <= random <= 9999
    ensures StartsWith(number, "LOAN") && AllDigits(number[4..])
    ensures |number| >= 9 && ParseDecimal(number[|number| - 4..]) == random
  {
    var tail := NatToString(random);
    assert Pow10(3) == 1000 && Pow10(4) == 10000;
    NatToStringLength(random, 4);
    ParseNatToString(random);
    var number := "LOAN" + NatToString(nowMs) + tail;
    assert number[4..] == NatToString(nowMs) + tail;
    assert number[|number| - 4..] == tail;
    number
  }

  /** What `Loan.create` receives. */
  datatype NewLoan = NewLoan(
    userId: nat,
    accountId: nat,
    loanType: string,
    amount: int,
    interestRate: real,
    tenureMonths: nat,
    purpose: string,
    emiAmount: int)

  /** The row `Loan.create` inserts: pending, nothing repaid, nothing disbursed. */
  function NewLoanRow(req: NewLoan, number: string): (row: Loan)
    ensures row.status == LoanPending && row.disbursedAt.None? && row.lastPaymentDate.None?
    ensures row.remainingAmount == req.amount == row.amount
    ensures row.remainingTenure == req.tenureMonths == row.tenureMonths
    ensures row.emiAmount == req.emiAmount && row.loanNumber == number
  {
    Loan(number, req.userId, req.accountId, req.loanType, req.amount, req.interestRate,
         req.tenureMonths, req.tenureMonths, req.emiAmount, req.amount, req.purpose,
         LoanPending, None, None, None)
  }

  predicate NumberTaken(rows: seq<Loan>, number: string) {
    exists k :: 0 <= k < |rows| && rows[k].loanNumber == number
  }

  /** `Loan.create`: appends the row and returns its id and loan number; the UNIQUE constraint
      on `loan_number` makes the INSERT fail on a clash, inserting nothing. */
  method Create(db: Database, req: NewLoan, nowMs: nat, random: int) returns (r: Option<(nat, string)>)
    requires 1000 <= random <= 9999
    modifies db`loans
    ensures var number := GenerateLoanNumber(nowMs, random);
      if NumberTaken(old(db.loans), number) then r.None? && db.loans == old(db.loans)
      else db.loans == old(db.loans) + [NewLoanRow(req, number)] && r == Some((|db.loans|, number))
  {
    var number := GenerateLoanNumber(nowMs, random);
    if exists k :: 0 <= k < |db.loans| && db.loans[k].loanNumber == number {
      r := None;
    } else {
      db.loans := db.loans + [NewLoanRow(req, number)];
      r := Some((|db.loans|, number));
    }
  }

  // ---------------------------------------------------------- updateStatus

  /** The row after `Loan.updateStatus`: `disbursed_at` is stamped only for the status
      `disbursed`, and `remarks` is written only when a non-empty one is given. */
  function WithStatus(loan: Loan, status: LoanStatus, remarks: Option<string>, nowMs: int): Loan {
    loan.(status := status,
          disbursedAt := if status == Disbursed then Some(nowMs) else loan.disbursedAt,
          remarks := if remarks.Some? && remarks.value != "" then remarks else loan.remarks)
  }

  function SetStatus(rows: seq<Loan>, id: int, status: LoanStatus, remarks: Option<string>, nowMs: int): seq<Loan> {
    if HasLoan(rows, id) then rows[id - 1 := WithStatus(rows[id - 1], status, remarks, nowMs)] else rows
  }

  /** `Loan.updateStatus`. */
  method UpdateStatus(db: Database, id: int, status: LoanStatus, remarks: Option<string>, nowMs: int)
    modifies db`loans
    ensures db.loans == SetStatus(old(db.loans), id, status, remarks, nowMs)
  {
    if 1 <= id <= |db.loans| {
      db.loans := db.loans[id - 1 := WithStatus(db.loans[id - 1], status, remarks, nowMs)];
    }
  }

  /** What a status change keeps: amounts and schedule fields never move; the disbursement
      stamp is set exactly for `disbursed`, and remarks change only when non-empty ones are given. */
  lemma WithStatusKeeps(loan: Loan, status: LoanStatus, remarks: Option<string>, nowMs: int)
    ensures var l := WithStatus(loan, status, remarks, nowMs);
      l.status == status && l.amount == loan.amount && l.remainingAmount == loan.remainingAmount
      && l.emiAmount == loan.emiAmount && l.lastPaymentDate == loan.lastPaymentDate
      && (status == Disbursed ==> l.disbursedAt == Some(nowMs))
      && (status != Disbursed ==> l.disbursedAt == loan.disbursedAt)
      && (remarks.None? || remarks == Some("") ==> l.remarks == loan.remarks)
  {
  }

  // ------------------------------------------------------- updateRepayment

  /** The row after `Loan.updateRepayment`: no lower bound on the remaining amount. */
  function WithRepayment(loan: Loan, amountPaid: int, nowMs: int): Loan {
    loan.(remainingAmount := loan.remainingAmount - amountPaid, lastPaymentDate := Some(nowMs))
  }

  function Repay(rows: seq<Loan>, id: int, amountPaid: int, nowMs: int): seq<Loan> {
    if HasLoan(rows, id) then rows[id - 1 := WithRepayment(rows[id - 1], amountPaid, nowMs)] else rows
  }

  /** `Loan.updateRepayment`. */
  method UpdateRepayment(db: Database, id: int, amountPaid: int, nowMs: int)
    modifies db`loans
    ensures db.loans == Repay(old(db.loans), id, amountPaid, nowMs)
  {
    if 1 <= id <= |db.loans| {
      db.loans := db.loans[id - 1 := WithRepayment(db.loans[id - 1], amountPaid, nowMs)];
    }
  }

  /** Nothing stops a repayment from taking the remaining amount below zero. */
  lemma RepaymentHasNoLowerBound(loan: Loan, amountPaid: int, nowMs: int)
    requires amountPaid > loan.remainingAmount
    ensures WithRepayment(loan, amountPaid, nowMs).remainingAmount < 0
    ensures WithRepayment(loan, amountPaid, nowMs).lastPaymentDate == Some(nowMs)
  {
  }

  // ------------------------------------------------------- getOverdueLoans

  /** Active, still owing, and last paid more than thirty days before `nowMs`. */
  predicate IsOverdue(loan: Loan, nowMs: int) {
    loan.status == Active
    && loan.lastPaymentDate.Some? && loan.lastPaymentDate.value < nowMs - 30 * DAY_MS
    && loan.remainingAmount > 0
  }

  /** `Loan.getOverdueLoans`: the ids of the overdue loans. The query fixes no order; the model
      lists them in ascending id order. A NULL `last_payment_date` fails the comparison, so a
      loan never paid is never selected. */
  function OverdueLoans(rows: seq<Loan>, nowMs: int): (ids: seq<nat>)
    ensures forall id :: id in ids <==> HasLoan(rows, id) && IsOverdue(rows[id - 1], nowMs)
    ensures forall i, j :: 0 <= i < j < |ids| ==> ids[i] < ids[j]
    decreases |rows|
  {
    if rows == [] then []
    else
      var last := |rows|;
      var front := OverdueLoans(rows[..last - 1], nowMs);
      assert forall k :: 0 <= k < last - 1 ==> rows[..last - 1][k] == rows[k];
      forall k | 0 <= k < |front|
        ensures front[k] < last
      {
        assert front[k] in front;
        assert HasLoan(rows[..last - 1], front[k]);
      }
      if IsOverdue(rows[last - 1], nowMs) then front + [last] else front
  }

  /** A loan that has never been repaid is never reported overdue, however old it is. */
  lemma NeverPaidNeverOverdue(rows: seq<Loan>, id: nat, nowMs: int)
    requires HasLoan(rows, id) && rows[id - 1].lastPaymentDate.None?
    ensures id !in OverdueLoans(rows, nowMs)
  {
  }
}
