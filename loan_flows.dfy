/** The loan flows of loanController.js: applying for a loan, repaying it, the amortization
    schedule it reports, the summary of a borrower's loans and the EMI quote. */
module LoanFlows {
  import opened Common
  import opened Constants
  import opened Schema
  import opened Accounts
  import opened Transactions
  import opened Loans
  import opened Amortization
  import opened Ledger

  datatype LoanReason =
    | NoSuchLoan
    | AccessDenied
    | NotActive
    | NonPositiveAmount
    | BadTenure
    | ExceedsRemaining
    | InvalidAccount
    | InsufficientFunds

  datatype LoanStage = InsertFailed | LedgerFailed | LoanUpdateFailed | CloseFailed | PostCommitFailed

  /** `id` is the loan number of an application, the transaction id of a repayment. */
  datatype LoanResult = Succeeded(id: string) | Refused(reason: LoanReason) | Aborted(stage: LoanStage)

  // ------------------------------------------------------------ applyForLoan

  function CheckApplication(accounts: seq<Account>, userId: nat, accountId: nat, amount: int, tenure: int): Option<LoanReason> {
    if amount <= 0 then Some(NonPositiveAmount)
    else if tenure < 1 || tenure > 60 then Some(BadTenure)
    else if !Owns(accounts, accountId, userId) then Some(InvalidAccount)
    else None
  }

  /** The application stored for an accepted request, at the bank's fixed rate. */
  function Application(userId: nat, accountId: nat, loanType: string, amount: int, tenure: nat, purpose: string): (req: NewLoan)
    requires amount > 0 && tenure >= 1
    ensures req.interestRate == LOAN_INTEREST_RATE && req.amount == amount && req.tenureMonths == tenure
    ensures var raw := RawEmi(amount as real, MonthlyRate(LOAN_INTEREST_RATE), tenure);
      raw.Some? && raw.value - 0.5 < req.emiAmount as real <= raw.value + 0.5
  {
    EmiDefinedForPositiveRate(amount, LOAN_INTEREST_RATE, tenure);
    NewLoan(userId, accountId, loanType, amount, LOAN_INTEREST_RATE, tenure, purpose,
            CalculateEmi(amount, LOAN_INTEREST_RATE, tenure).value)
  }

  /** applyForLoan: checks, then the pending loan row; the notifications and the audit log after
      it may throw, leaving the row in place. */
  function ApplyFlow(accounts: seq<Account>, loans: seq<Loan>, userId: nat, accountId: nat, loanType: string,
                     amount: int, tenure: int, purpose: string, nowMs: nat, random: int, notifyFails: bool): (LoanResult, seq<Loan>)
    requires 1000 <= random <= 9999
  {
    match CheckApplication(accounts, userId, accountId, amount, tenure)
    case Some(reason) => (Refused(reason), loans)
    case None =>
      var number := GenerateLoanNumber(nowMs, random);
      if Loans.NumberTaken(loans, number) then (Aborted(InsertFailed), loans)
      else
        var row := NewLoanRow(Application(userId, accountId, loanType, amount, tenure, purpose), number);
        (if notifyFails then Aborted(PostCommitFailed) else Succeeded(number), loans + [row])
  }

  /** `loanController.applyForLoan`. */
  method ApplyForLoan(db: Database, userId: nat, accountId: nat, loanType: string, amount: int, tenure: int,
                      purpose: string, nowMs: nat, random: int, notifyFails: bool) returns (r: LoanResult)
    requires 1000 <= random <= 9999
    modifies db`loans
    ensures (r, db.loans) == ApplyFlow(db.accounts, old(db.loans), userId, accountId, loanType, amount, tenure,
                                       purpose, nowMs, random, notifyFails)
  {
    var check := CheckApplication(db.accounts, userId, accountId, amount, tenure);
    if check.Some? {
      return Refused(check.value);
    }
    var created := Loans.Create(db, Application(userId, accountId, loanType, amount, tenure, purpose), nowMs, random);
    if created.None? {
      return Aborted(InsertFailed);
    }
    r := if notifyFails then Aborted(PostCommitFailed) else Succeeded(created.value.1);
  }

  /** An application is refused exactly for a non-positive amount, a tenure outside 1..60 or an
      account that is not the applicant's, and writes nothing then. An accepted one stores a
      pending loan at 8.5% whose EMI is the closed form rounded to the minor unit and whose
      whole amount is still owed. */
  lemma ApplicationOutcomes(accounts: seq<Account>, loans: seq<Loan>, userId: nat, accountId: nat, loanType: string,
                            amount: int, tenure: int, purpose: string, nowMs: nat, random: int, notifyFails: bool)
    requires 1000 <= random <= 9999
    ensures var (r, after) := ApplyFlow(accounts, loans, userId, accountId, loanType, amount, tenure, purpose, nowMs, random, notifyFails);
      (r.Refused? <==> amount <= 0 || tenure < 1 || tenure > 60 || !Owns(accounts, accountId, userId))
      && (r.Refused? ==> after == loans)
      && (|after| > |loans| ==>
            |after| == |loans| + 1 && after[..|loans|] == loans
            && after[|loans|].status == LoanPending && after[|loans|].userId == userId
            && after[|loans|].accountId == accountId
            && after[|loans|].interestRate == LOAN_INTEREST_RATE
            && after[|loans|].remainingAmount == after[|loans|].amount == amount
            && after[|loans|].tenureMonths == tenure
            && var raw := RawEmi(amount as real, MonthlyRate(LOAN_INTEREST_RATE), tenure);
               raw.Some? && raw.value - 0.5 < after[|loans|].emiAmount as real <= raw.value + 0.5)
  {
  }

  // ---------------------------------------------------------------- repayLoan

  /** The checks of repayLoan in their order. */
  function CheckRepayment(accounts: seq<Account>, loans: seq<Loan>, userId: nat, loanId: nat, accountId: nat, amount: int): Option<LoanReason> {
    if !HasLoan(loans, loanId) then Some(NoSuchLoan)
    else if loans[loanId - 1].userId != userId then Some(AccessDenied)
    else if loans[loanId - 1].status != Active then Some(NotActive)
    else if amount <= 0 then Some(NonPositiveAmount)
    else if amount > loans[loanId - 1].remainingAmount then Some(ExceedsRemaining)
    else if !Owns(accounts, accountId, userId) then Some(InvalidAccount)
    else if accounts[accountId - 1].available < amount then Some(InsufficientFunds)
    else None
  }

  /** Where a repayment throws, if anywhere: in the ledger's unit of work, in `updateRepayment`
      after the ledger committed, between `updateRepayment` and the close (re-reading the loan or
      `updateStatus`), or in a later step (notifications, the audit log). */
  datatype RepayFault = NoRepayFault | RepayLedgerFault(message: string) | LoanUpdateFault(message: string)
                      | CloseFault(message: string) | RepayLateFault(message: string)

  function RepayRequest(accountId: nat, loan: Loan, amount: int): NewTxn {
    NewTxn(Some(accountId), Some(loan.accountId), amount, LoanRepayment, Some("Loan repayment for " + loan.loanNumber), Some(Pending))
  }

  /** The loan rows with the loan closed when nothing remains of it. */
  function ClosedIfRepaid(loans: seq<Loan>, loanId: nat, nowMs: int): seq<Loan> {
    if HasLoan(loans, loanId) && loans[loanId - 1].remainingAmount <= 0
    then Loans.SetStatus(loans, loanId, Closed, Some("Loan fully repaid"), nowMs)
    else loans
  }

  /** The loan rows after `updateRepayment`, closed when nothing remains. */
  function RepaidLoans(loans: seq<Loan>, loanId: nat, amount: int, nowMs: int): seq<Loan> {
    ClosedIfRepaid(Repay(loans, loanId, amount, nowMs), loanId, nowMs)
  }

  datatype RepayState = RepayState(result: LoanResult, accounts: seq<Account>, txns: seq<Txn>, loans: seq<Loan>, emis: seq<Emi>)

  /** repayLoan: the checks, a hold on the paying account, a pending repayment row that credits
      the loan's own account, the ledger, `updateRepayment` and the close. The row is never marked
      completed. An error after the row is logged releases the hold and marks the row failed. */
  function RepayFlow(accounts: seq<Account>, txns: seq<Txn>, loans: seq<Loan>, emis: seq<Emi>, userId: nat, loanId: nat,
                     accountId: nat, amount: int, nowMs: nat, random: int, fault: RepayFault): RepayState
    requires 1000 <= random <= 9999
  {
    match CheckRepayment(accounts, loans, userId, loanId, accountId, amount)
    case Some(reason) => RepayState(Refused(reason), accounts, txns, loans, emis)
    case None =>
      var held := Adjust(accounts, accountId, 0, -amount);
      var tid := GenerateTransactionId(nowMs, random);
      if IdTaken(txns, tid) then RepayState(Aborted(InsertFailed), held, txns, loans, emis)
      else
        var row := NewTxnRow(RepayRequest(accountId, loans[loanId - 1], amount), tid, nowMs);
        var logged := txns + [row];
        var moved := TransferEffect(held, row);
        var paid := PayNextEmi(emis, loanId, nowMs);
        match fault
        case RepayLedgerFault(message) =>
          RepayState(Aborted(LedgerFailed), Adjust(held, accountId, 0, amount),
                     Transactions.SetStatus(logged, tid, Failed, Some(message)), loans, emis)
        case LoanUpdateFault(message) =>
          RepayState(Aborted(LoanUpdateFailed), Adjust(moved, accountId, 0, amount),
                     Transactions.SetStatus(logged, tid, Failed, Some(message)), loans, paid)
        case CloseFault(message) =>
          RepayState(Aborted(CloseFailed), Adjust(moved, accountId, 0, amount),
                     Transactions.SetStatus(logged, tid, Failed, Some(message)), Repay(loans, loanId, amount, nowMs), paid)
        case RepayLateFault(message) =>
          RepayState(Aborted(PostCommitFailed), Adjust(moved, accountId, 0, amount),
                     Transactions.SetStatus(logged, tid, Failed, Some(message)), RepaidLoans(loans, loanId, amount, nowMs), paid)
        case NoRepayFault =>
          RepayState(Succeeded(tid), moved, logged, RepaidLoans(loans, loanId, amount, nowMs), paid)
  }

  /** `loanController.repayLoan`. */
  method RepayLoan(db: Database, userId: nat, loanId: nat, accountId: nat, amount: int, nowMs: nat, random: int,
                   fault: RepayFault) returns (r: LoanResult)
    requires 1000 <= random <= 9999
    modifies db`accounts, db`txns, db`loans, db`emis
    ensures RepayState(r, db.accounts, db.txns, db.loans, db.emis)
         == RepayFlow(old(db.accounts), old(db.txns), old(db.loans), old(db.emis), userId, loanId, accountId, amount,
                      nowMs, random, fault)
  {
    var check := CheckRepayment(db.accounts, db.loans, userId, loanId, accountId, amount);
    if check.Some? {
      return Refused(check.value);
    }
    var loan := db.loans[loanId - 1];
    HoldAmount(db, accountId, amount);
    var req := RepayRequest(accountId, loan, amount);
    var created := Transactions.Create(db, req, nowMs, random);
    if created.None? {
      return Aborted(InsertFailed);
    }
    var tid := created.value.1;
    FindAppended(old(db.txns), NewTxnRow(req, tid, nowMs));
    var applied := ProcessLoanRepayment(db, tid, loanId, nowMs, fault.RepayLedgerFault?);
    if applied.ApplyFailed? {
      AbandonRepayment(db, accountId, amount, tid, fault.message);
      return Aborted(LedgerFailed);
    }
    if fault.LoanUpdateFault? {
      AbandonRepayment(db, accountId, amount, tid, fault.message);
      return Aborted(LoanUpdateFailed);
    }
    UpdateRepayment(db, loanId, amount, nowMs);
    if fault.CloseFault? {
      AbandonRepayment(db, accountId, amount, tid, fault.message);
      return Aborted(CloseFailed);
    }
    CloseWhenRepaid(db, loanId, nowMs);
    if fault.RepayLateFault? {
      AbandonRepayment(db, accountId, amount, tid, fault.message);
      return Aborted(PostCommitFailed);
    }
    r := Succeeded(tid);
  }

  /** The re-read of the loan after `updateRepayment` and the close when nothing remains. */
  method CloseWhenRepaid(db: Database, loanId: nat, nowMs: int)
    modifies db`loans
    ensures db.loans == ClosedIfRepaid(old(db.loans), loanId, nowMs)
  {
    if HasLoan(db.loans, loanId) && db.loans[loanId - 1].remainingAmount <= 0 {
      Loans.UpdateStatus(db, loanId, Closed, Some("Loan fully repaid"), nowMs);
    }
  }

  /** The catch block of repayLoan once the row is logged: the hold is released and the row is
      marked failed with the error's message. */
  method AbandonRepayment(db: Database, accountId: nat, amount: int, tid: string, message: string)
    modifies db`accounts, db`txns
    ensures db.accounts == Adjust(old(db.accounts), accountId, 0, amount)
    ensures db.txns == Transactions.SetStatus(old(db.txns), tid, Failed, Some(message))
  {
    ReleaseHold(db, accountId, amount);
    Transactions.UpdateStatus(db, tid, Failed, Some(message));
  }

  /** A repayment is refused exactly when one of the checks fails, and a refused one writes
      nothing. */
  lemma RepayRefusalWritesNothing(accounts: seq<Account>, txns: seq<Txn>, loans: seq<Loan>, emis: seq<Emi>, userId: nat,
                                  loanId: nat, accountId: nat, amount: int, nowMs: nat, random: int, fault: RepayFault)
    requires 1000 <= random <= 9999
    ensures var s := RepayFlow(accounts, txns, loans, emis, userId, loanId, accountId, amount, nowMs, random, fault);
      (!s.result.Refused? <==>
        HasLoan(loans, loanId) && loans[loanId - 1].userId == userId && loans[loanId - 1].status == Active
        && 0 < amount <= loans[loanId - 1].remainingAmount
        && Owns(accounts, accountId, userId) && accounts[accountId - 1].available >= amount)
      && (s.result.Refused? ==> s.accounts == accounts && s.txns == txns && s.loans == loans && s.emis == emis)
  {
  }

  /** Because the amount never exceeds what remains, a repayment leaves the remaining amount at
      zero or above, and closes the loan exactly when it reaches zero. */
  lemma RepayClosesExactlyAtZero(loans: seq<Loan>, loanId: nat, amount: int, nowMs: int)
    requires HasLoan(loans, loanId) && loans[loanId - 1].status == Active
    requires 0 < amount <= loans[loanId - 1].remainingAmount
    ensures var after := RepaidLoans(loans, loanId, amount, nowMs);
      |after| == |loans|
      && after[loanId - 1].remainingAmount == loans[loanId - 1].remainingAmount - amount >= 0
      && (after[loanId - 1].status == Closed <==> loans[loanId - 1].remainingAmount == amount)
      && (after[loanId - 1].status == Active <==> loans[loanId - 1].remainingAmount > amount)
      && after[loanId - 1].lastPaymentDate == Some(nowMs)
      && forall k :: 0 <= k < |loans| && k != loanId - 1 ==> after[k] == loans[k]
  {
  }

  /** A successful repayment moves the money like a transfer into the loan's account (keeping
      both bank-wide totals), lowers what is owed, settles the next pending EMI, and leaves its
      transaction row pending. */
  lemma RepaySucceeded(accounts: seq<Account>, txns: seq<Txn>, loans: seq<Loan>, emis: seq<Emi>, userId: nat,
                       loanId: nat, accountId: nat, amount: int, nowMs: nat, random: int)
    requires 1000 <= random <= 9999
    requires RepayFlow(accounts, txns, loans, emis, userId, loanId, accountId, amount, nowMs, random, NoRepayFault).result.Succeeded?
    requires HasAccount(accounts, loans[loanId - 1].accountId)
    ensures var s := RepayFlow(accounts, txns, loans, emis, userId, loanId, accountId, amount, nowMs, random, NoRepayFault);
      SumCurrent(s.accounts) == SumCurrent(accounts)
      && SumAvailable(s.accounts) == SumAvailable(accounts)
      && s.loans[loanId - 1].remainingAmount == loans[loanId - 1].remainingAmount - amount
      && s.emis == PayNextEmi(emis, loanId, nowMs)
      && |s.txns| == |txns| + 1 && s.txns[|txns|].status == Pending && s.txns[|txns|].txType == LoanRepayment
  {
    var tid := GenerateTransactionId(nowMs, random);
    var row := NewTxnRow(RepayRequest(accountId, loans[loanId - 1], amount), tid, nowMs);
    var held := Adjust(accounts, accountId, 0, -amount);
    AdjustTotals(accounts, accountId, 0, -amount);
    TransferConserves(held, row);
    TransferConserves(accounts, row);
  }

  /** The repayment credits the loan's own account, which is the borrower's: repaying from that
      account moves no money at all, yet the debt still goes down. */
  lemma RepayFromLoanAccountIsFree(accounts: seq<Account>, txns: seq<Txn>, loans: seq<Loan>, emis: seq<Emi>, userId: nat,
                                   loanId: nat, amount: int, nowMs: nat, random: int)
    requires 1000 <= random <= 9999
    requires HasLoan(loans, loanId)
    requires RepayFlow(accounts, txns, loans, emis, userId, loanId, loans[loanId - 1].accountId, amount, nowMs, random,
                       NoRepayFault).result.Succeeded?
    ensures var s := RepayFlow(accounts, txns, loans, emis, userId, loanId, loans[loanId - 1].accountId, amount, nowMs, random, NoRepayFault);
      s.accounts == accounts && s.loans[loanId - 1].remainingAmount == loans[loanId - 1].remainingAmount - amount
  {
    var a := loans[loanId - 1].accountId;
    var row := NewTxnRow(RepayRequest(a, loans[loanId - 1], amount), GenerateTransactionId(nowMs, random), nowMs);
    HeldSelfTransferRestores(accounts, a, row);
  }

  /** A hold followed by a transfer from an existing account to itself puts the table back as it
      was. */
  lemma HeldSelfTransferRestores(rows: seq<Account>, a: nat, t: Txn)
    requires t.from == Some(a) && t.to == Some(a) && HasAccount(rows, a)
    ensures TransferEffect(Adjust(rows, a, 0, -t.amount), t) == rows
  {
    var after := TransferEffect(Adjust(rows, a, 0, -t.amount), t);
    assert |after| == |rows|;
    assert after[a - 1] == rows[a - 1];
  }

  /** When `updateRepayment` throws after the ledger committed, the money has moved and an EMI is
      marked paid, but the loan still owes the full amount and the row says the repayment failed. */
  lemma RepayLoanUpdateFailureDesyncs(accounts: seq<Account>, txns: seq<Txn>, loans: seq<Loan>, emis: seq<Emi>, userId: nat,
                                      loanId: nat, accountId: nat, amount: int, nowMs: nat, random: int, message: string)
    requires 1000 <= random <= 9999
    requires CheckRepayment(accounts, loans, userId, loanId, accountId, amount).None?
    requires !IdTaken(txns, GenerateTransactionId(nowMs, random))
    ensures var s := RepayFlow(accounts, txns, loans, emis, userId, loanId, accountId, amount, nowMs, random, LoanUpdateFault(message));
      s.result == Aborted(LoanUpdateFailed)
      && s.loans == loans
      && s.emis == PayNextEmi(emis, loanId, nowMs)
      && s.txns[|txns|].status == Failed
  {
    var tid := GenerateTransactionId(nowMs, random);
    var row := NewTxnRow(RepayRequest(accountId, loans[loanId - 1], amount), tid, nowMs);
    SetStatusEffect(txns + [row], tid, Failed, Some(message), |txns|);
  }

  /** When the step between `updateRepayment` and the close throws, the debt is lowered and an EMI
      is marked paid, but the loan stays active even when nothing remains of it, and the row says
      the repayment failed. */
  lemma RepayCloseFailureLeavesActive(accounts: seq<Account>, txns: seq<Txn>, loans: seq<Loan>, emis: seq<Emi>, userId: nat,
                                      loanId: nat, accountId: nat, amount: int, nowMs: nat, random: int, message: string)
    requires 1000 <= random <= 9999
    requires CheckRepayment(accounts, loans, userId, loanId, accountId, amount).None?
    requires !IdTaken(txns, GenerateTransactionId(nowMs, random))
    ensures var s := RepayFlow(accounts, txns, loans, emis, userId, loanId, accountId, amount, nowMs, random, CloseFault(message));
      s.result == Aborted(CloseFailed)
      && s.loans[loanId - 1].remainingAmount == loans[loanId - 1].remainingAmount - amount >= 0
      && s.loans[loanId - 1].status == Active
      && s.emis == PayNextEmi(emis, loanId, nowMs)
      && s.txns[|txns|].status == Failed
  {
    var tid := GenerateTransactionId(nowMs, random);
    var row := NewTxnRow(RepayRequest(accountId, loans[loanId - 1], amount), tid, nowMs);
    SetStatusEffect(txns + [row], tid, Failed, Some(message), |txns|);
  }

  // ---------------------------------------------------------- getLoanSchedule

  /** One row of the reported amortization schedule. */
  datatype ScheduleEntry = ScheduleEntry(month: nat, emi: real, principal: real, interest: real, remainingPrincipal: real, dueMs: int)

  function ScheduleEntryAt(loan: Loan, nowMs: int, i: nat): ScheduleEntry
    requires i >= 1
  {
    var r := MonthlyRate(loan.interestRate);
    var emi := loan.emiAmount as real;
    var remaining := Remaining(loan.amount as real, r, emi, i);
    ScheduleEntry(i, emi, PrincipalPart(loan.amount as real, r, emi, i), InterestPart(loan.amount as real, r, emi, i),
                  if remaining > 0.0 then remaining else 0.0, nowMs + i * 30 * DAY_MS)
  }

  function ScheduleRows(loan: Loan, nowMs: int, n: nat): seq<ScheduleEntry> {
    seq(n, k requires 0 <= k => ScheduleEntryAt(loan, nowMs, k + 1))
  }

  /** The loop of getLoanSchedule. */
  method Schedule(loan: Loan, nowMs: int) returns (schedule: seq<ScheduleEntry>)
    ensures schedule == ScheduleRows(loan, nowMs, loan.tenureMonths)
  {
    schedule := [];
    var remainingPrincipal := loan.amount as real;
    var monthlyRate := MonthlyRate(loan.interestRate);
    var emi := loan.emiAmount as real;
    var i := 1;
    while i <= loan.tenureMonths
      invariant 1 <= i <= loan.tenureMonths + 1
      invariant remainingPrincipal == Remaining(loan.amount as real, monthlyRate, emi, i - 1)
      invariant schedule == ScheduleRows(loan, nowMs, i - 1)
    {
      var interest := remainingPrincipal * monthlyRate;
      var principal := emi - interest;
      remainingPrincipal := remainingPrincipal - principal;
      schedule := schedule + [ScheduleEntry(i, emi, principal, interest,
                                            if remainingPrincipal > 0.0 then remainingPrincipal else 0.0,
                                            nowMs + i * 30 * DAY_MS)];
      assert schedule[|schedule| - 1] == ScheduleEntryAt(loan, nowMs, i);
      assert ScheduleRows(loan, nowMs, i) == ScheduleRows(loan, nowMs, i - 1) + [ScheduleEntryAt(loan, nowMs, i)];
      i := i + 1;
    }
  }

  datatype ScheduleError = ScheduleLoanNotFound | ScheduleAccessDenied

  /** `loanController.getLoanSchedule`: the owner or an admin (not a manager) may read it. */
  method GetLoanSchedule(loans: seq<Loan>, loanId: nat, userId: nat, role: Role, nowMs: int)
    returns (r: Result<seq<ScheduleEntry>, ScheduleError>)
    ensures !HasLoan(loans, loanId) <==> r == Err(ScheduleLoanNotFound)
    ensures r == Err(ScheduleAccessDenied) <==>
      HasLoan(loans, loanId) && loans[loanId - 1].userId != userId && role != Admin
    ensures r.Ok? ==> r.value == ScheduleRows(loans[loanId - 1], nowMs, loans[loanId - 1].tenureMonths)
  {
    if !HasLoan(loans, loanId) {
      return Err(ScheduleLoanNotFound);
    }
    var loan := loans[loanId - 1];
    if loan.userId != userId && role != Admin {
      return Err(ScheduleAccessDenied);
    }
    var schedule := Schedule(loan, nowMs);
    r := Ok(schedule);
  }

  /** The reported schedule has one entry per month 1..n in order; each splits the EMI into
      principal and interest, reports a remaining principal that is never negative, is due thirty
      days after the one before, and has the same split as the EMI row written at disbursement. */
  lemma ScheduleFacts(loanId: nat, loan: Loan, nowMs: int, disbursedMs: int, k: nat)
    requires k < loan.tenureMonths
    ensures var s := ScheduleRows(loan, nowMs, loan.tenureMonths);
      var e := EmiRows(loanId, loan, disbursedMs, loan.tenureMonths)[k];
      |s| == loan.tenureMonths && s[k].month == k + 1
      && s[k].principal + s[k].interest == s[k].emi == loan.emiAmount as real
      && s[k].remainingPrincipal >= 0.0
      && (k > 0 ==> s[k].dueMs == s[k - 1].dueMs + 30 * DAY_MS)
      && s[k].principal == e.principal && s[k].interest == e.interest && e.emiNumber == s[k].month
  {
  }

  // -------------------------------------------------------------- getMyLoans

  datatype LoanSummary = LoanSummary(totalLoans: nat, activeLoans: nat, totalBorrowed: int, totalPaid: int, totalDue: int)

  function CountActive(loans: seq<Loan>): nat {
    if loans == [] then 0 else (if loans[0].status == Active then 1 else 0) + CountActive(loans[1..])
  }

  function SumBorrowed(loans: seq<Loan>): int {
    if loans == [] then 0 else loans[0].amount + SumBorrowed(loans[1..])
  }

  function SumPaid(loans: seq<Loan>): int {
    if loans == [] then 0 else (loans[0].amount - loans[0].remainingAmount) + SumPaid(loans[1..])
  }

  function SumDue(loans: seq<Loan>): int {
    if loans == [] then 0 else loans[0].remainingAmount + SumDue(loans[1..])
  }

  /** The summary of getMyLoans over the borrower's loans. */
  function Summarize(loans: seq<Loan>): LoanSummary {
    LoanSummary(|loans|, CountActive(loans), SumBorrowed(loans), SumPaid(loans), SumDue(loans))
  }

  lemma {:induction false} PaidIsBorrowedLessDue(loans: seq<Loan>)
    ensures SumPaid(loans) == SumBorrowed(loans) - SumDue(loans)
  {
    if loans != [] {
      PaidIsBorrowedLessDue(loans[1..]);
    }
  }

  lemma {:induction false} ActiveAtMostAll(loans: seq<Loan>)
    ensures CountActive(loans) <= |loans|
  {
    if loans != [] {
      ActiveAtMostAll(loans[1..]);
    }
  }

  /** The summary is consistent: what was paid is what was borrowed less what is due, and no
      more loans are active than there are loans. */
  lemma SummaryConsistent(loans: seq<Loan>)
    ensures Summarize(loans).totalPaid == Summarize(loans).totalBorrowed - Summarize(loans).totalDue
    ensures Summarize(loans).activeLoans <= Summarize(loans).totalLoans
  {
    PaidIsBorrowedLessDue(loans);
    ActiveAtMostAll(loans);
  }

  // ------------------------------------------------------ calculateEMI endpoint

  datatype Quote = Quote(rate: real, emi: Option<int>, totalPayment: Option<int>, totalInterest: Option<int>)

  /** The EMI quote endpoint. A missing input is `None`; `!amount || !tenure_months` also rejects
      zero, and `interest_rate || 8.5` also replaces a rate of zero. A negative tenure passes the
      check. Where the formula yields no number the totals are not numbers either. */
  function EmiQuote(amount: Option<int>, tenure: Option<int>, rate: Option<real>): (q: Option<Quote>)
    ensures q.None? <==> amount.None? || amount == Some(0) || tenure.None? || tenure == Some(0)
    ensures q.Some? ==> q.value.emi == CalculateEmi(amount.value, q.value.rate, tenure.value)
    ensures q.Some? && q.value.emi.Some? ==>
      q.value.totalPayment == Some(q.value.emi.value * tenure.value)
      && q.value.totalInterest == Some(q.value.totalPayment.value - amount.value)
  {
    if amount.None? || amount.value == 0 || tenure.None? || tenure.value == 0 then None
    else
      var r := if rate.None? || rate.value == 0.0 then LOAN_INTEREST_RATE else rate.value;
      match CalculateEmi(amount.value, r, tenure.value)
      case None => Some(Quote(r, None, None, None))
      case Some(emi) =>
        var total := emi * tenure.value;
        Some(Quote(r, Some(emi), Some(total), Some(total - amount.value)))
  }

  /** A rate of zero is quoted at the bank's 8.5%, exactly as a missing one, so the endpoint never
      meets the formula's 0/0; with the default or any positive rate the EMI is a number, for a
      negative tenure as well. */
  lemma QuoteZeroRateTakesDefault(amount: int, tenure: int)
    requires amount != 0 && tenure != 0
    ensures EmiQuote(Some(amount), Some(tenure), Some(0.0)) == EmiQuote(Some(amount), Some(tenure), None)
    ensures EmiQuote(Some(amount), Some(tenure), None).value.rate == LOAN_INTEREST_RATE
    ensures EmiQuote(Some(amount), Some(tenure), None).value.emi.Some?
  {
    EmiDefinedForPositiveRate(amount, LOAN_INTEREST_RATE, tenure);
  }

  /** `!tenure_months` lets a negative tenure through: a positive amount is then quoted at the
      default rate with an EMI of zero or below and a total payment that is its multiple. */
  lemma NegativeTenureIsQuoted(amount: int, tenure: int)
    requires amount > 0 && tenure < 0
    ensures var q := EmiQuote(Some(amount), Some(tenure), None);
      q.Some? && q.value.emi.Some? && q.value.emi.value <= 0
      && q.value.totalPayment == Some(q.value.emi.value * tenure)
  {
    NegativeTermEmiBelowZero(amount as real, MonthlyRate(LOAN_INTEREST_RATE), tenure);
  }
}
