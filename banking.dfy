/** The fund-movement flows of bankingController.js. Each flow runs its checks, places a hold
    where it has one, logs a pending transaction, runs the ledger's unit of work and then marks
    the transaction; an error after the transaction is logged is compensated in the catch block.
    Notifications and the audit log are calls that may throw: the `Fault` says which stage, if
    any, throws. Every flow method is specified by a pure function of the tables it starts from. */
module Banking {
  import opened Common
  import opened Constants
  import opened Schema
  import opened Accounts
  import opened Transactions
  import opened Ledger

  /** Where a flow throws, if anywhere: inside the ledger's unit of work, or in a step after it
      (marking the transaction completed, a notification, the audit log). */
  datatype Fault = NoFault | LedgerFault(message: string) | LateFault(message: string)

  /** The checks a request can fail, each answered before anything is written. */
  datatype Reason =
    | NonPositiveAmount
    | OverWithdrawalLimit
    | AccountNotFound
    | DailyLimitExceeded
    | InsufficientFunds
    | DestinationNotFound
    | SameAccount
    | AccountCapReached

  /** The step that threw after the checks passed. */
  datatype Stage = InsertFailed | LedgerFailed | PostCommitFailed

  /** `id` is the transaction id of a fund movement, the account number of a new account. */
  datatype FlowResult = Succeeded(id: string) | Refused(reason: Reason) | Aborted(stage: Stage)

  /** What a flow answers and the tables it leaves behind. */
  datatype Flow = Flow(result: FlowResult, accounts: seq<Account>, txns: seq<Txn>)

  /** `description || fallback`: an absent or empty description takes the fallback. */
  function OrDefault(description: Option<string>, fallback: string): string {
    if description.Some? && description.value != "" then description.value else fallback
  }

  // ------------------------------------------------------------ transferFunds

  /** The checks of transferFunds in their order; on success, the destination's id. */
  function CheckTransfer(accounts: seq<Account>, txns: seq<Txn>, userId: nat, fromId: nat,
                         toNumber: string, amount: int, nowMs: int): Result<nat, Reason>
  {
    if amount <= 0 then Err(NonPositiveAmount)
    else if !Owns(accounts, fromId, userId) then Err(AccountNotFound)
    else if DailyTotal(txns, fromId, nowMs) + amount > DAILY_TRANSFER_LIMIT then Err(DailyLimitExceeded)
    else if accounts[fromId - 1].available < amount then Err(InsufficientFunds)
    else match FindByNumber(accounts, toNumber)
      case None => Err(DestinationNotFound)
      case Some(to) => if to == fromId then Err(SameAccount) else Ok(to)
  }

  /** A transfer is accepted exactly when the amount is positive, the source is the user's, the
      amount alone is within the daily limit (the day's earlier transfers never count, since the
      daily total reads 0), the source has that much available, and the destination number names
      another account. */
  lemma TransferAcceptedIff(accounts: seq<Account>, txns: seq<Txn>, userId: nat, fromId: nat,
                            toNumber: string, amount: int, nowMs: int, to: nat)
    ensures CheckTransfer(accounts, txns, userId, fromId, toNumber, amount, nowMs) == Ok(to) <==>
      amount > 0 && Owns(accounts, fromId, userId) && amount <= DAILY_TRANSFER_LIMIT
      && accounts[fromId - 1].available >= amount
      && FindByNumber(accounts, toNumber) == Some(to) && to != fromId
  {
    DailyTotalIsAlwaysZero(txns, fromId, nowMs);
  }

  function TransferRequest(fromId: nat, to: nat, amount: int, description: Option<string>, toNumber: string): NewTxn {
    NewTxn(Some(fromId), Some(to), amount, Transfer, Some(OrDefault(description, "Transfer to " + toNumber)), Some(Pending))
  }

  /** transferFunds: checks, hold, pending log row, ledger, completed; an error in the inner block
      releases the hold and marks the row failed, while an error in logging the row reaches only
      the outer catch, which releases nothing. */
  function TransferFlow(accounts: seq<Account>, txns: seq<Txn>, userId: nat, fromId: nat, toNumber: string,
                        amount: int, description: Option<string>, nowMs: nat, random: int, fault: Fault): Flow
    requires 1000 <= random <= 9999
  {
    match CheckTransfer(accounts, txns, userId, fromId, toNumber, amount, nowMs)
    case Err(reason) => Flow(Refused(reason), accounts, txns)
    case Ok(to) =>
      var held := Adjust(accounts, fromId, 0, -amount);
      var tid := GenerateTransactionId(nowMs, random);
      if IdTaken(txns, tid) then Flow(Aborted(InsertFailed), held, txns)
      else
        var row := NewTxnRow(TransferRequest(fromId, to, amount, description, toNumber), tid, nowMs);
        var logged := txns + [row];
        match fault
        case LedgerFault(message) =>
          Flow(Aborted(LedgerFailed), Adjust(held, fromId, 0, amount), SetStatus(logged, tid, Failed, Some(message)))
        case LateFault(message) =>
          Flow(Aborted(PostCommitFailed), Adjust(TransferEffect(held, row), fromId, 0, amount),
               SetStatus(SetStatus(logged, tid, Completed, None), tid, Failed, Some(message)))
        case NoFault =>
          Flow(Succeeded(tid), TransferEffect(held, row), SetStatus(logged, tid, Completed, None))
  }

  /** `bankingController.transferFunds`. */
  method TransferFunds(db: Database, userId: nat, fromId: nat, toNumber: string, amount: int,
                       description: Option<string>, nowMs: nat, random: int, fault: Fault) returns (r: FlowResult)
    requires 1000 <= random <= 9999
    modifies db`accounts, db`txns
    ensures Flow(r, db.accounts, db.txns)
         == TransferFlow(old(db.accounts), old(db.txns), userId, fromId, toNumber, amount, description, nowMs, random, fault)
  {
    var check := CheckTransfer(db.accounts, db.txns, userId, fromId, toNumber, amount, nowMs);
    if check.Err? {
      return Refused(check.error);
    }
    var to := check.value;
    HoldAmount(db, fromId, amount);
    var req := TransferRequest(fromId, to, amount, description, toNumber);
    var created := Transactions.Create(db, req, nowMs, random);
    if created.None? {
      return Aborted(InsertFailed);
    }
    var tid := created.value.1;
    FindAppended(old(db.txns), NewTxnRow(req, tid, nowMs));
    var applied := ProcessTransfer(db, tid, fault.LedgerFault?);
    if applied.ApplyFailed? {
      ReleaseHold(db, fromId, amount);
      UpdateStatus(db, tid, Failed, Some(fault.message));
      return Aborted(LedgerFailed);
    }
    UpdateStatus(db, tid, Completed, None);
    if fault.LateFault? {
      ReleaseHold(db, fromId, amount);
      UpdateStatus(db, tid, Failed, Some(fault.message));
      return Aborted(PostCommitFailed);
    }
    r := Succeeded(tid);
  }

  /** A refused transfer writes nothing. */
  lemma TransferRefusalWritesNothing(accounts: seq<Account>, txns: seq<Txn>, userId: nat, fromId: nat, toNumber: string,
                                     amount: int, description: Option<string>, nowMs: nat, random: int, fault: Fault)
    requires 1000 <= random <= 9999
    ensures var f := TransferFlow(accounts, txns, userId, fromId, toNumber, amount, description, nowMs, random, fault);
      f.result.Refused? <==> CheckTransfer(accounts, txns, userId, fromId, toNumber, amount, nowMs).Err?
    ensures var f := TransferFlow(accounts, txns, userId, fromId, toNumber, amount, description, nowMs, random, fault);
      f.result.Refused? ==> f.accounts == accounts && f.txns == txns
  {
  }

  /** A successful transfer moves `amount` from both balances of the source to both balances of
      the destination, keeps both bank-wide totals, keeps a table at rest, and logs one completed
      transfer. */
  lemma TransferSucceededMovesMoney(accounts: seq<Account>, txns: seq<Txn>, userId: nat, fromId: nat, toNumber: string,
                                    amount: int, description: Option<string>, nowMs: nat, random: int, fault: Fault)
    requires 1000 <= random <= 9999
    requires TransferFlow(accounts, txns, userId, fromId, toNumber, amount, description, nowMs, random, fault).result.Succeeded?
    ensures var f := TransferFlow(accounts, txns, userId, fromId, toNumber, amount, description, nowMs, random, fault);
      var to := CheckTransfer(accounts, txns, userId, fromId, toNumber, amount, nowMs).value;
      |f.accounts| == |accounts| && fromId != to && HasAccount(accounts, to)
      && f.accounts[fromId - 1].current == accounts[fromId - 1].current - amount
      && f.accounts[fromId - 1].available == accounts[fromId - 1].available - amount
      && f.accounts[to - 1].current == accounts[to - 1].current + amount
      && f.accounts[to - 1].available == accounts[to - 1].available + amount
      && (forall k :: 0 <= k < |accounts| && k != fromId - 1 && k != to - 1 ==> f.accounts[k] == accounts[k])
      && SumCurrent(f.accounts) == SumCurrent(accounts)
      && SumAvailable(f.accounts) == SumAvailable(accounts)
      && (AtRest(accounts) ==> AtRest(f.accounts))
      && |f.txns| == |txns| + 1 && f.txns[|txns|].status == Completed && f.txns[|txns|].txType == Transfer
  {
    var to := CheckTransfer(accounts, txns, userId, fromId, toNumber, amount, nowMs).value;
    var tid := GenerateTransactionId(nowMs, random);
    var row := NewTxnRow(TransferRequest(fromId, to, amount, description, toNumber), tid, nowMs);
    var held := Adjust(accounts, fromId, 0, -amount);
    var f := TransferFlow(accounts, txns, userId, fromId, toNumber, amount, description, nowMs, random, fault);
    assert fault == NoFault && !IdTaken(txns, tid);
    assert f.accounts == TransferEffect(held, row);
    assert f.txns == SetStatus(txns + [row], tid, Completed, None);
    TransferMovesBalances(held, row, fromId, to);
    HeldTransferTotals(accounts, row);
    SetStatusEffect(txns + [row], tid, Completed, None, |txns|);
  }

  /** A transfer between existing accounts after the hold on its source keeps both bank-wide
      totals, and keeps a table at rest when the two accounts differ. */
  lemma HeldTransferTotals(accounts: seq<Account>, t: Txn)
    requires t.from.Some? && t.to.Some? && t.from != t.to
    requires HasAccount(accounts, t.from.value) && HasAccount(accounts, t.to.value)
    ensures var after := TransferEffect(Adjust(accounts, t.from.value, 0, -t.amount), t);
      SumCurrent(after) == SumCurrent(accounts) && SumAvailable(after) == SumAvailable(accounts)
      && (AtRest(accounts) ==> AtRest(after))
  {
    var held := Adjust(accounts, t.from.value, 0, -t.amount);
    AdjustTotals(accounts, t.from.value, 0, -t.amount);
    TransferConserves(held, t);
    TransferConserves(accounts, t);
    if AtRest(accounts) {
      HeldTransferEndsAtRest(accounts, t);
    }
  }

  /** When the ledger's unit of work fails, the release puts every balance back exactly and the
      logged row is marked failed with the error's message. */
  lemma TransferLedgerFailureRestores(accounts: seq<Account>, txns: seq<Txn>, userId: nat, fromId: nat, toNumber: string,
                                      amount: int, description: Option<string>, nowMs: nat, random: int, message: string)
    requires 1000 <= random <= 9999
    requires CheckTransfer(accounts, txns, userId, fromId, toNumber, amount, nowMs).Ok?
    requires !IdTaken(txns, GenerateTransactionId(nowMs, random))
    ensures var f := TransferFlow(accounts, txns, userId, fromId, toNumber, amount, description, nowMs, random, LedgerFault(message));
      f.result == Aborted(LedgerFailed) && f.accounts == accounts
      && |f.txns| == |txns| + 1 && f.txns[..|txns|] == txns
      && f.txns[|txns|].status == Failed && f.txns[|txns|].errorMessage == Some(message)
  {
    HoldThenRelease(accounts, fromId, amount);
  }

  /** A throw after the ledger committed (a notification, the audit log) still releases the hold
      and marks the row failed: the money has moved, the row says it has not, and the source's
      available balance gets back the amount it already paid, so the bank's total available
      balance grows by `amount`. */
  lemma TransferPostCommitFailureInflatesAvailable(accounts: seq<Account>, txns: seq<Txn>, userId: nat, fromId: nat,
                                                   toNumber: string, amount: int, description: Option<string>,
                                                   nowMs: nat, random: int, message: string)
    requires 1000 <= random <= 9999
    requires CheckTransfer(accounts, txns, userId, fromId, toNumber, amount, nowMs).Ok?
    requires !IdTaken(txns, GenerateTransactionId(nowMs, random))
    ensures var f := TransferFlow(accounts, txns, userId, fromId, toNumber, amount, description, nowMs, random, LateFault(message));
      f.result == Aborted(PostCommitFailed)
      && SumCurrent(f.accounts) == SumCurrent(accounts)
      && SumAvailable(f.accounts) == SumAvailable(accounts) + amount
      && f.accounts[fromId - 1].current == accounts[fromId - 1].current - amount
      && f.accounts[fromId - 1].available == accounts[fromId - 1].available
      && f.txns[|txns|].status == Failed
  {
    var to := CheckTransfer(accounts, txns, userId, fromId, toNumber, amount, nowMs).value;
    var tid := GenerateTransactionId(nowMs, random);
    var row := NewTxnRow(TransferRequest(fromId, to, amount, description, toNumber), tid, nowMs);
    var held := Adjust(accounts, fromId, 0, -amount);
    assert |held| == |accounts|;
    TransferConserves(accounts, row);
    AdjustTotals(accounts, fromId, 0, -amount);
    AdjustTotals(TransferEffect(held, row), fromId, 0, amount);
    TransferConserves(held, row);
    TransferMovesBalances(held, row, fromId, to);
    SetStatusEffect(SetStatus(txns + [row], tid, Completed, None), tid, Failed, Some(message), |txns|);
  }

  /** When logging the row fails, the outer catch releases nothing: the source keeps a hold of
      `amount` that no transaction accounts for. */
  lemma TransferInsertFailureLeaksHold(accounts: seq<Account>, txns: seq<Txn>, userId: nat, fromId: nat, toNumber: string,
                                       amount: int, description: Option<string>, nowMs: nat, random: int, fault: Fault)
    requires 1000 <= random <= 9999
    requires CheckTransfer(accounts, txns, userId, fromId, toNumber, amount, nowMs).Ok?
    requires IdTaken(txns, GenerateTransactionId(nowMs, random))
    ensures var f := TransferFlow(accounts, txns, userId, fromId, toNumber, amount, description, nowMs, random, fault);
      f.result == Aborted(InsertFailed) && f.txns == txns
      && f.accounts[fromId - 1].available == accounts[fromId - 1].available - amount
      && f.accounts[fromId - 1].current == accounts[fromId - 1].current
      && SumAvailable(f.accounts) == SumAvailable(accounts) - amount
  {
    AdjustTotals(accounts, fromId, 0, -amount);
  }

  // ------------------------------------------------------------------ deposit

  function CheckDeposit(accounts: seq<Account>, userId: nat, accountId: nat, amount: int): Option<Reason> {
    if amount <= 0 then Some(NonPositiveAmount)
    else if !Owns(accounts, accountId, userId) then Some(AccountNotFound)
    else None
  }

  function DepositRequest(accountId: nat, amount: int, description: Option<string>): NewTxn {
    NewTxn(None, Some(accountId), amount, Deposit, Some(OrDefault(description, "Deposit")), Some(Pending))
  }

  /** deposit: no hold, and on an error in the inner block only the row is marked failed. */
  function DepositFlow(accounts: seq<Account>, txns: seq<Txn>, userId: nat, accountId: nat, amount: int,
                       description: Option<string>, nowMs: nat, random: int, fault: Fault): Flow
    requires 1000 <= random <= 9999
  {
    match CheckDeposit(accounts, userId, accountId, amount)
    case Some(reason) => Flow(Refused(reason), accounts, txns)
    case None =>
      var tid := GenerateTransactionId(nowMs, random);
      if IdTaken(txns, tid) then Flow(Aborted(InsertFailed), accounts, txns)
      else
        var row := NewTxnRow(DepositRequest(accountId, amount, description), tid, nowMs);
        var logged := txns + [row];
        match fault
        case LedgerFault(message) => Flow(Aborted(LedgerFailed), accounts, SetStatus(logged, tid, Failed, Some(message)))
        case LateFault(message) =>
          Flow(Aborted(PostCommitFailed), DepositEffect(accounts, row),
               SetStatus(SetStatus(logged, tid, Completed, None), tid, Failed, Some(message)))
        case NoFault => Flow(Succeeded(tid), DepositEffect(accounts, row), SetStatus(logged, tid, Completed, None))
  }

  /** `bankingController.deposit`. */
  method MakeDeposit(db: Database, userId: nat, accountId: nat, amount: int, description: Option<string>,
                     nowMs: nat, random: int, fault: Fault) returns (r: FlowResult)
    requires 1000 <= random <= 9999
    modifies db`accounts, db`txns
    ensures Flow(r, db.accounts, db.txns)
         == DepositFlow(old(db.accounts), old(db.txns), userId, accountId, amount, description, nowMs, random, fault)
  {
    var check := CheckDeposit(db.accounts, userId, accountId, amount);
    if check.Some? {
      return Refused(check.value);
    }
    var req := DepositRequest(accountId, amount, description);
    var created := Transactions.Create(db, req, nowMs, random);
    if created.None? {
      return Aborted(InsertFailed);
    }
    var tid := created.value.1;
    FindAppended(old(db.txns), NewTxnRow(req, tid, nowMs));
    var applied := ProcessDeposit(db, tid, fault.LedgerFault?);
    if applied.ApplyFailed? {
      UpdateStatus(db, tid, Failed, Some(fault.message));
      return Aborted(LedgerFailed);
    }
    UpdateStatus(db, tid, Completed, None);
    if fault.LateFault? {
      UpdateStatus(db, tid, Failed, Some(fault.message));
      return Aborted(PostCommitFailed);
    }
    r := Succeeded(tid);
  }

  /** A deposit is refused exactly for a non-positive amount or an account that is not the
      user's, and a refused one writes nothing. A successful one credits `amount` to both
      balances of the account. A throw after the ledger committed is not compensated: the
      account keeps the credit while its row is marked failed. */
  lemma DepositOutcomes(accounts: seq<Account>, txns: seq<Txn>, userId: nat, accountId: nat, amount: int,
                        description: Option<string>, nowMs: nat, random: int, fault: Fault)
    requires 1000 <= random <= 9999
    ensures var f := DepositFlow(accounts, txns, userId, accountId, amount, description, nowMs, random, fault);
      (f.result.Refused? <==> amount <= 0 || !Owns(accounts, accountId, userId))
      && (f.result.Refused? ==> f.accounts == accounts && f.txns == txns)
    ensures var f := DepositFlow(accounts, txns, userId, accountId, amount, description, nowMs, random, fault);
      f.result.Succeeded? || f.result == Aborted(PostCommitFailed) ==>
        |f.accounts| == |accounts|
        && f.accounts[accountId - 1].current == accounts[accountId - 1].current + amount
        && f.accounts[accountId - 1].available == accounts[accountId - 1].available + amount
        && SumCurrent(f.accounts) == SumCurrent(accounts) + amount
        && f.txns[|txns|].status == (if f.result.Succeeded? then Completed else Failed)
    ensures var f := DepositFlow(accounts, txns, userId, accountId, amount, description, nowMs, random, fault);
      f.result == Aborted(LedgerFailed) || f.result == Aborted(InsertFailed) ==> f.accounts == accounts
  {
    var f := DepositFlow(accounts, txns, userId, accountId, amount, description, nowMs, random, fault);
    if f.result.Succeeded? || f.result == Aborted(PostCommitFailed) {
      var tid := GenerateTransactionId(nowMs, random);
      var row := NewTxnRow(DepositRequest(accountId, amount, description), tid, nowMs);
      DepositCredits(accounts, row, accountId);
    }
  }

  // ----------------------------------------------------------------- withdraw

  function CheckWithdraw(accounts: seq<Account>, userId: nat, accountId: nat, amount: int): Option<Reason> {
    if amount <= 0 then Some(NonPositiveAmount)
    else if amount > WITHDRAWAL_LIMIT then Some(OverWithdrawalLimit)
    else if !Owns(accounts, accountId, userId) then Some(AccountNotFound)
    else if accounts[accountId - 1].available < amount then Some(InsufficientFunds)
    else None
  }

  function WithdrawRequest(accountId: nat, amount: int, description: Option<string>): NewTxn {
    NewTxn(Some(accountId), None, amount, Withdrawal, Some(OrDefault(description, "Withdrawal")), Some(Pending))
  }

  /** withdraw: like a transfer, with a per-transaction limit and no daily one. */
  function WithdrawFlow(accounts: seq<Account>, txns: seq<Txn>, userId: nat, accountId: nat, amount: int,
                        description: Option<string>, nowMs: nat, random: int, fault: Fault): Flow
    requires 1000 <= random <= 9999
  {
    match CheckWithdraw(accounts, userId, accountId, amount)
    case Some(reason) => Flow(Refused(reason), accounts, txns)
    case None =>
      var held := Adjust(accounts, accountId, 0, -amount);
      var tid := GenerateTransactionId(nowMs, random);
      if IdTaken(txns, tid) then Flow(Aborted(InsertFailed), held, txns)
      else
        var row := NewTxnRow(WithdrawRequest(accountId, amount, description), tid, nowMs);
        var logged := txns + [row];
        match fault
        case LedgerFault(message) =>
          Flow(Aborted(LedgerFailed), Adjust(held, accountId, 0, amount), SetStatus(logged, tid, Failed, Some(message)))
        case LateFault(message) =>
          Flow(Aborted(PostCommitFailed), Adjust(WithdrawalEffect(held, row), accountId, 0, amount),
               SetStatus(SetStatus(logged, tid, Completed, None), tid, Failed, Some(message)))
        case NoFault => Flow(Succeeded(tid), WithdrawalEffect(held, row), SetStatus(logged, tid, Completed, None))
  }

  /** `bankingController.withdraw`. */
  method Withdraw(db: Database, userId: nat, accountId: nat, amount: int, description: Option<string>,
                  nowMs: nat, random: int, fault: Fault) returns (r: FlowResult)
    requires 1000 <= random <= 9999
    modifies db`accounts, db`txns
    ensures Flow(r, db.accounts, db.txns)
         == WithdrawFlow(old(db.accounts), old(db.txns), userId, accountId, amount, description, nowMs, random, fault)
  {
    var check := CheckWithdraw(db.accounts, userId, accountId, amount);
    if check.Some? {
      return Refused(check.value);
    }
    HoldAmount(db, accountId, amount);
    var req := WithdrawRequest(accountId, amount, description);
    var created := Transactions.Create(db, req, nowMs, random);
    if created.None? {
      return Aborted(InsertFailed);
    }
    var tid := created.value.1;
    FindAppended(old(db.txns), NewTxnRow(req, tid, nowMs));
    var applied := ProcessWithdrawal(db, tid, fault.LedgerFault?);
    if applied.ApplyFailed? {
      ReleaseHold(db, accountId, amount);
      UpdateStatus(db, tid, Failed, Some(fault.message));
      return Aborted(LedgerFailed);
    }
    UpdateStatus(db, tid, Completed, None);
    if fault.LateFault? {
      ReleaseHold(db, accountId, amount);
      UpdateStatus(db, tid, Failed, Some(fault.message));
      return Aborted(PostCommitFailed);
    }
    r := Succeeded(tid);
  }

  /** A withdrawal is accepted exactly for an amount in 1..WITHDRAWAL_LIMIT from the user's own
      account with at least that much available; refused ones write nothing. */
  lemma WithdrawAcceptedIff(accounts: seq<Account>, txns: seq<Txn>, userId: nat, accountId: nat, amount: int,
                            description: Option<string>, nowMs: nat, random: int, fault: Fault)
    requires 1000 <= random <= 9999
    ensures var f := WithdrawFlow(accounts, txns, userId, accountId, amount, description, nowMs, random, fault);
      (!f.result.Refused? <==>
        0 < amount <= WITHDRAWAL_LIMIT && Owns(accounts, accountId, userId) && accounts[accountId - 1].available >= amount)
      && (f.result.Refused? ==> f.accounts == accounts && f.txns == txns)
  {
  }

  /** A successful withdrawal takes `amount` off the current balance but leaves the available
      balance where it was before the hold. From an account at rest holding exactly `amount`,
      the same withdrawal is then accepted a second time although nothing is left. */
  lemma WithdrawSucceededKeepsAvailable(accounts: seq<Account>, txns: seq<Txn>, userId: nat, accountId: nat,
                                        amount: int, description: Option<string>, nowMs: nat, random: int, random2: int)
    requires 1000 <= random <= 9999 && 1000 <= random2 <= 9999
    requires WithdrawFlow(accounts, txns, userId, accountId, amount, description, nowMs, random, NoFault).result.Succeeded?
    ensures var f := WithdrawFlow(accounts, txns, userId, accountId, amount, description, nowMs, random, NoFault);
      f.accounts[accountId - 1].current == accounts[accountId - 1].current - amount
      && f.accounts[accountId - 1].available == accounts[accountId - 1].available
      && (forall k :: 0 <= k < |accounts| && k != accountId - 1 ==> f.accounts[k] == accounts[k])
    ensures accounts[accountId - 1].current == accounts[accountId - 1].available == amount ==>
      var f := WithdrawFlow(accounts, txns, userId, accountId, amount, description, nowMs, random, NoFault);
      f.accounts[accountId - 1].current == 0
      && !WithdrawFlow(f.accounts, f.txns, userId, accountId, amount, description, nowMs, random2, NoFault).result.Refused?
  {
    var tid := GenerateTransactionId(nowMs, random);
    var row := NewTxnRow(WithdrawRequest(accountId, amount, description), tid, nowMs);
    HeldWithdrawalRestoresAvailable(accounts, row, accountId);
  }

  // ------------------------------------------------------------ createAccount

  /** The number of the user's accounts. */
  function AccountCount(accounts: seq<Account>, userId: nat): nat {
    if accounts == [] then 0
    else (if accounts[0].userId == userId then 1 else 0) + AccountCount(accounts[1..], userId)
  }

  lemma {:induction false} AccountCountAppend(accounts: seq<Account>, a: Account, userId: nat)
    ensures AccountCount(accounts + [a], userId) == AccountCount(accounts, userId) + (if a.userId == userId then 1 else 0)
  {
    if accounts == [] {
      assert [a][1..] == [];
    } else {
      AccountCountAppend(accounts[1..], a, userId);
      assert (accounts + [a])[1..] == accounts[1..] + [a];
    }
  }

  /** createAccount: the cap, a generated number, the insert, then the audit log, which may throw
      after the account exists. */
  function CreateAccountFlow(accounts: seq<Account>, userId: nat, accountType: Option<AccountType>,
                             currency: Option<string>, nowMs: nat, random: int, auditFails: bool): (FlowResult, seq<Account>)
    requires 1000 <= random <= 9999
  {
    if AccountCount(accounts, userId) >= MAX_ACCOUNTS_PER_USER then (Refused(AccountCapReached), accounts)
    else
      var number := GenerateAccountNumber(nowMs, random);
      if Accounts.NumberTaken(accounts, number) then (Aborted(InsertFailed), accounts)
      else
        var withNew := accounts + [NewAccountRow(NewAccount(userId, accountType, number, currency, None))];
        (if auditFails then Aborted(PostCommitFailed) else Succeeded(number), withNew)
  }

  /** `bankingController.createAccount`. */
  method CreateAccount(db: Database, userId: nat, accountType: Option<AccountType>, currency: Option<string>,
                       nowMs: nat, random: int, auditFails: bool) returns (r: FlowResult)
    requires 1000 <= random <= 9999
    modifies db`accounts
    ensures (r, db.accounts) == CreateAccountFlow(old(db.accounts), userId, accountType, currency, nowMs, random, auditFails)
  {
    if AccountCount(db.accounts, userId) >= MAX_ACCOUNTS_PER_USER {
      return Refused(AccountCapReached);
    }
    var number := GenerateAccountNumber(nowMs, random);
    var id := Accounts.Create(db, NewAccount(userId, accountType, number, currency, None));
    if id.None? {
      return Aborted(InsertFailed);
    }
    r := if auditFails then Aborted(PostCommitFailed) else Succeeded(number);
  }

  /** The cap holds: a user never gets past MAX_ACCOUNTS_PER_USER accounts this way, a refusal
      happens exactly at the cap, and a new account is the user's, empty, at rest, and a savings
      account in INR unless told otherwise. */
  lemma CreateAccountRespectsCap(accounts: seq<Account>, userId: nat, accountType: Option<AccountType>,
                                 currency: Option<string>, nowMs: nat, random: int, auditFails: bool)
    requires 1000 <= random <= 9999
    ensures var (r, after) := CreateAccountFlow(accounts, userId, accountType, currency, nowMs, random, auditFails);
      (r == Refused(AccountCapReached) <==> AccountCount(accounts, userId) >= MAX_ACCOUNTS_PER_USER)
      && AccountCount(after, userId) <= (if AccountCount(accounts, userId) > MAX_ACCOUNTS_PER_USER
                                         then AccountCount(accounts, userId) else MAX_ACCOUNTS_PER_USER)
      && (|after| > |accounts| ==>
            |after| == |accounts| + 1 && after[..|accounts|] == accounts
            && AccountCount(after, userId) == AccountCount(accounts, userId) + 1
            && after[|accounts|].userId == userId
            && after[|accounts|].current == after[|accounts|].available == 0
            && (accountType.None? ==> after[|accounts|].accountType == Savings)
            && (currency.None? ==> after[|accounts|].currency == "INR"))
  {
    var number := GenerateAccountNumber(nowMs, random);
    var row := NewAccountRow(NewAccount(userId, accountType, number, currency, None));
    AccountCountAppend(accounts, row, userId);
  }

  // --------------------------------------------------------- generateStatement

  /** The statement summary of the controller: credits to the account are deposits; otherwise
      debits from it are withdrawals. */
  function Deposits(statement: seq<Txn>, accountId: nat): int {
    if statement == [] then 0
    else Deposits(statement[..|statement| - 1], accountId)
         + (if statement[|statement| - 1].to == Some(accountId) then statement[|statement| - 1].amount else 0)
  }

  function Withdrawals(statement: seq<Txn>, accountId: nat): int {
    if statement == [] then 0
    else
      var t := statement[|statement| - 1];
      Withdrawals(statement[..|statement| - 1], accountId)
      + (if t.to != Some(accountId) && t.from == Some(accountId) then t.amount else 0)
  }

  function SumAmounts(statement: seq<Txn>): int {
    if statement == [] then 0 else SumAmounts(statement[..|statement| - 1]) + statement[|statement| - 1].amount
  }

  /** Every row of a statement touches the account, so each is counted exactly once, as a deposit
      or as a withdrawal. */
  lemma {:induction false} SummaryCountsEachRowOnce(statement: seq<Txn>, accountId: nat)
    requires forall k :: 0 <= k < |statement| ==> Touches(statement[k], accountId)
    ensures Deposits(statement, accountId) + Withdrawals(statement, accountId) == SumAmounts(statement)
  {
    if statement != [] {
      var front := statement[..|statement| - 1];
      assert forall k :: 0 <= k < |front| ==> front[k] == statement[k];
      SummaryCountsEachRowOnce(front, accountId);
    }
  }

  datatype Summary = Summary(totalDeposits: int, totalWithdrawals: int, openingBalance: int, closingBalance: int)

  /** The `forEach` over the statement and the opening balance worked back from the closing one. */
  method Summarize(statement: seq<Txn>, accountId: nat, closing: int) returns (s: Summary)
    ensures s.totalDeposits == Deposits(statement, accountId)
    ensures s.totalWithdrawals == Withdrawals(statement, accountId)
    ensures s.closingBalance == closing
    ensures s.openingBalance + s.totalDeposits - s.totalWithdrawals == closing
  {
    var deposits := 0;
    var withdrawals := 0;
    var i := 0;
    while i < |statement|
      invariant 0 <= i <= |statement|
      invariant deposits == Deposits(statement[..i], accountId)
      invariant withdrawals == Withdrawals(statement[..i], accountId)
    {
      var t := statement[i];
      assert statement[..i + 1][..i] == statement[..i];
      if t.to == Some(accountId) {
        deposits := deposits + t.amount;
      } else if t.from == Some(accountId) {
        withdrawals := withdrawals + t.amount;
      }
      i := i + 1;
    }
    assert statement[..|statement|] == statement;
    s := Summary(deposits, withdrawals, closing - deposits + withdrawals, closing);
  }

  /** Why no statement is returned; `StatementFailed` is the 500 answered when the audit log throws. */
  datatype StatementError = InvalidDate | StartAfterEnd | AccessDenied | StatementFailed

  datatype Statement = Statement(rows: seq<Txn>, summary: Summary)

  /** `bankingController.generateStatement`. A date that does not parse is `None`. The dates are
      checked before the account is read; `auditFails` says whether the audit log throws once the
      summary is computed. */
  method GenerateAccountStatement(accounts: seq<Account>, txns: seq<Txn>, userId: nat, accountId: nat,
                                  startMs: Option<int>, endMs: Option<int>, auditFails: bool)
    returns (r: Result<Statement, StatementError>)
    ensures startMs.None? || endMs.None? <==> r == Err(InvalidDate)
    ensures startMs.Some? && endMs.Some? && startMs.value > endMs.value <==> r == Err(StartAfterEnd)
    ensures r == Err(AccessDenied) <==>
      startMs.Some? && endMs.Some? && startMs.value <= endMs.value && !Owns(accounts, accountId, userId)
    ensures r == Err(StatementFailed) <==>
      startMs.Some? && endMs.Some? && startMs.value <= endMs.value && Owns(accounts, accountId, userId) && auditFails
    ensures r.Ok? ==>
      var rows := GenerateStatement(txns, accountId, startMs.value, endMs.value);
      r.value.rows == rows
      && r.value.summary.closingBalance == accounts[accountId - 1].current
      && r.value.summary.totalDeposits == Deposits(rows, accountId)
      && r.value.summary.totalWithdrawals == Withdrawals(rows, accountId)
      && r.value.summary.totalDeposits + r.value.summary.totalWithdrawals == SumAmounts(rows)
      && r.value.summary.openingBalance
         == accounts[accountId - 1].current - r.value.summary.totalDeposits + r.value.summary.totalWithdrawals
  {
    if startMs.None? || endMs.None? {
      return Err(InvalidDate);
    }
    if startMs.value > endMs.value {
      return Err(StartAfterEnd);
    }
    if !Owns(accounts, accountId, userId) {
      return Err(AccessDenied);
    }
    var rows := GenerateStatement(txns, accountId, startMs.value, endMs.value);
    assert forall k :: 0 <= k < |rows| ==> rows[k] in rows;
    SummaryCountsEachRowOnce(rows, accountId);
    var summary := Summarize(rows, accountId, accounts[accountId - 1].current);
    if auditFails {
      return Err(StatementFailed);
    }
    r := Ok(Statement(rows, summary));
  }
}
