/** The account ledger primitives of account.model.js. Every balance UPDATE there is
    `Adjust`: one row, selected by id, gains a signed amount on each of its two balances;
    an id that names no row matches nothing and changes nothing. */
module Accounts {
  import opened Common
  import opened Constants
  import opened Schema

  predicate HasAccount(rows: seq<Account>, id: int) { 1 <= id <= |rows| }

  /** The account exists and belongs to the user (`!account || account.user_id !== userId`
      negated, as every controller checks it). */
  predicate Owns(rows: seq<Account>, id: int, userId: nat) {
    HasAccount(rows, id) && rows[id - 1].userId == userId
  }

  /** `UPDATE accounts SET current_balance = current_balance + dCurrent,
      available_balance = available_balance + dAvailable WHERE id = id`. */
  function Adjust(rows: seq<Account>, id: int, dCurrent: int, dAvailable: int): seq<Account> {
    if HasAccount(rows, id) then
      rows[id - 1 := rows[id - 1].(current := rows[id - 1].current + dCurrent,
                                   available := rows[id - 1].available + dAvailable)]
    else rows
  }

  /** Sum of `current_balance` over every account of the bank. */
  function SumCurrent(rows: seq<Account>): int {
    if rows == [] then 0 else rows[0].current + SumCurrent(rows[1..])
  }

  /** Sum of `available_balance` over every account of the bank. */
  function SumAvailable(rows: seq<Account>): int {
    if rows == [] then 0 else rows[0].available + SumAvailable(rows[1..])
  }

  /** An account is at rest when no hold is outstanding against it. */
  predicate AtRest(rows: seq<Account>) {
    forall k :: 0 <= k < |rows| ==> rows[k].available == rows[k].current
  }

  /** Adjusting one account moves each bank-wide total by exactly that account's delta;
      adjusting a missing id moves nothing. */
  lemma {:induction false} AdjustTotals(rows: seq<Account>, id: int, dCurrent: int, dAvailable: int)
    ensures |Adjust(rows, id, dCurrent, dAvailable)| == |rows|
    ensures SumCurrent(Adjust(rows, id, dCurrent, dAvailable))
         == SumCurrent(rows) + (if HasAccount(rows, id) then dCurrent else 0)
    ensures SumAvailable(Adjust(rows, id, dCurrent, dAvailable))
         == SumAvailable(rows) + (if HasAccount(rows, id) then dAvailable else 0)
  {
    if HasAccount(rows, id) {
      var r := Adjust(rows, id, dCurrent, dAvailable);
      if id == 1 {
        assert r[1..] == rows[1..];
      } else {
        AdjustTotals(rows[1..], id - 1, dCurrent, dAvailable);
        assert r[1..] == Adjust(rows[1..], id - 1, dCurrent, dAvailable);
      }
    }
  }

  /** Adjusting a row by the same amount on both balances keeps the table at rest. */
  lemma AdjustBothKeepsAtRest(rows: seq<Account>, id: int, amount: int)
    requires AtRest(rows)
    ensures AtRest(Adjust(rows, id, amount, amount))
  {
  }

  // ---------------------------------------------------------------- create

  /** What `Account.create` receives; an absent field takes the destructuring default. */
  datatype NewAccount = NewAccount(
    userId: nat,
    accountType: Option<AccountType>,
    accountNumber: string,
    currency: Option<string>,
    initialBalance: Option<int>)

  /** The row `Account.create` inserts. */
  function NewAccountRow(req: NewAccount): Account {
    var balance := if req.initialBalance.Some? then req.initialBalance.value else 0;
    Account(req.userId,
            if req.accountType.Some? then req.accountType.value else Savings,
            req.accountNumber,
            if req.currency.Some? then req.currency.value else "INR",
            balance, balance)
  }

  /** A new account starts at rest, holding its initial balance (0 when none is given),
      as a savings account in INR unless told otherwise. */
  lemma NewAccountRowStartsAtRest(req: NewAccount)
    ensures NewAccountRow(req).current == NewAccountRow(req).available
    ensures req.initialBalance.None? ==> NewAccountRow(req).current == 0
    ensures req.initialBalance.Some? ==> NewAccountRow(req).current == req.initialBalance.value
    ensures req.accountType.None? ==> NewAccountRow(req).accountType == Savings
    ensures req.currency.None? ==> NewAccountRow(req).currency == "INR"
  {
  }

  predicate NumberTaken(rows: seq<Account>, number: string) {
    exists k :: 0 <= k < |rows| && rows[k].accountNumber == number
  }

  /** `Account.create`: inserts the row and returns its id; the UNIQUE constraint on
      `account_number` makes the INSERT fail, inserting nothing, on a number already used. */
  method Create(db: Database, req: NewAccount) returns (id: Option<nat>)
    modifies db`accounts
    ensures NumberTaken(old(db.accounts), req.accountNumber) ==> id.None? && db.accounts == old(db.accounts)
    ensures !NumberTaken(old(db.accounts), req.accountNumber) ==>
      db.accounts == old(db.accounts) + [NewAccountRow(req)] && id == Some(|db.accounts|)
  {
    if exists k :: 0 <= k < |db.accounts| && db.accounts[k].accountNumber == req.accountNumber {
      id := None;
    } else {
      db.accounts := db.accounts + [NewAccountRow(req)];
      id := Some(|db.accounts|);
    }
  }

  /** `Account.findByAccountNumber`: the id of the row with that number, if any. */
  function FindByNumber(rows: seq<Account>, number: string): (r: Option<nat>)
    ensures r.Some? ==> HasAccount(rows, r.value) && rows[r.value - 1].accountNumber == number
    ensures r.None? <==> !NumberTaken(rows, number)
  {
    if rows == [] then None
    else if rows[0].accountNumber == number then Some(1)
    else
      match FindByNumber(rows[1..], number)
      case None => None
      case Some(i) => Some(i + 1)
  }

  // ----------------------------------------------------- balance primitives

  /** `Account.updateBalance`: adds the same signed amount to both balances of one account. */
  method UpdateBalance(db: Database, id: int, amount: int)
    modifies db`accounts
    ensures db.accounts == Adjust(old(db.accounts), id, amount, amount)
  {
    if 1 <= id <= |db.accounts| {
      var a := db.accounts[id - 1];
      db.accounts := db.accounts[id - 1 := a.(current := a.current + amount, available := a.available + amount)];
    }
  }

  /** `Account.holdAmount`: lowers only the available balance, with no sufficiency check. */
  method HoldAmount(db: Database, id: int, amount: int)
    modifies db`accounts
    ensures db.accounts == Adjust(old(db.accounts), id, 0, -amount)
  {
    if 1 <= id <= |db.accounts| {
      var a := db.accounts[id - 1];
      db.accounts := db.accounts[id - 1 := a.(available := a.available - amount)];
    }
  }

  /** `Account.releaseHold`: raises only the available balance. */
  method ReleaseHold(db: Database, id: int, amount: int)
    modifies db`accounts
    ensures db.accounts == Adjust(old(db.accounts), id, 0, amount)
  {
    if 1 <= id <= |db.accounts| {
      var a := db.accounts[id - 1];
      db.accounts := db.accounts[id - 1 := a.(available := a.available + amount)];
    }
  }

  /** A hold followed by the release of the same amount restores the table exactly. */
  lemma HoldThenRelease(rows: seq<Account>, id: int, amount: int)
    ensures Adjust(Adjust(rows, id, 0, -amount), id, 0, amount) == rows
  {
    if HasAccount(rows, id) {
      assert Adjust(Adjust(rows, id, 0, -amount), id, 0, amount)[id - 1] == rows[id - 1];
    }
  }

  /** A hold never looks at the balance: holding more than is available drives the
      available balance negative, and the current balance does not move. */
  lemma HoldHasNoGuard(rows: seq<Account>, id: int, amount: int)
    requires HasAccount(rows, id) && amount > rows[id - 1].available
    ensures Adjust(rows, id, 0, -amount)[id - 1].available < 0
    ensures Adjust(rows, id, 0, -amount)[id - 1].current == rows[id - 1].current
  {
  }

  // ------------------------------------------------------- getTotalBalance

  predicate CountsTowardTotal(a: Account, userId: nat) {
    a.userId == userId && a.accountType != LoanAccount
  }

  /** `Account.getTotalBalance`: the sums of both balances over the user's accounts that
      are not loan accounts; SQL's NULL sum over no rows reads as 0. */
  function TotalBalance(rows: seq<Account>, userId: nat): (total: (int, int)) {
    if rows == [] then (0, 0)
    else
      var rest := TotalBalance(rows[1..], userId);
      if CountsTowardTotal(rows[0], userId) then (rows[0].current + rest.0, rows[0].available + rest.1)
      else rest
  }

  /** A user with no non-loan account has totals of zero. */
  lemma {:induction false} TotalBalanceNone(rows: seq<Account>, userId: nat)
    requires forall k :: 0 <= k < |rows| ==> !CountsTowardTotal(rows[k], userId)
    ensures TotalBalance(rows, userId) == (0, 0)
  {
    if rows != [] {
      TotalBalanceNone(rows[1..], userId);
    }
  }

  /** Adjusting one account moves the user's totals by its deltas exactly when it is one of
      the user's non-loan accounts, and leaves them alone otherwise. */
  lemma {:induction false} TotalBalanceAdjust(rows: seq<Account>, userId: nat, id: int, dCurrent: int, dAvailable: int)
    ensures var moves := HasAccount(rows, id) && CountsTowardTotal(rows[id - 1], userId);
      TotalBalance(Adjust(rows, id, dCurrent, dAvailable), userId)
        == (TotalBalance(rows, userId).0 + (if moves then dCurrent else 0),
            TotalBalance(rows, userId).1 + (if moves then dAvailable else 0))
  {
    if HasAccount(rows, id) {
      var r := Adjust(rows, id, dCurrent, dAvailable);
      if id == 1 {
        assert r[1..] == rows[1..];
      } else {
        TotalBalanceAdjust(rows[1..], userId, id - 1, dCurrent, dAvailable);
        assert r[1..] == Adjust(rows[1..], id - 1, dCurrent, dAvailable);
      }
    }
  }

  /** When every account counted is at rest, the two totals agree. */
  lemma {:induction false} TotalBalanceAtRest(rows: seq<Account>, userId: nat)
    requires AtRest(rows)
    ensures TotalBalance(rows, userId).0 == TotalBalance(rows, userId).1
  {
    if rows != [] {
      TotalBalanceAtRest(rows[1..], userId);
    }
  }

  // ------------------------------------------------- generateAccountNumber

  /** `String.prototype.slice(-8)`: the last eight characters, or all of a shorter string. */
  function Last8(s: string): string {
    if |s| >= 8 then s[|s| - 8..] else s
  }

  /** `Account.generateAccountNumber`: "KONI", the last eight digits of the millisecond
      timestamp, and a random number drawn from 1000..9999 (passed in). */
  function GenerateAccountNumber(nowMs: nat, random: int): (number: string)
    requires 1000 <= random <= 9999
    ensures StartsWith(number, "KONI") && AllDigits(number[4..])
    ensures 9 <= |number| <= 16
    ensures ParseDecimal(number[|number| - 4..]) == random
  {
    var ts := NatToString(nowMs);
    var tail := NatToString(random);
    assert Pow10(3) == 1000 && Pow10(4) == 10000;
    NatToStringLength(random, 4);
    ParseNatToString(random);
    var number := "KONI" + Last8(ts) + tail;
    assert number[4..] == Last8(ts) + tail;
    assert number[|number| - 4..] == tail;
    number
  }

  /** From 1973 on the timestamp has at least eight digits, and every number is 16 characters. */
  lemma AccountNumberLength(nowMs: nat, random: int)
    requires 1000 <= random <= 9999 && nowMs >= 10000000
    ensures |GenerateAccountNumber(nowMs, random)| == 16
  {
    assert Pow10(3) == 1000 && Pow10(4) == 10000 && Pow10(7) == 10000000;
    NatToStringLongerThan(nowMs, 7);
    NatToStringLength(random, 4);
  }
}
