/** The transaction log of transaction.model.js: rows are appended by `Create`, their status
    is overwritten by `UpdateStatus`, and the rest are read-only queries over the rows. */
module Transactions {
  import opened Common
  import opened Constants
  import opened Schema

  // ---------------------------------------------------------------- create

  /** `TXN`, the millisecond timestamp, and a random number drawn from 1000..9999 (passed in). */
  function GenerateTransactionId(nowMs: nat, random: int): (tid: string)
    requires 1000 <= random <= 9999
    ensures StartsWith(tid, "TXN") && AllDigits(tid[3..])
    ensures |tid| >= 8 && ParseDecimal(tid[|tid| - 4..]) == random
  {
    var tail := NatToString(random);
    assert Pow10(3) == 1000 && Pow10(4) == 10000;
    NatToStringLength(random, 4);
    ParseNatToString(random);
    var tid := "TXN" + NatToString(nowMs) + tail;
    assert tid[3..] == NatToString(nowMs) + tail;
    assert tid[|tid| - 4..] == tail;
    tid
  }

  /** What `Transaction.create` receives; `description` defaults to "" and `status` to pending. */
  datatype NewTxn = NewTxn(
    from: Option<nat>,
    to: Option<nat>,
    amount: int,
    txType: TxType,
    description: Option<string>,
    status: Option<TxStatus>)

  function NewTxnRow(req: NewTxn, tid: string, nowMs: int): (row: Txn)
    ensures row.transactionId == tid && row.createdAt == nowMs && row.errorMessage.None?
    ensures row.from == req.from && row.to == req.to && row.amount == req.amount && row.txType == req.txType
    ensures req.status.None? ==> row.status == Pending
    ensures req.description.None? ==> row.description == ""
  {
    Txn(tid, req.from, req.to, req.amount, req.txType,
        if req.description.Some? then req.description.value else "",
        if req.status.Some? then req.status.value else Pending,
        None, nowMs)
  }

  predicate IdTaken(rows: seq<Txn>, tid: string) {
    exists k :: 0 <= k < |rows| && rows[k].transactionId == tid
  }

  /** `Transaction.create`: appends the row and returns its row id and transaction id. The
      UNIQUE constraint on `transaction_id` makes the INSERT fail on a clash, inserting nothing. */
  method Create(db: Database, req: NewTxn, nowMs: nat, random: int) returns (r: Option<(nat, string)>)
    requires 1000 <= random <= 9999
    modifies db`txns
    ensures var tid := GenerateTransactionId(nowMs, random);
      if IdTaken(old(db.txns), tid) then r.None? && db.txns == old(db.txns)
      else db.txns == old(db.txns) + [NewTxnRow(req, tid, nowMs)] && r == Some((|db.txns|, tid))
  {
    var tid := GenerateTransactionId(nowMs, random);
    if exists k :: 0 <= k < |db.txns| && db.txns[k].transactionId == tid {
      r := None;
    } else {
      db.txns := db.txns + [NewTxnRow(req, tid, nowMs)];
      r := Some((|db.txns|, tid));
    }
  }

  /** `Transaction.findByTransactionId`: the first row carrying that id. */
  function FindByTransactionId(rows: seq<Txn>, tid: string): (r: Option<Txn>)
    ensures r.Some? ==> r.value in rows && r.value.transactionId == tid
    ensures r.None? <==> !IdTaken(rows, tid)
  {
    if rows == [] then None
    else if rows[0].transactionId == tid then Some(rows[0])
    else FindByTransactionId(rows[1..], tid)
  }

  /** A row appended under an id no other row carries is what a lookup of that id returns. */
  lemma {:induction false} FindAppended(rows: seq<Txn>, row: Txn)
    requires !IdTaken(rows, row.transactionId)
    ensures FindByTransactionId(rows + [row], row.transactionId) == Some(row)
  {
    if rows != [] {
      FindAppended(rows[1..], row);
      assert (rows + [row])[1..] == rows[1..] + [row];
    }
  }

  // ---------------------------------------------------------- updateStatus

  /** `UPDATE transactions SET status = ?, error_message = ? WHERE transaction_id = ?`. */
  function SetStatus(rows: seq<Txn>, tid: string, status: TxStatus, err: Option<string>): seq<Txn> {
    seq(|rows|, k requires 0 <= k < |rows| =>
      if rows[k].transactionId == tid then rows[k].(status := status, errorMessage := err) else rows[k])
  }

  /** `Transaction.updateStatus`: overwrites status and error message with no check of the
      current status. */
  method UpdateStatus(db: Database, tid: string, status: TxStatus, err: Option<string>)
    modifies db`txns
    ensures db.txns == SetStatus(old(db.txns), tid, status, err)
  {
    db.txns := SetStatus(db.txns, tid, status, err);
  }

  /** An update of the status touches exactly the rows with that id, and only their status and
      error message; it never moves an amount or re-points an account. */
  lemma SetStatusEffect(rows: seq<Txn>, tid: string, status: TxStatus, err: Option<string>, k: nat)
    requires k < |rows|
    ensures |SetStatus(rows, tid, status, err)| == |rows|
    ensures rows[k].transactionId == tid ==>
      SetStatus(rows, tid, status, err)[k] == rows[k].(status := status, errorMessage := err)
    ensures rows[k].transactionId != tid ==> SetStatus(rows, tid, status, err)[k] == rows[k]
  {
  }

  /** There is no guard that the transaction is still pending: a completed transaction can be
      rewritten as failed, and the lookup then reports the new status. */
  lemma {:induction false} UpdateStatusRewritesTerminal(rows: seq<Txn>, tid: string, err: Option<string>)
    requires FindByTransactionId(rows, tid).Some? && FindByTransactionId(rows, tid).value.status == Completed
    ensures FindByTransactionId(SetStatus(rows, tid, Failed, err), tid).Some?
    ensures FindByTransactionId(SetStatus(rows, tid, Failed, err), tid).value.status == Failed
  {
    var r := SetStatus(rows, tid, Failed, err);
    if rows[0].transactionId != tid {
      UpdateStatusRewritesTerminal(rows[1..], tid, err);
      assert r[1..] == SetStatus(rows[1..], tid, Failed, err);
    }
  }

  // ---------------------------------------------------------- getDailyTotal

  /** The UTC day a millisecond timestamp falls in. */
  function Day(t: int): int { t / DAY_MS }

  /** The first millisecond of the day of `t`. */
  function DayStart(t: int): int { Day(t) * DAY_MS }

  /** The WHERE clause of getDailyTotal. The bound type is optional: a NULL parameter makes the
      SQL comparison `transaction_type = NULL` unknown, so the row is not selected. */
  predicate CountsInDailyTotal(t: Txn, accountId: nat, txType: Option<TxType>, dayStart: int) {
    t.from == Some(accountId) && t.status == Completed
    && txType.Some? && t.txType == txType.value
    && dayStart <= t.createdAt <= dayStart + DAY_MS - 1
  }

  function SumDaily(rows: seq<Txn>, accountId: nat, txType: Option<TxType>, dayStart: int): int {
    if rows == [] then 0
    else (if CountsInDailyTotal(rows[0], accountId, txType, dayStart) then rows[0].amount else 0)
         + SumDaily(rows[1..], accountId, txType, dayStart)
  }

  /** `Transaction.getDailyTotal` as written: it binds `TRANSACTION_STATUS.TRANSFER`, which does
      not exist, so the type parameter is bound as NULL. */
  function DailyTotal(rows: seq<Txn>, accountId: nat, nowMs: int): int {
    SumDaily(rows, accountId, None, DayStart(nowMs))
  }

  /** The daily total as written is zero whatever the log holds. */
  lemma {:induction false} DailyTotalIsAlwaysZero(rows: seq<Txn>, accountId: nat, nowMs: int)
    ensures DailyTotal(rows, accountId, nowMs) == 0
  {
    if rows != [] {
      DailyTotalIsAlwaysZero(rows[1..], accountId, nowMs);
    }
  }

  /** The query with a bound type: appending a row adds its amount exactly when the row is a
      completed transaction of that type out of the account, made within the day. */
  lemma {:induction false} SumDailyAppend(rows: seq<Txn>, t: Txn, accountId: nat, txType: Option<TxType>, dayStart: int)
    ensures SumDaily(rows + [t], accountId, txType, dayStart)
         == SumDaily(rows, accountId, txType, dayStart)
            + (if CountsInDailyTotal(t, accountId, txType, dayStart) then t.amount else 0)
  {
    if rows == [] {
      assert [t][1..] == [];
    } else {
      SumDailyAppend(rows[1..], t, accountId, txType, dayStart);
      assert (rows + [t])[1..] == rows[1..] + [t];
    }
  }

  /** A log holding one completed transfer of 20000 made today: as written the daily total reads
      0, while the same query with the transfer type bound reads 20000. */
  lemma DailyTotalMissesTodaysTransfer()
    ensures var t := Txn("TXN1", Some(1), Some(2), 20000 * 100, Transfer, "", Completed, None, 5 * DAY_MS);
      DailyTotal([t], 1, 5 * DAY_MS + 1000) == 0
      && SumDaily([t], 1, Some(Transfer), DayStart(5 * DAY_MS + 1000)) == 20000 * 100
  {
    var t := Txn("TXN1", Some(1), Some(2), 20000 * 100, Transfer, "", Completed, None, 5 * DAY_MS);
    assert DAY_MS == 86400000;
    assert (5 * 86400000 + 1000) / 86400000 == 5;
    assert DayStart(5 * DAY_MS + 1000) == 5 * DAY_MS;
    assert CountsInDailyTotal(t, 1, Some(Transfer), 5 * DAY_MS);
    assert [t][1..] == [];
    assert SumDaily([t], 1, None, 5 * DAY_MS) == 0;
    assert SumDaily([t], 1, Some(Transfer), 5 * DAY_MS) == 20000 * 100;
  }

  // ------------------------------------------- ordering by creation time

  /** The sort key of `ORDER BY created_at`, negated for `DESC`. */
  function SortKey(t: Txn, newestFirst: bool): int {
    if newestFirst then -t.createdAt else t.createdAt
  }

  predicate Ordered(s: seq<Txn>, newestFirst: bool) {
    forall i, j :: 0 <= i < j < |s| ==> SortKey(s[i], newestFirst) <= SortKey(s[j], newestFirst)
  }

  function Insert(x: Txn, s: seq<Txn>, newestFirst: bool): (r: seq<Txn>)
    requires Ordered(s, newestFirst)
    ensures Ordered(r, newestFirst) && multiset(r) == multiset(s) + multiset{x}
    ensures |r| == |s| + 1 && (r[0] == x || (|s| > 0 && r[0] == s[0]))
  {
    if s == [] then [x]
    else if SortKey(x, newestFirst) <= SortKey(s[0], newestFirst) then
      ConsOrdered(x, s, newestFirst);
      [x] + s
    else
      OrderedTail(s, newestFirst);
      var tail := Insert(x, s[1..], newestFirst);
      InsertBehindHead(x, s, tail, newestFirst);
      [s[0]] + tail
  }

  lemma OrderedTail(s: seq<Txn>, newestFirst: bool)
    requires Ordered(s, newestFirst) && |s| > 0
    ensures Ordered(s[1..], newestFirst)
  {
    forall i, j | 0 <= i < j < |s| - 1
      ensures SortKey(s[1..][i], newestFirst) <= SortKey(s[1..][j], newestFirst)
    {
      assert s[1..][i] == s[i + 1] && s[1..][j] == s[j + 1];
    }
  }

  /** The recursive case of `Insert`: `x` goes behind the head of `s`, into its tail. */
  lemma InsertBehindHead(x: Txn, s: seq<Txn>, tail: seq<Txn>, newestFirst: bool)
    requires Ordered(s, newestFirst) && |s| > 0 && SortKey(s[0], newestFirst) < SortKey(x, newestFirst)
    requires Ordered(tail, newestFirst) && multiset(tail) == multiset(s[1..]) + multiset{x}
    requires |tail| == |s| && (tail[0] == x || (|s| > 1 && tail[0] == s[1..][0]))
    ensures Ordered([s[0]] + tail, newestFirst)
    ensures multiset([s[0]] + tail) == multiset(s) + multiset{x}
  {
    if tail[0] != x {
      assert SortKey(s[0], newestFirst) <= SortKey(s[1], newestFirst);
    }
    ConsOrdered(s[0], tail, newestFirst);
    assert s == [s[0]] + s[1..];
  }

  /** An element no later than the head of an ordered sequence can go in front of it. */
  lemma ConsOrdered(a: Txn, t: seq<Txn>, newestFirst: bool)
    requires Ordered(t, newestFirst) && (|t| > 0 ==> SortKey(a, newestFirst) <= SortKey(t[0], newestFirst))
    ensures Ordered([a] + t, newestFirst)
  {
    var r := [a] + t;
    forall i, j | 0 <= i < j < |r|
      ensures SortKey(r[i], newestFirst) <= SortKey(r[j], newestFirst)
    {
      if i == 0 {
        assert r[j] == t[j - 1];
      } else {
        assert r[i] == t[i - 1] && r[j] == t[j - 1];
      }
    }
  }

  /** `ORDER BY created_at`: an ordered permutation of the rows. */
  function SortByCreated(s: seq<Txn>, newestFirst: bool): (r: seq<Txn>)
    ensures Ordered(r, newestFirst) && multiset(r) == multiset(s)
  {
    if s == [] then []
    else
      assert s == [s[0]] + s[1..];
      Insert(s[0], SortByCreated(s[1..], newestFirst), newestFirst)
  }

  function Filter(s: seq<Txn>, keep: Txn -> bool): (r: seq<Txn>)
    ensures forall t :: t in r <==> t in s && keep(t)
    ensures forall t :: multiset(r)[t] == if keep(t) then multiset(s)[t] else 0
    ensures |r| <= |s|
  {
    if s == [] then []
    else
      assert s == [s[0]] + s[1..];
      (if keep(s[0]) then [s[0]] else []) + Filter(s[1..], keep)
  }

  predicate Touches(t: Txn, accountId: nat) {
    t.from == Some(accountId) || t.to == Some(accountId)
  }

  // ------------------------------------------------------ generateStatement

  predicate InStatement(t: Txn, accountId: nat, startMs: int, endMs: int) {
    Touches(t, accountId) && t.status == Completed && Day(startMs) <= Day(t.createdAt) <= Day(endMs)
  }

  /** `Transaction.generateStatement`: the completed transactions with the account on either
      side whose creation date lies in the inclusive date range, oldest first. */
  function GenerateStatement(rows: seq<Txn>, accountId: nat, startMs: int, endMs: int): (r: seq<Txn>)
    ensures Ordered(r, false)
    ensures forall t :: t in r <==> t in rows && InStatement(t, accountId, startMs, endMs)
    ensures forall t :: multiset(r)[t] == if InStatement(t, accountId, startMs, endMs) then multiset(rows)[t] else 0
  {
    var matching := Filter(rows, t => InStatement(t, accountId, startMs, endMs));
    var s := SortByCreated(matching, false);
    assert forall t :: t in s <==> t in multiset(s);
    assert forall t :: t in matching <==> t in multiset(matching);
    s
  }

  // ------------------------------------------------------- findByAccountId

  /** Every transaction touching the account, newest first. */
  function TouchingNewestFirst(rows: seq<Txn>, accountId: nat): (r: seq<Txn>)
    ensures Ordered(r, true) && |r| <= |rows|
    ensures forall t :: t in r <==> t in rows && Touches(t, accountId)
    ensures forall t :: multiset(r)[t] == if Touches(t, accountId) then multiset(rows)[t] else 0
  {
    var touching := Filter(rows, t => Touches(t, accountId));
    var all := SortByCreated(touching, true);
    assert forall t :: t in all <==> t in multiset(all);
    assert forall t :: t in touching <==> t in multiset(touching);
    assert |all| == |multiset(all)| == |multiset(touching)| == |touching|;
    all
  }

  /** `Transaction.findByAccountId`: the transactions touching the account, newest first,
      skipping `offset` and returning at most `limit` (50 and 0 by default). The controller
      passes both from the query string unchecked, so either may be negative. */
  function FindByAccountId(rows: seq<Txn>, accountId: nat, limit: int, offset: int): (r: seq<Txn>)
    ensures limit >= 0 ==> |r| <= limit
    ensures Ordered(r, true)
    ensures forall t :: t in r ==> t in rows && Touches(t, accountId)
    ensures var all := TouchingNewestFirst(rows, accountId);
      var start := if offset < 0 then 0 else offset;
      |r| == (if start >= |all| then 0 else if 0 <= limit < |all| - start then limit else |all| - start)
      && forall i :: 0 <= i < |r| ==> r[i] == all[start + i]
  {
    Page(TouchingNewestFirst(rows, accountId), limit, offset)
  }

  /** `LIMIT limit OFFSET offset` over rows already in order, as SQLite reads them: the rows
      from position `offset` on, at most `limit` of them. A negative offset counts as 0 and a
      negative limit sets no bound. */
  function Page(all: seq<Txn>, limit: int, offset: int): (r: seq<Txn>)
    ensures var start := if offset < 0 then 0 else offset;
      |r| == (if start >= |all| then 0 else if 0 <= limit < |all| - start then limit else |all| - start)
    ensures forall i :: 0 <= i < |r| ==> r[i] == all[(if offset < 0 then 0 else offset) + i]
    ensures forall t :: t in r ==> t in all
    ensures Ordered(all, true) ==> Ordered(r, true)
    ensures limit < 0 && offset <= 0 ==> r == all
  {
    var lo := if offset < 0 then 0 else if offset < |all| then offset else |all|;
    var hi := if limit < 0 || lo + limit >= |all| then |all| else lo + limit;
    WindowFacts(all, lo, hi);
    all[lo..hi]
  }

  /** A window of a sequence keeps its order, and its `i`-th row is row `lo + i`. */
  lemma WindowFacts(all: seq<Txn>, lo: nat, hi: nat)
    requires lo <= hi <= |all|
    ensures Ordered(all, true) ==> Ordered(all[lo..hi], true)
    ensures forall i :: 0 <= i < hi - lo ==> all[lo..hi][i] == all[lo + i]
    ensures forall t :: t in all[lo..hi] ==> t in all
  {
    var page := all[lo..hi];
    if Ordered(all, true) {
      forall i, j | 0 <= i < j < |page|
        ensures SortKey(page[i], true) <= SortKey(page[j], true)
      {
        assert page[i] == all[lo + i] && page[j] == all[lo + j];
      }
    }
    forall t | t in page
      ensures t in all
    {
      var i :| 0 <= i < |page| && page[i] == t;
      assert all[lo + i] == t;
    }
  }

  /** With no offset (or a negative one) and a limit covering them (or a negative one, which
      sets no bound), the page holds every transaction of the account. */
  lemma FindByAccountIdComplete(rows: seq<Txn>, accountId: nat, limit: int, offset: int, t: Txn)
    requires offset <= 0 && (limit < 0 || |rows| <= limit)
    requires t in rows && Touches(t, accountId)
    ensures t in FindByAccountId(rows, accountId, limit, offset)
  {
    var all := TouchingNewestFirst(rows, accountId);
    assert all[0..|all|] == all;
  }
}
