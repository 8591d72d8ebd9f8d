# KoniBank ledger core in Dafny

A Dafny model of the fund-movement core of the KoniBank retail-banking backend, together with
the small validators and state machines around it.

The model covers:

- the account table and its balance primitives (hold, release, signed update) and the
  per-user totals;
- the transaction log: creation, status updates, the daily-total query, statements and
  paging;
- the loan record: creation, status changes, repayment bookkeeping, the overdue filter
  and the EMI (equated monthly installment) formula;
- the ledger's apply phase: transfer, deposit, withdrawal, loan disbursement with its EMI
  schedule, and loan repayment;
- the controller flows: transfer, deposit, withdraw, account creation, statement, loan
  application, loan repayment, loan schedule, loan summary and the EMI quote;
- the login lockout machine and registration;
- the browser-side password-strength score, strength meter, email, phone and
  registration-form checks;
- the CSRF cookie parser, the request-header builder and the toast fallbacks;
- the admin role guard.

## Layout

Tables are sequences of rows held in one `Schema.Database` object, and a row's id is its
position plus one. Every SQL `UPDATE … WHERE id = ?` is a function over such a sequence; on a
missing id it changes nothing.

Money is an integer number of minor units (paise), so the limits 50000 and 20000 are
`50000 * 100` and `20000 * 100`. EMI arithmetic is over `real`.

Each state-changing operation is a method. Its `ensures` ties the new tables to a pure function
of the old ones, and the properties are proved as lemmas about those functions.

The flows follow the code as written. A caller-supplied fault says where, if anywhere, an
exception is thrown:

- inside the ledger's unit of work;
- when the log row is inserted (an id clash);
- in a notification or audit step after the ledger committed.

The model takes clocks, random numbers, password and TOTP checks, and notification or audit
failures as parameters.

| file | module | models |
|---|---|---|
| common.dfy | Common | Option/Result, decimal digits, `indexOf`, `split` |
| constants.dfy | Constants | enumerations, default limits, lockout policy |
| schema.dfy | Schema | row types and the `Database` class |
| accounts.dfy | Accounts | account.model.js |
| transactions.dfy | Transactions | transaction.model.js |
| loans.dfy | Loans | loan.model.js (record and overdue filter) |
| amortization.dfy | Amortization | `calculateEMI` and the reducing-balance recurrence |
| ledger.dfy | Ledger | ledgerService.js |
| banking.dfy | Banking | bankingController.js |
| loan_flows.dfy | LoanFlows | loanController.js |
| auth_flows.dfy | AuthFlows | authController.js (login, register) |
| auth_forms.dfy | AuthForms | auth.js validators |
| api.dfy | Api | api.js (CSRF cookie, headers, toasts) |
| admin_guard.dfy | AdminGuard | adminGuard.js |

## Model

| member | source | states |
|---|---|---|
| Accounts.Create | account.model.js:5-28 | A new number appends the row and returns its id; a number already taken inserts nothing and returns no id |
| Accounts.NewAccountRowStartsAtRest | account.model.js:6-25 | A new account's current and available balances are both the initial balance, 0 when none is given; the type defaults to savings and the currency to INR |
| Accounts.FindByNumber | account.model.js:30-35 | Returns a row carrying the number, and none exactly when no row carries it |
| Accounts.UpdateBalance | account.model.js:52-61 | Adds the same signed amount to both balances of the one account; every other row is unchanged |
| Accounts.HoldAmount | account.model.js:63-71 | Lowers only the available balance of the account |
| Accounts.ReleaseHold | account.model.js:73-81 | Raises only the available balance of the account |
| Accounts.HoldThenRelease | account.model.js:63-81 | A hold followed by the release of the same amount restores the table exactly |
| Accounts.HoldHasNoGuard | account.model.js:63-71 | Holding more than is available drives the available balance negative and leaves the current balance untouched |
| Accounts.AdjustTotals | account.model.js:52-81 | Any balance update moves the bank-wide sums of current and available balance by exactly its deltas (none for a missing id) |
| Accounts.AdjustBothKeepsAtRest | account.model.js:52-61 | An equal update of both balances keeps every account's current and available balances equal |
| Accounts.TotalBalanceNone | account.model.js:83-96 | A user with no non-loan account gets totals of 0 and 0 |
| Accounts.TotalBalanceAdjust | account.model.js:83-96 | A balance update moves the user's totals by its deltas exactly when it hits one of the user's non-loan accounts |
| Accounts.TotalBalanceAtRest | account.model.js:83-96 | With no hold outstanding, the total current and total available balances agree |
| Accounts.GenerateAccountNumber | account.model.js:98-103 | "KONI", then digits only; the last four read back as the random draw in 1000..9999; 9 to 16 characters |
| Accounts.AccountNumberLength | account.model.js:98-103 | With a timestamp of at least eight digits the number is exactly 16 characters |
| Transactions.GenerateTransactionId | transaction.model.js:18 | "TXN", then digits only, ending in the four digits of the random draw |
| Transactions.NewTxnRow | transaction.model.js:5-34 | The stored row carries the given accounts, amount and type, no error, status pending and description "" by default |
| Transactions.Create | transaction.model.js:5-34 | A fresh transaction id appends the row and returns its id; a clashing one inserts nothing |
| Transactions.FindByTransactionId | transaction.model.js:36-53 | Returns a row of the log carrying the id, and none exactly when no row carries it |
| Transactions.FindAppended | transaction.model.js:5-53 | A row created under a fresh id is what a lookup of that id returns |
| Transactions.UpdateStatus | transaction.model.js:97-104 | Rewrites status and error message of the rows with that id and nothing else |
| Transactions.SetStatusEffect | transaction.model.js:97-104 | The rows carrying the id get the new status and error message; every other row is unchanged |
| Transactions.UpdateStatusRewritesTerminal | transaction.model.js:97-104 | There is no pending guard: a completed transaction can be turned into a failed one |
| Transactions.SumDailyAppend | transaction.model.js:106-129 | The query with a bound type adds a row's amount exactly when it is a completed row of that type from the account, made that day |
| Transactions.DailyTotalIsAlwaysZero | transaction.model.js:106-129 | As written, the type parameter is an undefined constant, so the daily total is 0 for every log |
| Transactions.DailyTotalMissesTodaysTransfer | transaction.model.js:106-129 | A completed 20000 transfer made today reads as 0, though the query with the transfer type bound sums it to 20000 |
| Transactions.SortByCreated | transaction.model.js:131-145 | `ORDER BY created_at` gives an ordered permutation of the rows |
| Transactions.GenerateStatement | transaction.model.js:131-145 | Exactly the completed rows with the account on either side whose creation day lies between the start and end days, each as often as it occurs in the table, oldest first |
| Transactions.TouchingNewestFirst | transaction.model.js:55-74 | Exactly the rows touching the account, each as often as it occurs in the table, newest first |
| Transactions.FindByAccountId | transaction.model.js:55-74 | The rows touching the account, newest first, from position `offset` on (a negative offset counting as 0), and at most `limit` of them when `limit` is not negative: row `i` of the page is row `offset + i` of that ordering, and the page is empty once `offset` passes its end |
| Transactions.Page | transaction.model.js:71 | `LIMIT ? OFFSET ?` as SQLite reads it over ordered rows: exactly `min(limit, n - offset)` rows (none when `offset >= n`), row `i` being row `offset + i`, in the same order; a negative offset counts as 0 and a negative limit sets no bound, so limit -1 from the start returns every row |
| Transactions.FindByAccountIdComplete | transaction.model.js:55-74 | With an offset of 0 or below and a limit that is large enough or negative, every row touching the account is returned |
| Loans.GenerateLoanNumber | loan.model.js:18 | "LOAN", then digits only, ending in the four digits of the random draw |
| Loans.NewLoanRow | loan.model.js:5-35 | A new loan is pending, owes its whole amount over its whole tenure, and is neither disbursed nor paid |
| Loans.Create | loan.model.js:5-35 | A fresh loan number appends the row and returns its id and number; a clash inserts nothing |
| Loans.UpdateStatus | loan.model.js:97-116 | Rewrites the status of the one loan row |
| Loans.WithStatusKeeps | loan.model.js:97-116 | Amounts never move; the disbursement stamp is set exactly for `disbursed`; remarks change only when non-empty ones are given |
| Loans.UpdateRepayment | loan.model.js:118-127 | Lowers the remaining amount by the amount paid and stamps the payment date |
| Loans.RepaymentHasNoLowerBound | loan.model.js:118-127 | Paying more than remains drives the remaining amount below zero |
| Loans.OverdueLoans | loan.model.js:136-149 | Exactly the active loans still owing whose last payment lies more than 30 days back; the query has no ORDER BY, and ascending ids are the model's choice of order |
| Loans.NeverPaidNeverOverdue | loan.model.js:136-149 | A loan with no payment date is never reported overdue |
| Amortization.Round | loan.model.js:133 | `Math.round` lands within half a unit of its argument |
| Amortization.CalculateEmi | loan.model.js:129-134 | The closed-form EMI for any whole number of months (a negative power being the reciprocal), rounded to within half a minor unit, defined exactly where the formula yields a number |
| Amortization.EmiDefinedForPositiveRate | loan.model.js:129-134 | A positive rate over any non-zero number of months, negative ones included, always gives an EMI |
| Amortization.NegativeTermEmiBelowZero | loan.model.js:129-134 | Over a negative number of months, a positive principal at a positive rate has a closed-form EMI below zero |
| Amortization.EmiUndefinedForZeroRate | loan.model.js:129-134 | A zero rate has no EMI for any number of months: the formula divides 0 by 0 |
| Amortization.RemainingClosedForm | ledgerService.js:151-176 | The balance after k installments times the rate equals P·r·(1+r)^k − emi·((1+r)^k − 1) |
| Amortization.ExactEmiClearsLoan | ledgerService.js:151-176 | With the exact EMI the balance reaches 0 after exactly n installments |
| Amortization.RoundedEmiResidue | ledgerService.js:151-176 | With a rounded EMI, the final balance times the rate equals the rounding error times ((1+r)^n − 1) |
| Amortization.SumPrincipalTelescopes | ledgerService.js:151-176 | The principal parts of the first k installments add up to the fall in the balance |
| Amortization.ExactEmiRepaysPrincipal | ledgerService.js:151-176 | With the exact EMI the principal parts of all installments add up to the principal |
| Ledger.ProcessTransfer | ledgerService.js:6-48 | A transaction that is missing or not pending is refused; otherwise the transfer legs apply, or on a failure nothing changes |
| Ledger.TransferMovesBalances | ledgerService.js:24-40 | The source loses the amount from its current balance only; the destination gains it on both balances; nothing else changes |
| Ledger.TransferConserves | ledgerService.js:24-40 | The bank's total current balance is unchanged, and after the earlier hold so is the total available balance |
| Ledger.TransferMovesAvailable | ledgerService.js:24-40 | A transfer to an existing account raises the bank's total available balance by the amount |
| Ledger.HeldTransferEndsAtRest | ledgerService.js:24-40 | Hold plus transfer between distinct accounts keeps every account's two balances equal |
| Ledger.OnlyTransferIsGuarded | ledgerService.js:18-20 | A completed transaction is refused by the transfer, while the unguarded methods would apply it again |
| Ledger.ProcessDeposit | ledgerService.js:50-78 | The deposit credit applies in full, or on a failure nothing changes |
| Ledger.DepositCredits | ledgerService.js:63-70 | A deposit adds the amount to both balances of the destination only, raising the bank's total by the amount |
| Ledger.ProcessWithdrawal | ledgerService.js:80-116 | The withdrawal legs apply in full, or on a failure nothing changes |
| Ledger.HeldWithdrawalRestoresAvailable | ledgerService.js:93-108 | After the controller's hold, a withdrawal lowers the current balance by the amount but leaves the available balance where it started |
| Ledger.ProcessLoanDisbursement | ledgerService.js:118-186 | Credits the borrower, activates the loan and appends its EMI schedule; on a failure nothing changes |
| Ledger.WriteSchedule | ledgerService.js:150-178 | The loop appends exactly the loan's schedule: one pending row per month of the tenure, each split by the remaining principal carried from the previous one |
| Ledger.DisbursementSchedule | ledgerService.js:141-178 | Exactly `tenure_months` pending EMIs numbered 1..n, each for `emi_amount`, interest on the running balance, principal the rest, due i·30 days out |
| Ledger.NextPending | ledgerService.js:220-229 | Picks the lowest-numbered pending EMI of the loan, and none exactly when none is pending |
| Ledger.PayNextEmiEffect | ledgerService.js:220-229 | Settles exactly one pending EMI, the lowest-numbered, at its scheduled amount whatever was paid; none when none is pending |
| Ledger.ProcessLoanRepayment | ledgerService.js:188-238 | Moves the money like a transfer and settles the next EMI, or on a failure changes nothing |
| Banking.TransferAcceptedIff | bankingController.js:124-175 | A transfer passes the checks exactly when the amount is positive and within the daily limit, the source is the user's with enough available, and the destination exists and differs |
| Banking.TransferFunds | bankingController.js:119-255 | The tables and answer are those of the transfer flow: checks, hold, pending row, ledger, completed, and compensation on an inner error |
| Banking.TransferRefusalWritesNothing | bankingController.js:124-175 | A refused transfer leaves both tables as they were |
| Banking.TransferSucceededMovesMoney | bankingController.js:178-198 | A successful transfer moves the amount between the two accounts, keeps the bank's totals and logs one completed row |
| Banking.HeldTransferTotals | bankingController.js:178-198 | The hold followed by the ledger transfer between two distinct existing accounts keeps both bank-wide totals and keeps a table at rest |
| Banking.TransferLedgerFailureRestores | bankingController.js:233-245 | A ledger failure releases the hold, restoring every balance, and marks the row failed |
| Banking.TransferPostCommitFailureInflatesAvailable | bankingController.js:190-245 | A throw after the ledger committed still releases the hold, so the bank's available total rises by the amount |
| Banking.TransferInsertFailureLeaksHold | bankingController.js:176-188 | When the pending row cannot be inserted, the hold is never released |
| Banking.MakeDeposit | bankingController.js:257-340 | The tables and answer are those of the deposit flow: checks, pending row, ledger, completed |
| Banking.DepositOutcomes | bankingController.js:262-330 | Refused exactly for a non-positive amount or a foreign account; no hold is placed; a ledger failure only marks the row failed |
| Banking.Withdraw | bankingController.js:342-445 | The tables and answer are those of the withdrawal flow: checks, hold, pending row, ledger, compensation |
| Banking.WithdrawAcceptedIff | bankingController.js:347-374 | Accepted exactly for an amount in 1..20000 from the user's own account with enough available |
| Banking.WithdrawSucceededKeepsAvailable | bankingController.js:377-410 | A successful withdrawal lowers only the current balance and leaves the available one where it was; emptying an account at rest leaves current at 0 while the same withdrawal is still accepted |
| Banking.CreateAccount | bankingController.js:33-82 | The tables and answer are those of the account-creation flow |
| Banking.CreateAccountRespectsCap | bankingController.js:39-45 | A user with three accounts is refused and nothing is written; otherwise exactly one account is added for the user |
| Banking.SummaryCountsEachRowOnce | bankingController.js:610-616 | Each statement row counts once, as a deposit or a withdrawal |
| Banking.Summarize | bankingController.js:604-619 | Deposits and withdrawals sum the credited and debited rows; opening equals closing − deposits + withdrawals |
| Banking.GenerateAccountStatement | bankingController.js:564-652 | Invalid dates and start after end are refused before anything is read; a foreign account is refused; an audit failure is a 500; otherwise the statement, with credited rows summed as deposits, the other debited rows as withdrawals, and opening worked back from closing |
| LoanFlows.Application | loanController.js:46-59 | An accepted application is stored at 8.5% with an EMI within half a minor unit of the closed form |
| LoanFlows.ApplyForLoan | loanController.js:9-106 | The loan table and answer are those of the application flow |
| LoanFlows.ApplicationOutcomes | loanController.js:21-59 | Refused exactly for a non-positive amount, a tenure outside 1..60 or a foreign account; otherwise one pending loan is appended |
| LoanFlows.RepayLoan | loanController.js:183-328 | The four tables and answer are those of the repayment flow |
| LoanFlows.CloseWhenRepaid | loanController.js:265-268 | After the re-read, the loan is closed exactly when nothing remains of it and the other rows are unchanged; RepayClosesExactlyAtZero states what that does after a repayment |
| LoanFlows.AbandonRepayment | loanController.js:307-317 | An error after the row is logged releases the hold and marks the row failed with the error's message |
| LoanFlows.RepayRefusalWritesNothing | loanController.js:189-240 | A repayment goes ahead exactly when the loan is the user's and active, the amount is in 1..remaining, and the paying account is the user's with enough available; a refusal writes nothing |
| LoanFlows.RepayClosesExactlyAtZero | loanController.js:263-269 | The remaining amount stays at or above 0 and the loan closes exactly when it reaches 0 |
| LoanFlows.RepaySucceeded | loanController.js:243-269 | A success keeps the bank's totals, lowers the debt by the amount, settles the next EMI and leaves the log row pending |
| LoanFlows.RepayFromLoanAccountIsFree | loanController.js:243-260 | Repaying from the loan's own account leaves its balances unchanged while the debt falls |
| LoanFlows.RepayLoanUpdateFailureDesyncs | loanController.js:255-318 | If the loan update throws after the ledger committed, an EMI is marked paid while the loan's remaining amount is unchanged, and the row is marked failed |
| LoanFlows.RepayCloseFailureLeavesActive | loanController.js:262-318 | If re-reading or closing the loan throws after `updateRepayment`, the remaining amount is lowered and an EMI is paid, but the loan stays active (also at zero remaining) and the row is marked failed |
| LoanFlows.Schedule | loanController.js:393-411 | The loop builds exactly the reported schedule rows for months 1..n |
| LoanFlows.GetLoanSchedule | loanController.js:372-434 | A missing loan is refused; only the owner or an admin may read it; otherwise the schedule |
| LoanFlows.ScheduleFacts | loanController.js:393-411 | n entries in month order; principal plus interest equals the EMI; remaining clamped at 0; due dates 30 days apart |
| LoanFlows.PaidIsBorrowedLessDue | loanController.js:114-120 | Total paid equals total borrowed minus total due |
| LoanFlows.ActiveAtMostAll | loanController.js:114-120 | There are no more active loans than loans |
| LoanFlows.SummaryConsistent | loanController.js:114-120 | The getMyLoans summary satisfies both of the above |
| LoanFlows.EmiQuote | loanController.js:330-370 | Refused exactly for a missing or zero amount or tenure, so a negative tenure is quoted; total payment is EMI × tenure and total interest is that less the amount |
| LoanFlows.QuoteZeroRateTakesDefault | loanController.js:341 | A zero rate is quoted at the default 8.5%, so a quote for any non-zero tenure has an EMI |
| LoanFlows.NegativeTenureIsQuoted | loanController.js:334-350 | A negative tenure passes the check: a positive amount gets a quote whose EMI is zero or below, and a total payment of EMI × tenure |
| AuthFlows.FindUser | authController.js:102 | Finds the first row with the email, and none exactly when no row has it |
| AuthFlows.Login | authController.js:97-200 | The users table and answer are those of one login step, the answer turned into a 500 when the audit log throws after a lock or a sign-in |
| AuthFlows.AfterAudit | authController.js:129-208 | An audit failure keeps every write and turns exactly a lock or a sign-in into a 500; every other answer is unchanged |
| AuthFlows.LockStoredDespiteAuditFailure | authController.js:125-138 | The fifth wrong password stores the lock even when the audit log then throws and the answer is a 500 |
| AuthFlows.LoginRefusalsWriteNothing | authController.js:102-116 | An unknown email or a locked account changes nothing, whatever the password |
| AuthFlows.WrongPasswordCounts | authController.js:119-145 | A wrong password adds one to the count (NULL read as 0) and locks for 15 minutes exactly when the count reaches 5 |
| AuthFlows.TotpAndSuccess | authController.js:148-171 | A missing or wrong TOTP code is refused without counting; a full success resets count and lock |
| AuthFlows.RelockAfterExpiry | authController.js:111-145 | Once a lock has expired, the next wrong password locks again at once |
| AuthFlows.FifthFailureLocks | authController.js:119-145 | From a clean account, four wrong passwords only count and the fifth locks |
| AuthFlows.Register | authController.js:12-95 | A taken email is refused with nothing written; otherwise one customer is added, and one welcome savings account unless its generated number clashes; the customer's TOTP secret is set exactly when that account insert succeeded |
| AuthFlows.ClashedRegistrationSkipsTotp | authController.js:37-50 | A customer left behind by a clashing account number has no TOTP secret, so the password alone signs them in (login's check at authController.js:148 is skipped) |
| AuthFlows.WelcomeAccount | authController.js:36-42 | The welcome account is the user's only account, a savings account at rest holding 1000 |
| AuthForms.AdviceExactly | auth.js:302-329 | The score is 0..5, there are exactly 5 − score pieces of advice, and each appears exactly when its test fails |
| AuthForms.CheckPasswordStrength | auth.js:302-330 | The score counts the passed tests and the advice lists the failed ones in test order |
| AuthForms.LowercaseOnlyScoresTwo | auth.js:264-268 | Eight lower-case letters score 2, enough to pass the form's strength test |
| AuthForms.StrengthMeter | auth.js:332-346 | Width is 20% per point; label and colour sit one below the score, so 0 and 1 both read "Very Weak" |
| AuthForms.EmailAcceptedMatches | auth.js:292-295 | Every address the check accepts matches the pattern |
| AuthForms.EmailPatternAccepted | auth.js:292-295 | Every address matching the pattern is accepted |
| AuthForms.EmailMatchesPattern | auth.js:292-295 | The email check accepts exactly: a run, '@', a run, '.', a run, with no white space or '@' in any run |
| AuthForms.StripAppend | auth.js:299 | Removing white space works piece by piece |
| AuthForms.PhoneIgnoresSpaces | auth.js:297-300 | White space anywhere in a phone number does not change the verdict |
| AuthForms.AcceptedPhoneShape | auth.js:297-300 | A number is accepted exactly when, spaces removed, it is 1 to 16 digits whose first is 1-9, optionally after a leading '+' |
| AuthForms.FormErrorsExactly | auth.js:239-290 | Each field is reported exactly when its check fails; the phone only when one is entered |
| AuthForms.ValidateRegisterForm | auth.js:239-290 | Runs every check in order, and the form is valid exactly when no error was recorded |
| Api.FindCsrfEntry | api.js:9-11 | Picks the first cookie entry starting with "XSRF-TOKEN=", and none exactly when no entry does |
| Api.EntryValue | api.js:12 | The value taken holds no '=' |
| Api.CsrfToken | api.js:8-14 | The token is never empty and holds no '='; with no matching entry there is none |
| Api.EntryValueStopsAtEquals | api.js:11-13 | The value runs up to the next '=', and anything after it is dropped |
| Api.EmptyEntryValue | api.js:8-13 | For every cookie whose first prefixed entry is the bare prefix, or the prefix followed by '=' and more text, no token is found |
| Api.Client.constructor | api.js:2-6 | The client keeps the stored token and the token parsed from the cookie |
| Api.Client.GetHeaders | api.js:16-34 | Accept always; Content-Type exactly when the content type (JSON by default) is truthy; Authorization and X-CSRF-Token exactly when set; nothing else |
| Api.ToastIcon | api.js:320-328 | A known type's icon, the info icon otherwise |
| Api.ToastTitle | api.js:330-338 | A known type's title, "Info" otherwise |
| Api.ToastFallsBackToInfo | api.js:320-338 | An unknown type looks exactly like info, and two known types share a title, or an icon, only when they are the same type |
| AdminGuard.Guard | adminGuard.js:3-19 | 401 exactly without a user; 403 for a customer; passes exactly admins and managers |

## Left out

- HTTP and Express plumbing: routes, response bodies and status codes become result datatypes.
- Database connection mechanics: each begin/commit/rollback block is one all-or-nothing step
  that may fail. ledgerService.js:10 keeps the `{id, changes}` result of `beginTransaction`
  (database.js:49-56, 79-81) as if it were a connection. The model gives the intended atomic
  unit instead.
- Concurrency: the race between the balance check (bankingController.js:154) and the hold
  (:178) cannot be expressed sequentially. `Accounts.HoldHasNoGuard` shows that the hold
  itself checks nothing.
- Floating point: balances are exact integers in minor units and EMI arithmetic is exact
  `real`. `parseFloat`, double rounding, and string/number coercion of request fields are
  not modelled.
- Banking.Summarize: the account id comes from the JSON request body
  (bankingController.js:567), and the `===` comparisons at bankingController.js:612-615
  match a row only when the client sends that id as a JSON number; sent as a string, no row
  matches and both totals stay 0. The model compares the ids as numbers.
- Wall clock and time zone: time is a millisecond parameter, and the daily window is the UTC
  day. The local-midnight boundaries of `setHours` and ISO string comparison are not
  modelled.
- Randomness: the four-digit part of generated ids is a parameter in 1000..9999.
- Foreign code: bcrypt, JWT, TOTP, QR codes, email, notifications and the audit log. A
  password or TOTP check is a boolean parameter. A notification or audit failure is a fault
  parameter of the flow that makes the call (a single flag where several such calls follow one
  another).
- AuthFlows.Login: every write of the lockout machine goes through `User.update`
  (authController.js:123, :127, :167), whose parameter list (user.model.js:43-56) holds one
  value more than its SQL has placeholders and binds the id where `updated_at` belongs. As
  written, the driver refuses the extra value and login answers 500, and even bound, the
  `WHERE id = ?` would receive the timestamp; either way no count, lock or reset is stored.
  The model takes `User.update` as the field assignment it is meant to be, so it shows the
  intended writes.
- Transactions.FindByAccountId: a `limit` or `offset` that is not a number (`parseInt` giving
  `NaN`) is not modelled; negative ones are.
- Amortization.CalculateEmi: `Loan.calculateEMI` is `async` and is not awaited at
  loanController.js:47 and :342. The model treats it as a pure function returning the number.
- LoanFlows.RepayLoan: the notification and audit steps after the close are folded into one
  late fault; a throw while re-reading the loan and one in `updateStatus` are one close fault.
- Browser code: the DOM, event handling, `localStorage`, `fetch`, the 401 refresh retry and
  toast rendering. The `termsAgree` checkbox is a field of the form record.
- Api.CsrfToken: `decodeURIComponent` is not applied; the token is the raw cookie text.
- Api.ToastIcon: a type naming an inherited object property (for instance "constructor")
  would yield that property instead of the info entry. The lookup is modelled over the four
  own keys only.
- AuthForms: string length is counted in characters, where JavaScript counts UTF-16 code
  units.
- AdminGuard.Guard: roles are the three of the constants; a role text outside them is not
  modelled (the source would answer 403).
- Configuration loading: only the default limits of index.js are used, as constants.
- Account queries that join the users table (findByUserId), and account types outside the
  four known ones.
