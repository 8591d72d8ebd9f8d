/** Enumerations and limits of the bank (constants.js and the default limits of index.js). */
module Constants {

  datatype Role = Customer | Admin | Manager

  datatype AccountType = Savings | Current | FixedDeposit | LoanAccount

  datatype TxType =
    | Deposit | Withdrawal | Transfer | LoanDisbursement | LoanRepayment
    | InterestCredit | Penalty | Fee

  datatype TxStatus = Pending | Completed | Failed | Cancelled

  datatype LoanStatus = LoanPending | Approved | Rejected | Disbursed | Active | Closed | Defaulted

  /** Default banking limits, in minor currency units where they are amounts. */
  const DAILY_TRANSFER_LIMIT: int := 50000 * 100
  const WITHDRAWAL_LIMIT: int := 20000 * 100
  const MAX_ACCOUNTS_PER_USER: nat := 3

  /** Default annual loan interest rate, in percent. */
  const LOAN_INTEREST_RATE: real := 8.5

  /** Login lockout policy. */
  const MAX_LOGIN_ATTEMPTS: int := 5
  const LOCKOUT_TIME_MS: int := 15 * 60 * 1000

  /** Milliseconds in one day; all timestamps are milliseconds since the epoch. */
  const DAY_MS: int := 24 * 60 * 60 * 1000

  /** The welcome balance seeded into the savings account opened at registration. */
  const WELCOME_BALANCE: int := 1000 * 100
}
