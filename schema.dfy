/** The rows of the bank's tables (init.js) and the database object that holds them.
    A table is a sequence of rows; the row id is the position plus one, as SQLite's
    AUTOINCREMENT hands them out, and no row is ever deleted. */
module Schema {
  import opened Common
  import opened Constants

  /** A row of `accounts`. Balances are in minor currency units. */
  datatype Account = Account(
    userId: nat,
    accountType: AccountType,
    accountNumber: string,
    currency: string,
    current: int,
    available: int)

  /** A row of `transactions`. `from` and `to` are nullable account ids. */
  datatype Txn = Txn(
    transactionId: string,
    from: Option<nat>,
    to: Option<nat>,
    amount: int,
    txType: TxType,
    description: string,
    status: TxStatus,
    errorMessage: Option<string>,
    createdAt: int)

  /** A row of `loans`. `amount`, `emiAmount` and `remainingAmount` are in minor units;
      `interestRate` is the annual rate in percent. */
  datatype Loan = Loan(
    loanNumber: string,
    userId: nat,
    accountId: nat,
    loanType: string,
    amount: int,
    interestRate: real,
    tenureMonths: nat,
    remainingTenure: nat,
    emiAmount: int,
    remainingAmount: int,
    purpose: string,
    status: LoanStatus,
    remarks: Option<string>,
    disbursedAt: Option<int>,
    lastPaymentDate: Option<int>)

  datatype EmiStatus = EmiPending | EmiPaid

  /** A row of `loan_emis`: one scheduled installment of a loan. */
  datatype Emi = Emi(
    loanId: nat,
    emiNumber: nat,
    dueDate: int,
    amount: int,
    principal: real,
    interest: real,
    status: EmiStatus,
    paidAmount: int,
    paidDate: Option<int>)

  /** A row of `users`, reduced to the fields the login state machine reads and writes. */
  datatype User = User(
    email: string,
    role: Role,
    totpEnabled: bool,
    loginAttempts: Option<int>,
    lockedUntil: Option<int>,
    lastLogin: Option<int>)

  /** The SQLite database all model operations work on. */
  class Database {
    var accounts: seq<Account>
    var txns: seq<Txn>
    var loans: seq<Loan>
    var emis: seq<Emi>
    var users: seq<User>

    constructor ()
      ensures accounts == [] && txns == [] && loans == [] && emis == [] && users == []
    {
      accounts, txns, loans, emis, users := [], [], [], [], [];
    }
  }
}
