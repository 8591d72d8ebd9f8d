/** Registration and the login lockout state machine of authController.js. Password hashing,
    TOTP verification and token signing are foreign calls: their verdicts are parameters. */
module AuthFlows {
  import opened Common
  import opened Constants
  import opened Schema
  import opened Accounts
  import opened Banking

  /** The row holding the email, the first in table order (the column is UNIQUE). */
  function FindUser(users: seq<User>, email: string): (r: Option<nat>)
    ensures r.Some? ==> r.value < |users| && users[r.value].email == email
    ensures r.Some? ==> forall k :: 0 <= k < r.value ==> users[k].email != email
    ensures r.None? ==> forall k :: 0 <= k < |users| ==> users[k].email != email
  {
    if users == [] then None
    else if users[0].email == email then Some(0)
    else
      match FindUser(users[1..], email)
      case None => None
      case Some(k) => Some(k + 1)
  }

  // -------------------------------------------------------------------- login

  datatype LoginOutcome =
    | InvalidCredentials
    | AccountLocked
    | LockedOut
    | TotpRequired
    | InvalidTotp
    | LoggedIn
    | LoginFailed

  /** `(login_attempts || 0)`: NULL and 0 both count as no failures. */
  function Attempts(u: User): int {
    if u.loginAttempts.Some? && u.loginAttempts.value != 0 then u.loginAttempts.value else 0
  }

  predicate IsLocked(u: User, nowMs: int) {
    u.lockedUntil.Some? && u.lockedUntil.value > nowMs
  }

  /** The user row after a wrong password: one more failure, and a fifteen-minute lock once
      the count reaches MAX_LOGIN_ATTEMPTS. */
  function AfterWrongPassword(u: User, nowMs: int): User {
    var attempts := Attempts(u) + 1;
    if attempts >= MAX_LOGIN_ATTEMPTS then u.(loginAttempts := Some(attempts), lockedUntil := Some(nowMs + LOCKOUT_TIME_MS))
    else u.(loginAttempts := Some(attempts))
  }

  /** One login attempt: the outcome and the users table after it. */
  function LoginStep(users: seq<User>, email: string, passwordMatches: bool, totpCode: Option<string>,
                     totpValid: bool, nowMs: int): (LoginOutcome, seq<User>)
  {
    match FindUser(users, email)
    case None => (InvalidCredentials, users)
    case Some(k) =>
      var u := users[k];
      if IsLocked(u, nowMs) then (AccountLocked, users)
      else if !passwordMatches then
        var v := AfterWrongPassword(u, nowMs);
        (if Attempts(u) + 1 >= MAX_LOGIN_ATTEMPTS then LockedOut else InvalidCredentials, users[k := v])
      else if u.totpEnabled && (totpCode.None? || totpCode.value == "") then (TotpRequired, users)
      else if u.totpEnabled && !totpValid then (InvalidTotp, users)
      else (LoggedIn, users[k := u.(loginAttempts := Some(0), lockedUntil := None, lastLogin := Some(nowMs))])
  }

  /** The audit log is written only after a lock and after a successful sign-in, once the users
      table is already updated. When it throws, the answer becomes a 500 and the writes stay. */
  function AfterAudit(step: (LoginOutcome, seq<User>), auditFails: bool): (r: (LoginOutcome, seq<User>))
    ensures r.1 == step.1
    ensures r.0 == LoginFailed <==> (auditFails && (step.0 == LockedOut || step.0 == LoggedIn)) || step.0 == LoginFailed
    ensures r.0 != LoginFailed ==> r.0 == step.0
  {
    if auditFails && (step.0 == LockedOut || step.0 == LoggedIn) then (LoginFailed, step.1) else step
  }

  /** `authController.login`; `auditFails` says whether the audit log throws. */
  method Login(db: Database, email: string, passwordMatches: bool, totpCode: Option<string>, totpValid: bool, nowMs: int,
               auditFails: bool)
    returns (r: LoginOutcome)
    modifies db`users
    ensures (r, db.users) == AfterAudit(LoginStep(old(db.users), email, passwordMatches, totpCode, totpValid, nowMs), auditFails)
  {
    var found := FindUser(db.users, email);
    if found.None? {
      return InvalidCredentials;
    }
    var k := found.value;
    var u := db.users[k];
    if u.lockedUntil.Some? && u.lockedUntil.value > nowMs {
      return AccountLocked;
    }
    if !passwordMatches {
      var attempts := (if u.loginAttempts.Some? && u.loginAttempts.value != 0 then u.loginAttempts.value else 0) + 1;
      db.users := db.users[k := u.(loginAttempts := Some(attempts))];
      if attempts >= MAX_LOGIN_ATTEMPTS {
        db.users := db.users[k := db.users[k].(lockedUntil := Some(nowMs + LOCKOUT_TIME_MS))];
        assert db.users == old(db.users)[k := AfterWrongPassword(u, nowMs)];
        return if auditFails then LoginFailed else LockedOut;
      }
      return InvalidCredentials;
    }
    if u.totpEnabled {
      if totpCode.None? || totpCode.value == "" {
        return TotpRequired;
      }
      if !totpValid {
        return InvalidTotp;
      }
    }
    db.users := db.users[k := u.(loginAttempts := Some(0), lockedUntil := None, lastLogin := Some(nowMs))];
    r := if auditFails then LoginFailed else LoggedIn;
  }

  /** An unknown email and a locked account both change nothing, whatever the password; a
      locked account is refused before the password is looked at. */
  lemma LoginRefusalsWriteNothing(users: seq<User>, email: string, passwordMatches: bool, totpCode: Option<string>,
                                  totpValid: bool, nowMs: int)
    ensures FindUser(users, email).None? ==>
      LoginStep(users, email, passwordMatches, totpCode, totpValid, nowMs) == (InvalidCredentials, users)
    ensures FindUser(users, email).Some? && IsLocked(users[FindUser(users, email).value], nowMs) ==>
      LoginStep(users, email, passwordMatches, totpCode, totpValid, nowMs) == (AccountLocked, users)
  {
  }

  /** A wrong password on an unlocked account adds one to the count (NULL read as 0) and locks
      the account for fifteen minutes exactly when the count reaches MAX_LOGIN_ATTEMPTS; no other
      user changes. */
  lemma WrongPasswordCounts(users: seq<User>, email: string, totpCode: Option<string>, totpValid: bool, nowMs: int)
    requires FindUser(users, email).Some? && !IsLocked(users[FindUser(users, email).value], nowMs)
    ensures var k := FindUser(users, email).value;
      var (r, after) := LoginStep(users, email, false, totpCode, totpValid, nowMs);
      |after| == |users|
      && after[k].loginAttempts == Some(Attempts(users[k]) + 1)
      && (r == LockedOut <==> Attempts(users[k]) + 1 >= MAX_LOGIN_ATTEMPTS)
      && (r != LockedOut ==> r == InvalidCredentials && after[k].lockedUntil == users[k].lockedUntil)
      && (r == LockedOut ==> after[k].lockedUntil == Some(nowMs + LOCKOUT_TIME_MS) && IsLocked(after[k], nowMs))
      && forall j :: 0 <= j < |users| && j != k ==> after[j] == users[j]
  {
  }

  /** With TOTP enabled, a right password and a missing or wrong code is refused and the failure
      count does not move; a full success resets the count and the lock. */
  lemma TotpAndSuccess(users: seq<User>, email: string, totpCode: Option<string>, totpValid: bool, nowMs: int)
    requires FindUser(users, email).Some? && !IsLocked(users[FindUser(users, email).value], nowMs)
    ensures var k := FindUser(users, email).value;
      var (r, after) := LoginStep(users, email, true, totpCode, totpValid, nowMs);
      (users[k].totpEnabled && (totpCode.None? || totpCode == Some("") || !totpValid) <==> r == TotpRequired || r == InvalidTotp)
      && (r != LoggedIn ==> after == users)
      && (r == LoggedIn ==> after[k].loginAttempts == Some(0) && after[k].lockedUntil.None? && after[k].lastLogin == Some(nowMs))
  {
  }

  /** Nothing but a successful login resets the count, so once a lock has expired the next wrong
      password locks the account again at once. */
  lemma RelockAfterExpiry(users: seq<User>, email: string, totpCode: Option<string>, totpValid: bool, nowMs: int)
    requires FindUser(users, email).Some?
    requires var u := users[FindUser(users, email).value];
      Attempts(u) >= MAX_LOGIN_ATTEMPTS && !IsLocked(u, nowMs)
    ensures LoginStep(users, email, false, totpCode, totpValid, nowMs).0 == LockedOut
  {
  }

  /** `n` wrong passwords in a row at the same instant. */
  function WrongPasswords(users: seq<User>, email: string, n: nat, nowMs: int): (after: seq<User>)
    ensures |after| == |users|
    decreases n
  {
    if n == 0 then users else WrongPasswords(LoginStep(users, email, false, None, false, nowMs).1, email, n - 1, nowMs)
  }

  /** One wrong password keeps the user's row where `FindUser` finds it, and changes only that row:
      not at all while it is locked, and by one failed attempt otherwise. */
  lemma WrongPasswordRow(users: seq<User>, email: string, nowMs: int)
    requires FindUser(users, email).Some?
    ensures var k := FindUser(users, email).value;
      var after := LoginStep(users, email, false, None, false, nowMs).1;
      && FindUser(after, email) == Some(k) && after[k].email == email
      && (IsLocked(users[k], nowMs) ==> after == users)
      && (!IsLocked(users[k], nowMs) ==> after == users[k := AfterWrongPassword(users[k], nowMs)])
  {
    var k := FindUser(users, email).value;
    if !IsLocked(users[k], nowMs) {
      var after := users[k := AfterWrongPassword(users[k], nowMs)];
      assert forall j :: 0 <= j < |after| && j != k ==> after[j] == users[j];
      assert after[k].email == email;
    }
  }

  /** From an unlocked row holding `a` failures, `n` more wrong passwords (with `a + n` at most
      MAX_LOGIN_ATTEMPTS) leave `a + n` failures, and lock the row exactly when they reach it. */
  lemma {:induction false} FailuresAccumulate(users: seq<User>, email: string, n: nat, nowMs: int)
    requires FindUser(users, email).Some?
    requires var u := users[FindUser(users, email).value];
      u.lockedUntil.None? && Attempts(u) + n <= MAX_LOGIN_ATTEMPTS
    ensures var k := FindUser(users, email).value;
      var u := WrongPasswords(users, email, n, nowMs)[k];
      Attempts(u) == Attempts(users[k]) + n
      && (u.lockedUntil.Some? <==> n > 0 && Attempts(users[k]) + n == MAX_LOGIN_ATTEMPTS)
    decreases n
  {
    if n > 0 {
      var k := FindUser(users, email).value;
      var next := LoginStep(users, email, false, None, false, nowMs).1;
      WrongPasswordRow(users, email, nowMs);
      assert next[k] == AfterWrongPassword(users[k], nowMs);
      if Attempts(users[k]) + 1 < MAX_LOGIN_ATTEMPTS {
        FailuresAccumulate(next, email, n - 1, nowMs);
      } else {
        assert n == 1 && WrongPasswords(next, email, 0, nowMs) == next;
      }
    }
  }

  /** From a clean, unlocked account, the first MAX_LOGIN_ATTEMPTS - 1 wrong passwords only
      count, and the MAX_LOGIN_ATTEMPTS-th locks the account. */
  lemma FifthFailureLocks(users: seq<User>, email: string, n: nat, nowMs: int)
    requires FindUser(users, email).Some?
    requires var u := users[FindUser(users, email).value]; Attempts(u) == 0 && u.lockedUntil.None?
    requires n <= MAX_LOGIN_ATTEMPTS
    ensures var u := WrongPasswords(users, email, n, nowMs)[FindUser(users, email).value];
      Attempts(u) == n && (u.lockedUntil.Some? <==> n == MAX_LOGIN_ATTEMPTS)
  {
    FailuresAccumulate(users, email, n, nowMs);
  }

  /** When the audit log throws after the lock, the caller sees a 500 rather than 423, yet the
      lock is stored all the same. */
  lemma LockStoredDespiteAuditFailure(users: seq<User>, email: string, nowMs: int)
    requires FindUser(users, email).Some?
    requires var u := users[FindUser(users, email).value];
      !IsLocked(u, nowMs) && Attempts(u) == MAX_LOGIN_ATTEMPTS - 1
    ensures var k := FindUser(users, email).value;
      var after := AfterAudit(LoginStep(users, email, false, None, false, nowMs), true);
      after.0 == LoginFailed && IsLocked(after.1[k], nowMs) && after.1 == users[k := AfterWrongPassword(users[k], nowMs)]
  {
  }

  // ----------------------------------------------------------------- register

  datatype RegisterOutcome = Registered(userId: nat, accountNumber: string) | EmailTaken | RegisterFailed

  /** register: a new customer, the welcome savings account, and the TOTP secret that turns the
      second factor on. The account insert can fail on a number clash after the user exists; the
      throw then skips the TOTP secret, so that user keeps signing in with the password alone.
      The steps after the secret (QR code, token, audit log, email) may throw with both rows in
      place. */
  method Register(db: Database, email: string, nowMs: nat, random: int, lateFails: bool) returns (r: RegisterOutcome)
    requires 1000 <= random <= 9999
    modifies db`users, db`accounts
    ensures FindUser(old(db.users), email).Some? <==> r == EmailTaken
    ensures r == EmailTaken ==> db.users == old(db.users) && db.accounts == old(db.accounts)
    ensures var clash := Accounts.NumberTaken(old(db.accounts), GenerateAccountNumber(nowMs, random));
      r != EmailTaken ==> db.users == old(db.users) + [User(email, Customer, !clash, Some(0), None, None)]
    ensures var number := GenerateAccountNumber(nowMs, random);
      r != EmailTaken ==>
        if Accounts.NumberTaken(old(db.accounts), number) then r == RegisterFailed && db.accounts == old(db.accounts)
        else db.accounts == old(db.accounts) + [NewAccountRow(NewAccount(|db.users|, Some(Savings), number, None, Some(WELCOME_BALANCE)))]
             && r == (if lateFails then RegisterFailed else Registered(|db.users|, number))
  {
    if FindUser(db.users, email).Some? {
      return EmailTaken;
    }
    db.users := db.users + [User(email, Customer, false, Some(0), None, None)];
    var userId := |db.users|;
    var number := GenerateAccountNumber(nowMs, random);
    var id := Accounts.Create(db, NewAccount(userId, Some(Savings), number, None, Some(WELCOME_BALANCE)));
    if id.None? {
      return RegisterFailed;
    }
    db.users := db.users[userId - 1 := db.users[userId - 1].(totpEnabled := true)];
    r := if lateFails then RegisterFailed else Registered(userId, number);
  }

  /** The row a registration stopped by an account-number clash leaves behind has no TOTP
      secret, so the right password alone signs that user in, whatever code is sent. */
  lemma ClashedRegistrationSkipsTotp(users: seq<User>, email: string, totpCode: Option<string>, nowMs: int)
    requires FindUser(users, email).None?
    ensures var after := users + [User(email, Customer, false, Some(0), None, None)];
      LoginStep(after, email, true, totpCode, false, nowMs).0 == LoggedIn
  {
    var after := users + [User(email, Customer, false, Some(0), None, None)];
    assert FindUser(after, email) == Some(|users|) by {
      FindUserAppend(users, User(email, Customer, false, Some(0), None, None));
    }
  }

  lemma {:induction false} FindUserAppend(users: seq<User>, u: User)
    requires FindUser(users, u.email).None?
    ensures FindUser(users + [u], u.email) == Some(|users|)
  {
    if users != [] {
      FindUserAppend(users[1..], u);
      assert (users + [u])[1..] == users[1..] + [u];
    }
  }

  /** The welcome account is a savings account at rest holding WELCOME_BALANCE, the new user's
      only account when no row carried that user id before, so the user's total is exactly it. */
  lemma WelcomeAccount(accounts: seq<Account>, userId: nat, number: string)
    requires forall k :: 0 <= k < |accounts| ==> accounts[k].userId != userId
    ensures var after := accounts + [NewAccountRow(NewAccount(userId, Some(Savings), number, None, Some(WELCOME_BALANCE)))];
      AccountCount(after, userId) == 1
      && TotalBalance(after, userId) == (WELCOME_BALANCE, WELCOME_BALANCE)
      && after[|accounts|].accountType == Savings && after[|accounts|].currency == "INR"
  {
    var row := NewAccountRow(NewAccount(userId, Some(Savings), number, None, Some(WELCOME_BALANCE)));
    AccountCountAppend(accounts, row, userId);
    AccountCountNone(accounts, userId);
    TotalBalanceAppend(accounts, row, userId);
    TotalBalanceNone(accounts, userId);
  }

  lemma {:induction false} AccountCountNone(accounts: seq<Account>, userId: nat)
    requires forall k :: 0 <= k < |accounts| ==> accounts[k].userId != userId
    ensures AccountCount(accounts, userId) == 0
  {
    if accounts != [] {
      AccountCountNone(accounts[1..], userId);
    }
  }

  lemma {:induction false} TotalBalanceAppend(accounts: seq<Account>, a: Account, userId: nat)
    ensures TotalBalance(accounts + [a], userId)
         == (TotalBalance(accounts, userId).0 + (if CountsTowardTotal(a, userId) then a.current else 0),
             TotalBalance(accounts, userId).1 + (if CountsTowardTotal(a, userId) then a.available else 0))
  {
    if accounts == [] {
      assert [a][1..] == [];
    } else {
      TotalBalanceAppend(accounts[1..], a, userId);
      assert (accounts + [a])[1..] == accounts[1..] + [a];
    }
  }
}
