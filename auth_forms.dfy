/** The client-side checks of the registration form in auth.js: the password-strength score and
    its advice, the strength meter, the email and phone shape checks, and the form verdict. */
module AuthForms {
  import opened Common

  /** The characters JavaScript's `\s` class and `String.prototype.trim` treat as white space. */
  predicate IsJsSpace(c: char) {
    ('\t' <= c <= '\r') || c == ' ' || c == '\U{00A0}' || c == '\U{1680}'
    || ('\U{2000}' <= c <= '\U{200A}') || c == '\U{2028}' || c == '\U{2029}'
    || c == '\U{202F}' || c == '\U{205F}' || c == '\U{3000}' || c == '\U{FEFF}'
  }

  predicate IsLower(c: char) { 'a' <= c <= 'z' }
  predicate IsUpper(c: char) { 'A' <= c <= 'Z' }
  predicate IsAlnum(c: char) { IsLower(c) || IsUpper(c) || IsDigit(c) }

  // ------------------------------------------------------ password strength

  const MIN_PASSWORD_LENGTH: nat := 8

  predicate HasLower(s: string) { exists i :: 0 <= i < |s| && IsLower(s[i]) }
  predicate HasUpper(s: string) { exists i :: 0 <= i < |s| && IsUpper(s[i]) }
  predicate HasDigit(s: string) { exists i :: 0 <= i < |s| && IsDigit(s[i]) }
  predicate HasSpecial(s: string) { exists i :: 0 <= i < |s| && !IsAlnum(s[i]) }

  /** The five tests, in the order they are made. */
  function Criteria(password: string): (tests: seq<bool>)
    ensures |tests| == 5
  {
    [|password| >= MIN_PASSWORD_LENGTH, HasLower(password), HasUpper(password),
     HasDigit(password), HasSpecial(password)]
  }

  /** The advice given for each failed test, in the same order. */
  const Advice: seq<string> := [
    "At least 8 characters", "At least one lowercase letter", "At least one uppercase letter",
    "At least one number", "At least one special character"]

  /** One point for a passed test. */
  function Point(passed: bool): nat { if passed then 1 else 0 }

  /** The advice for test `k` when it fails. */
  function AdviceIf(passed: bool, k: nat): seq<string>
    requires k < 5
  {
    if passed then [] else [Advice[k]]
  }

  /** The score for the outcomes of the five tests. */
  function ScoreOf(tests: seq<bool>): nat
    requires |tests| == 5
  {
    Point(tests[0]) + Point(tests[1]) + Point(tests[2]) + Point(tests[3]) + Point(tests[4])
  }

  /** The advice for the outcomes of the five tests, in test order. */
  function FeedbackOf(tests: seq<bool>): seq<string>
    requires |tests| == 5
  {
    AdviceIf(tests[0], 0) + AdviceIf(tests[1], 1) + AdviceIf(tests[2], 2) + AdviceIf(tests[3], 3)
    + AdviceIf(tests[4], 4)
  }

  function Score(password: string): nat { ScoreOf(Criteria(password)) }
  function Feedback(password: string): seq<string> { FeedbackOf(Criteria(password)) }

  predicate Distinct(xs: seq<string>) {
    forall i, j :: 0 <= i < j < |xs| ==> xs[i] != xs[j]
  }

  lemma AdviceDistinct()
    ensures Distinct(Advice)
  {
    assert Advice[0][13] == 'a' && Advice[1][13] == 'l' && Advice[2][13] == 'u';
    assert Advice[3][13] == 'n' && Advice[4][13] == 's';
  }

  /** The score is between 0 and 5, the advice has exactly the missing points, and each piece
      of advice appears exactly when its test fails. */
  lemma AdviceExactly(tests: seq<bool>)
    requires |tests| == 5
    ensures ScoreOf(tests) <= 5
    ensures |FeedbackOf(tests)| == 5 - ScoreOf(tests)
    ensures forall k :: 0 <= k < 5 ==> (Advice[k] in FeedbackOf(tests) <==> !tests[k])
  {
    AdviceDistinct();
  }

  /** `checkPasswordStrength`: one point per passed test, one piece of advice per failed one, both
      built up test by test, so the score is between 0 and 5, the advice has exactly the
      missing points, and each piece of advice appears exactly when its test fails. */
  method CheckPasswordStrength(password: string) returns (score: nat, feedback: seq<string>)
    ensures score == Score(password) && feedback == Feedback(password)
    ensures score <= 5 && |feedback| == 5 - score
    ensures forall k :: 0 <= k < 5 ==> (Advice[k] in feedback <==> !Criteria(password)[k])
  {
    ghost var tests := Criteria(password);
    score := 0;
    feedback := [];
    if |password| >= MIN_PASSWORD_LENGTH { score := score + 1; } else { feedback := feedback + [Advice[0]]; }
    assert score == Point(tests[0]) && feedback == AdviceIf(tests[0], 0);
    if HasLower(password) { score := score + 1; } else { feedback := feedback + [Advice[1]]; }
    assert feedback == AdviceIf(tests[0], 0) + AdviceIf(tests[1], 1);
    if HasUpper(password) { score := score + 1; } else { feedback := feedback + [Advice[2]]; }
    assert feedback == AdviceIf(tests[0], 0) + AdviceIf(tests[1], 1) + AdviceIf(tests[2], 2);
    if HasDigit(password) { score := score + 1; } else { feedback := feedback + [Advice[3]]; }
    assert feedback == AdviceIf(tests[0], 0) + AdviceIf(tests[1], 1) + AdviceIf(tests[2], 2)
      + AdviceIf(tests[3], 3);
    if HasSpecial(password) { score := score + 1; } else { feedback := feedback + [Advice[4]]; }
    AdviceExactly(tests);
  }

  /** A password of eight or more lower-case letters scores exactly 2, which is enough for the
      form's strength test. */
  lemma LowercaseOnlyScoresTwo(password: string)
    requires |password| >= MIN_PASSWORD_LENGTH
    requires forall k :: 0 <= k < |password| ==> IsLower(password[k])
    ensures Score(password) == 2
  {
    assert IsLower(password[0]);
    var tests := Criteria(password);
    assert tests == [true, true, false, false, false];
  }

  // ---------------------------------------------------------- strength meter

  const Percentages: seq<nat> := [0, 20, 40, 60, 80, 100]
  const Colors: seq<string> := ["#ef4444", "#f59e0b", "#f59e0b", "#3b82f6", "#10b981"]
  const Labels: seq<string> := ["Very Weak", "Weak", "Fair", "Good", "Strong"]

  datatype Meter = Meter(widthPercent: nat, color: string, caption: string)

  /** `xs[i] || xs[0]`: an index outside the array reads `undefined`, which is falsy, as is "". */
  function OrFirst(xs: seq<string>, i: int): string
    requires |xs| > 0
  {
    if 0 <= i < |xs| && xs[i] != "" then xs[i] else xs[0]
  }

  /** `updateStrengthMeter`: the bar's width grows by 20% per point; colour and label are taken
      one position below the score, so a score of 0 falls back to the first entry, the same
      as a score of 1. */
  function StrengthMeter(score: nat): (m: Meter)
    requires score <= 5
    ensures m.widthPercent == 20 * score
    ensures m.caption == "Very Weak" <==> score <= 1
    ensures 1 <= score ==> m.caption == Labels[score - 1] && m.color == Colors[score - 1]
    ensures score == 0 ==> m.caption == Labels[0] && m.color == Colors[0]
  {
    Meter(Percentages[score], OrFirst(Colors, score - 1), OrFirst(Labels, score - 1))
  }

  // -------------------------------------------------------------------- email

  /** No white space and no '@' (`[^\s@]*`). */
  predicate Clean(s: string) {
    forall k :: 0 <= k < |s| ==> !IsJsSpace(s[k]) && s[k] != '@'
  }

  /** A non-empty run of such characters (`[^\s@]+`). */
  predicate Run(s: string) { |s| > 0 && Clean(s) }

  lemma CleanSlice(s: string, lo: nat, hi: nat)
    requires Clean(s) && lo <= hi <= |s|
    ensures Clean(s[lo..hi])
  {
    forall k | 0 <= k < hi - lo
      ensures !IsJsSpace(s[lo..hi][k]) && s[lo..hi][k] != '@'
    {
      assert s[lo..hi][k] == s[lo + k];
    }
  }

  /** The regular expression `^[^\s@]+@[^\s@]+\.[^\s@]+$` of `validateEmail`: the address splits
      into three runs around an '@' and a later '.'. */
  predicate EmailPattern(email: string) {
    exists i, j :: 0 <= i < j < |email| && email[i] == '@' && email[j] == '.'
      && Run(email[..i]) && Run(email[i + 1..j]) && Run(email[j + 1..])
  }

  /** `validateEmail`, decided by looking at the first '@': a run before it, and after it no
      white space or '@' and a '.' that is neither the first nor the last character. */
  function ValidateEmail(email: string): bool {
    match IndexOf(email, "@")
    case None => false
    case Some(at) =>
      var domain := email[at + 1..];
      Run(email[..at]) && Clean(domain) && exists j :: 0 < j < |domain| - 1 && domain[j] == '.'
  }

  /** Every address the first-'@' decision accepts matches the pattern. */
  lemma EmailAcceptedMatches(email: string)
    requires ValidateEmail(email)
    ensures EmailPattern(email)
  {
    var at := IndexOf(email, "@").value;
    var domain := email[at + 1..];
    var j :| 0 < j < |domain| - 1 && domain[j] == '.';
    assert email[at..at + 1] == "@";
    assert email[at] == '@';
    CleanSlice(domain, 0, j);
    CleanSlice(domain, j + 1, |domain|);
    assert email[at + 1..at + 1 + j] == domain[..j];
    assert email[at + 1 + j + 1..] == domain[j + 1..];
    assert email[at + 1 + j] == '.';
  }

  /** An '@' with no '@' before it is the one `indexOf` finds. */
  lemma FirstAt(email: string, i: nat)
    requires i < |email| && email[i] == '@' && Clean(email[..i])
    ensures IndexOf(email, "@") == Some(i)
  {
    assert OccursAt(email, "@", i) by { assert email[i..i + 1] == [email[i]]; }
    forall r | 0 <= r < i
      ensures !OccursAt(email, "@", r)
    {
      assert email[..i][r] == email[r];
      assert email[r..r + 1][0] == email[r];
    }
  }

  /** The text after the '@' is clean, and its '.' is neither its first nor its last character,
      when the runs on either side of that '.' are. */
  lemma CleanDomain(email: string, i: nat, j: nat)
    requires i + 1 < j < |email| - 1 && email[j] == '.'
    requires Clean(email[i + 1..j]) && Clean(email[j + 1..])
    ensures Clean(email[i + 1..]) && email[i + 1..][j - i - 1] == '.'
  {
    var domain := email[i + 1..];
    forall k | 0 <= k < |domain|
      ensures !IsJsSpace(domain[k]) && domain[k] != '@'
    {
      if k < j - i - 1 {
        assert domain[k] == email[i + 1..j][k];
      } else if k > j - i - 1 {
        assert domain[k] == email[j + 1..][k - (j - i)];
      }
    }
  }

  /** Every address matching the pattern is accepted: its '@' is the first one. */
  lemma EmailPatternAccepted(email: string)
    requires EmailPattern(email)
    ensures ValidateEmail(email)
  {
    var i, j :| 0 <= i < j < |email| && email[i] == '@' && email[j] == '.'
      && Run(email[..i]) && Run(email[i + 1..j]) && Run(email[j + 1..]);
    FirstAt(email, i);
    CleanDomain(email, i, j);
    var domain := email[i + 1..];
    assert 0 < j - i - 1 < |domain| - 1 && domain[j - i - 1] == '.';
  }

  /** The first-'@' decision accepts exactly the addresses the pattern matches. */
  lemma EmailMatchesPattern(email: string)
    ensures ValidateEmail(email) <==> EmailPattern(email)
  {
    if ValidateEmail(email) { EmailAcceptedMatches(email); }
    if EmailPattern(email) { EmailPatternAccepted(email); }
  }

  // -------------------------------------------------------------------- phone

  /** `phone.replace(/\s/g, '')`. */
  function StripSpaces(s: string): (t: string)
    ensures forall k :: 0 <= k < |t| ==> !IsJsSpace(t[k])
    ensures |t| <= |s|
    decreases |s|
  {
    if s == [] then [] else (if IsJsSpace(s[0]) then [] else [s[0]]) + StripSpaces(s[1..])
  }

  /** Stripping works piece by piece. */
  lemma {:induction false} StripAppend(a: string, b: string)
    ensures StripSpaces(a + b) == StripSpaces(a) + StripSpaces(b)
    decreases |a|
  {
    if a != [] {
      assert (a + b)[0] == a[0] && (a + b)[1..] == a[1..] + b;
      StripAppend(a[1..], b);
    } else {
      assert a + b == b;
    }
  }

  /** The regular expression `^[\+]?[1-9][\d]{0,15}$`: an optional '+', then one to sixteen
      digits, the first of them not '0'. */
  predicate PhonePattern(t: string) {
    var digits := if |t| > 0 && t[0] == '+' then t[1..] else t;
    1 <= |digits| <= 16 && '1' <= digits[0] <= '9' && AllDigits(digits)
  }

  /** `validatePhone`: the pattern, tested after all white space is removed. */
  function ValidatePhone(phone: string): bool { PhonePattern(StripSpaces(phone)) }

  /** White space anywhere in a phone number makes no difference to the verdict. */
  lemma PhoneIgnoresSpaces(a: string, b: string, c: char)
    requires IsJsSpace(c)
    ensures ValidatePhone(a + [c] + b) == ValidatePhone(a + b)
  {
    StripAppend(a + [c], b);
    StripAppend(a, [c]);
    StripAppend(a, b);
    assert StripSpaces([c]) == [];
    assert StripSpaces(a + [c]) == StripSpaces(a);
  }

  /** A number is accepted exactly when, with white space removed, it is one to sixteen digits
      led by a non-zero digit, or a '+' followed by such digits. */
  lemma AcceptedPhoneShape(phone: string)
    ensures var t := StripSpaces(phone);
      ValidatePhone(phone) <==>
        1 <= |t| && (t[0] == '+' || '1' <= t[0] <= '9')
        && (t[0] != '+' ==> |t| <= 16)
        && (t[0] == '+' ==> 2 <= |t| <= 17 && '1' <= t[1] <= '9')
        && forall k :: 0 < k < |t| ==> IsDigit(t[k])
  {
    var t := StripSpaces(phone);
    if |t| > 0 {
      var digits := if t[0] == '+' then t[1..] else t;
      forall k | 0 < k < |t|
        ensures t[k] == if t[0] == '+' then digits[k - 1] else digits[k]
      {
      }
    }
  }

  // -------------------------------------------------------- registration form

  datatype RegisterForm = RegisterForm(
    firstName: string,
    lastName: string,
    email: string,
    password: string,
    confirmPassword: string,
    phone: string,
    termsAgreed: bool)

  /** The fields an error can be shown against, in the order they are checked. */
  datatype FormField = FirstName | LastName | Email | Password | ConfirmPassword | Phone | Terms

  /** `!s.trim()`: nothing but white space. */
  predicate Blank(s: string) { forall k :: 0 <= k < |s| ==> IsJsSpace(s[k]) }

  /** Records an error against `field` when its check failed. */
  function Push(errors: seq<FormField>, failed: bool, field: FormField): seq<FormField> {
    if failed then errors + [field] else errors
  }

  /** The errors shown for the outcomes of the seven checks, in check order. */
  function ErrorsOf(first: bool, last: bool, email: bool, weak: bool, mismatch: bool, phone: bool, terms: bool)
    : seq<FormField>
  {
    Push(Push(Push(Push(Push(Push(Push([], first, FirstName), last, LastName), email, Email), weak, Password),
      mismatch, ConfirmPassword), phone, Phone), terms, Terms)
  }

  /** The errors `validateRegisterForm` shows. */
  function FormErrors(data: RegisterForm): seq<FormField> {
    ErrorsOf(Blank(data.firstName), Blank(data.lastName), !ValidateEmail(data.email),
             Score(data.password) < 2, data.password != data.confirmPassword,
             data.phone != "" && !ValidatePhone(data.phone), !data.termsAgreed)
  }

  lemma ErrorsOfExactly(first: bool, last: bool, email: bool, weak: bool, mismatch: bool, phone: bool, terms: bool)
    ensures var errors := ErrorsOf(first, last, email, weak, mismatch, phone, terms);
      && (FirstName in errors <==> first) && (LastName in errors <==> last)
      && (Email in errors <==> email) && (Password in errors <==> weak)
      && (ConfirmPassword in errors <==> mismatch) && (Phone in errors <==> phone)
      && (Terms in errors <==> terms) && |errors| <= 7
  {
    InErrorsOf(first, last, email, weak, mismatch, phone, terms, FirstName);
    InErrorsOf(first, last, email, weak, mismatch, phone, terms, LastName);
    InErrorsOf(first, last, email, weak, mismatch, phone, terms, Email);
    InErrorsOf(first, last, email, weak, mismatch, phone, terms, Password);
    InErrorsOf(first, last, email, weak, mismatch, phone, terms, ConfirmPassword);
    InErrorsOf(first, last, email, weak, mismatch, phone, terms, Phone);
    InErrorsOf(first, last, email, weak, mismatch, phone, terms, Terms);
    ErrorsOfLength(first, last, email, weak, mismatch, phone, terms);
  }

  /** A field is among the errors exactly when one of the checks reporting it failed. */
  lemma InErrorsOf(first: bool, last: bool, email: bool, weak: bool, mismatch: bool, phone: bool, terms: bool,
                   x: FormField)
    ensures x in ErrorsOf(first, last, email, weak, mismatch, phone, terms)
        <==> ((first && x == FirstName) || (last && x == LastName) || (email && x == Email)
          || (weak && x == Password) || (mismatch && x == ConfirmPassword) || (phone && x == Phone)
          || (terms && x == Terms))
  {
    var e1 := Push([], first, FirstName);
    var e2 := Push(e1, last, LastName);
    var e3 := Push(e2, email, Email);
    var e4 := Push(e3, weak, Password);
    var e5 := Push(e4, mismatch, ConfirmPassword);
    var e6 := Push(e5, phone, Phone);
    InPush([], first, FirstName, x);
    InPush(e1, last, LastName, x);
    InPush(e2, email, Email, x);
    InPush(e3, weak, Password, x);
    InPush(e4, mismatch, ConfirmPassword, x);
    InPush(e5, phone, Phone, x);
    InPush(e6, terms, Terms, x);
  }

  /** The seven checks, run one after another, build `ErrorsOf`. */
  lemma ErrorsOfSteps(first: bool, last: bool, email: bool, weak: bool, mismatch: bool, phone: bool, terms: bool,
                      e1: seq<FormField>, e2: seq<FormField>, e3: seq<FormField>, e4: seq<FormField>,
                      e5: seq<FormField>, e6: seq<FormField>, e7: seq<FormField>)
    requires e1 == Push([], first, FirstName) && e2 == Push(e1, last, LastName) && e3 == Push(e2, email, Email)
    requires e4 == Push(e3, weak, Password) && e5 == Push(e4, mismatch, ConfirmPassword)
    requires e6 == Push(e5, phone, Phone) && e7 == Push(e6, terms, Terms)
    ensures e7 == ErrorsOf(first, last, email, weak, mismatch, phone, terms)
  {
  }

  lemma ErrorsOfLength(first: bool, last: bool, email: bool, weak: bool, mismatch: bool, phone: bool, terms: bool)
    ensures |ErrorsOf(first, last, email, weak, mismatch, phone, terms)| <= 7
  {
    var e1 := Push([], first, FirstName);
    var e2 := Push(e1, last, LastName);
    var e3 := Push(e2, email, Email);
    var e4 := Push(e3, weak, Password);
    var e5 := Push(e4, mismatch, ConfirmPassword);
    var e6 := Push(e5, phone, Phone);
    assert |e1| <= 1 && |e2| <= 2 && |e3| <= 3 && |e4| <= 4 && |e5| <= 5 && |e6| <= 6;
  }

  /** A field is in the list after a check exactly when it was before or the check reported it. */
  lemma InPush(errors: seq<FormField>, failed: bool, field: FormField, x: FormField)
    ensures x in Push(errors, failed, field) <==> x in errors || (failed && x == field)
  {
  }

  /** Each field is reported exactly when its own check fails, so the form is valid exactly when
      every check passes. The phone is checked only when one was entered; a password passes the
      strength test from a score of 2. */
  lemma FormErrorsExactly(data: RegisterForm)
    ensures var errors := FormErrors(data);
      && (FirstName in errors <==> Blank(data.firstName))
      && (LastName in errors <==> Blank(data.lastName))
      && (Email in errors <==> !EmailPattern(data.email))
      && (Password in errors <==> Score(data.password) < 2)
      && (ConfirmPassword in errors <==> data.password != data.confirmPassword)
      && (Phone in errors <==> data.phone != "" && !ValidatePhone(data.phone))
      && (Terms in errors <==> !data.termsAgreed)
      && |errors| <= 7
  {
    EmailMatchesPattern(data.email);
    ErrorsOfExactly(Blank(data.firstName), Blank(data.lastName), !ValidateEmail(data.email),
                    Score(data.password) < 2, data.password != data.confirmPassword,
                    data.phone != "" && !ValidatePhone(data.phone), !data.termsAgreed);
  }

  /** `validateRegisterForm`: every check runs, each failure records an error against its field,
      and the form is valid exactly when no check failed. */
  method ValidateRegisterForm(data: RegisterForm) returns (valid: bool, errors: seq<FormField>)
    ensures errors == FormErrors(data)
    ensures valid <==> errors == []
  {
    valid := true;
    errors := [];
    var first := Blank(data.firstName);
    if first { errors := errors + [FirstName]; valid := false; }
    ghost var e1 := errors;
    assert e1 == Push([], first, FirstName) && (valid <==> e1 == []);
    var last := Blank(data.lastName);
    if last { errors := errors + [LastName]; valid := false; }
    ghost var e2 := errors;
    assert e2 == Push(e1, last, LastName) && (valid <==> e2 == []);
    var email := !ValidateEmail(data.email);
    if email { errors := errors + [Email]; valid := false; }
    ghost var e3 := errors;
    assert e3 == Push(e2, email, Email) && (valid <==> e3 == []);
    var score, _ := CheckPasswordStrength(data.password);
    var weak := score < 2;
    if weak { errors := errors + [Password]; valid := false; }
    ghost var e4 := errors;
    assert e4 == Push(e3, weak, Password) && (valid <==> e4 == []);
    var mismatch := data.password != data.confirmPassword;
    if mismatch { errors := errors + [ConfirmPassword]; valid := false; }
    ghost var e5 := errors;
    assert e5 == Push(e4, mismatch, ConfirmPassword) && (valid <==> e5 == []);
    var phone := data.phone != "" && !ValidatePhone(data.phone);
    if phone { errors := errors + [Phone]; valid := false; }
    ghost var e6 := errors;
    assert e6 == Push(e5, phone, Phone) && (valid <==> e6 == []);
    var terms := !data.termsAgreed;
    if terms { errors := errors + [Terms]; valid := false; }
    assert errors == Push(e6, terms, Terms) && (valid <==> errors == []);
    ErrorsOfSteps(first, last, email, weak, mismatch, phone, terms, e1, e2, e3, e4, e5, e6, errors);
  }
}
