/** EMI (equated monthly installment) arithmetic of loan.model.js and the reducing-balance
    recurrence that ledgerService.js and loanController.js run over it. Amounts are in minor
    currency units and computed over exact reals; rounding happens where the source rounds. */
module Amortization {
  import opened Common

  function Pow(x: real, n: nat): real {
    if n == 0 then 1.0 else x * Pow(x, n - 1)
  }

  lemma {:induction false} PowAboveOne(x: real, n: nat)
    requires x > 1.0 && n >= 1
    ensures Pow(x, n) > 1.0
  {
    if n > 1 {
      PowAboveOne(x, n - 1);
    }
  }

  /** `annual_rate / 12 / 100`. */
  function MonthlyRate(annualRate: real): real {
    annualRate / 12.0 / 100.0
  }

  /** `Math.round`: the nearest integer, with halves rounded up. */
  function Round(x: real): (n: int)
    ensures x - 0.5 < n as real <= x + 0.5
  {
    (x + 0.5).Floor
  }

  /** The closed form `P*r*(1+r)^n / ((1+r)^n - 1)`; None where the denominator is 0, which in
      the source yields NaN or Infinity rather than a number. */
  function RawEmi(principal: real, r: real, months: nat): Option<real> {
    var q := Pow(1.0 + r, months);
    if q - 1.0 == 0.0 then None else Some(principal * r * q / (q - 1.0))
  }

  lemma {:induction false} PowNonZero(x: real, n: nat)
    requires x != 0.0
    ensures Pow(x, n) != 0.0
  {
    if n > 0 {
      PowNonZero(x, n - 1);
    }
  }

  /** The closed form for any whole number of months, as `Math.pow` evaluates it: a negative
      power is the reciprocal of the positive one, and is infinite when `1 + r` is 0, which
      leaves the formula without a number. */
  function RawEmiSigned(principal: real, r: real, months: int): Option<real> {
    if months >= 0 then RawEmi(principal, r, months)
    else if 1.0 + r == 0.0 then None
    else
      PowNonZero(1.0 + r, -months);
      var q := 1.0 / Pow(1.0 + r, -months);
      if q - 1.0 == 0.0 then None else Some(principal * r * q / (q - 1.0))
  }

  /** `Loan.calculateEMI`: the closed form rounded to the minor unit (`Math.round(emi*100)/100`
      on major units). Nothing stops `months` from being negative. */
  function CalculateEmi(principal: int, annualRate: real, months: int): (emi: Option<int>)
    ensures emi.Some? <==> RawEmiSigned(principal as real, MonthlyRate(annualRate), months).Some?
    ensures emi.Some? ==>
      var raw := RawEmiSigned(principal as real, MonthlyRate(annualRate), months).value;
      raw - 0.5 < emi.value as real <= raw + 0.5
  {
    match RawEmiSigned(principal as real, MonthlyRate(annualRate), months)
    case None => None
    case Some(raw) => Some(Round(raw))
  }

  /** A positive rate over any non-zero number of months, a negative one included, always
      gives an EMI. */
  lemma EmiDefinedForPositiveRate(principal: int, annualRate: real, months: int)
    requires annualRate > 0.0 && months != 0
    ensures CalculateEmi(principal, annualRate, months).Some?
  {
    var x := 1.0 + MonthlyRate(annualRate);
    if months > 0 {
      PowAboveOne(x, months);
    } else {
      PowAboveOne(x, -months);
      var p := Pow(x, -months);
      assert 1.0 / p < 1.0 by {
        assert 1.0 / p * p == 1.0;
      }
    }
  }

  /** Over a negative number of months a positive principal at a positive rate has a negative
      EMI: `(1 + r)^n` lies strictly between 0 and 1. */
  lemma NegativeTermEmiBelowZero(principal: real, r: real, months: int)
    requires principal > 0.0 && r > 0.0 && months < 0
    ensures RawEmiSigned(principal, r, months).Some? && RawEmiSigned(principal, r, months).value < 0.0
  {
    PowAboveOne(1.0 + r, -months);
    var p := Pow(1.0 + r, -months);
    ReciprocalBelowOne(p);
    var q := 1.0 / p;
    PositiveProduct(principal, r, q);
    NegativeQuotient(principal * r * q, q - 1.0);
  }

  lemma ReciprocalBelowOne(p: real)
    requires p > 1.0
    ensures 0.0 < 1.0 / p < 1.0
  {
    assert 1.0 / p * p == 1.0;
  }

  lemma PositiveProduct(a: real, b: real, c: real)
    requires a > 0.0 && b > 0.0 && c > 0.0
    ensures a * b * c > 0.0
  {
    assert a * b > 0.0;
  }

  lemma NegativeQuotient(a: real, b: real)
    requires a > 0.0 && b < 0.0
    ensures a / b < 0.0
  {
    assert a / b * b == a;
  }

  /** There is no special case for a rate of 0: the formula divides 0 by 0, whatever the number
      of months. */
  lemma EmiUndefinedForZeroRate(principal: int, months: int)
    ensures CalculateEmi(principal, 0.0, months).None?
  {
    if months >= 0 {
      PowOne(months);
    } else {
      PowOne(-months);
    }
  }

  lemma {:induction false} PowOne(n: nat)
    ensures Pow(1.0, n) == 1.0
  {
    if n > 0 {
      PowOne(n - 1);
    }
  }

  // ------------------------------------------------------------ the recurrence

  /** The principal still owed after `k` installments of `emi`, each paying
      `interest = remaining * r` and `principal = emi - interest`. */
  function Remaining(principal: real, r: real, emi: real, k: nat): real {
    if k == 0 then principal
    else
      var prev := Remaining(principal, r, emi, k - 1);
      prev - (emi - prev * r)
  }

  /** The interest part of installment `i` (numbered from 1). */
  function InterestPart(principal: real, r: real, emi: real, i: nat): real
    requires i >= 1
  {
    Remaining(principal, r, emi, i - 1) * r
  }

  /** The principal part of installment `i` (numbered from 1). */
  function PrincipalPart(principal: real, r: real, emi: real, i: nat): real
    requires i >= 1
  {
    emi - InterestPart(principal, r, emi, i)
  }

  /** Closed form of the recurrence: `R_k * r == P*r*(1+r)^k - emi*((1+r)^k - 1)`. */
  lemma {:induction false} RemainingClosedForm(principal: real, r: real, emi: real, k: nat)
    ensures Remaining(principal, r, emi, k) * r
         == principal * r * Pow(1.0 + r, k) - emi * (Pow(1.0 + r, k) - 1.0)
  {
    if k == 0 {
      ClosedFormBase(principal, r, emi);
    } else {
      RemainingClosedForm(principal, r, emi, k - 1);
      ClosedFormStep(Remaining(principal, r, emi, k), Remaining(principal, r, emi, k - 1), principal, r, emi,
                     Pow(1.0 + r, k - 1), Pow(1.0 + r, k));
    }
  }

  lemma ClosedFormBase(principal: real, r: real, emi: real)
    ensures Remaining(principal, r, emi, 0) * r
         == principal * r * Pow(1.0 + r, 0) - emi * (Pow(1.0 + r, 0) - 1.0)
  {
    assert Remaining(principal, r, emi, 0) == principal && Pow(1.0 + r, 0) == 1.0;
  }

  /** One step of the recurrence keeps the closed form, with `q` and `qNext` standing for
      `(1+r)^(k-1)` and `(1+r)^k`. */
  lemma ClosedFormStep(next: real, prev: real, principal: real, r: real, emi: real, q: real, qNext: real)
    requires prev * r == principal * r * q - emi * (q - 1.0)
    requires next == prev - (emi - prev * r) && qNext == (1.0 + r) * q
    ensures next * r == principal * r * qNext - emi * (qNext - 1.0)
  {
    calc {
      next * r;
      (prev - (emi - prev * r)) * r;
      (prev * r) * (1.0 + r) - emi * r;
      (principal * r * q - emi * (q - 1.0)) * (1.0 + r) - emi * r;
      principal * r * ((1.0 + r) * q) - emi * ((1.0 + r) * q - 1.0);
    }
  }

  /** Paid with the exact (unrounded) EMI, the loan is cleared after exactly `n` installments. */
  lemma ExactEmiClearsLoan(principal: real, r: real, n: nat)
    requires r != 0.0 && RawEmi(principal, r, n).Some?
    ensures Remaining(principal, r, RawEmi(principal, r, n).value, n) == 0.0
  {
    var q := Pow(1.0 + r, n);
    var emi := RawEmi(principal, r, n).value;
    RemainingClosedForm(principal, r, emi, n);
    assert emi * (q - 1.0) == principal * r * q;
    var rem := Remaining(principal, r, emi, n);
    assert rem * r == 0.0;
  }

  /** With the rounded EMI the last remaining principal is the rounding error carried through the
      recurrence: `R_n * r == (raw - emi) * ((1+r)^n - 1)`; the source neither absorbs nor writes
      off this residue. */
  lemma RoundedEmiResidue(principal: real, r: real, n: nat, emi: real)
    requires RawEmi(principal, r, n).Some?
    ensures Remaining(principal, r, emi, n) * r
         == (RawEmi(principal, r, n).value - emi) * (Pow(1.0 + r, n) - 1.0)
  {
    var d := Pow(1.0 + r, n) - 1.0;
    var owed := principal * r * Pow(1.0 + r, n);
    var raw := RawEmi(principal, r, n).value;
    assert raw == owed / d;
    DivideThenMultiply(owed, d);
    RemainingClosedForm(principal, r, emi, n);
    assert Remaining(principal, r, emi, n) * r == owed - emi * d;
    assert (raw - emi) * d == raw * d - emi * d;
  }

  lemma DivideThenMultiply(x: real, d: real)
    requires d != 0.0
    ensures x / d * d == x
  {
  }

  /** The principal parts of the first `k` installments. */
  function SumPrincipal(principal: real, r: real, emi: real, k: nat): real {
    if k == 0 then 0.0 else SumPrincipal(principal, r, emi, k - 1) + PrincipalPart(principal, r, emi, k)
  }

  /** The principal parts repay exactly what the balance has fallen by. */
  lemma {:induction false} SumPrincipalTelescopes(principal: real, r: real, emi: real, k: nat)
    ensures SumPrincipal(principal, r, emi, k) == principal - Remaining(principal, r, emi, k)
  {
    if k > 0 {
      SumPrincipalTelescopes(principal, r, emi, k - 1);
    }
  }

  /** With the exact EMI the principal parts of all `n` installments add up to the principal. */
  lemma ExactEmiRepaysPrincipal(principal: real, r: real, n: nat)
    requires r != 0.0 && RawEmi(principal, r, n).Some?
    ensures SumPrincipal(principal, r, RawEmi(principal, r, n).value, n) == principal
  {
    ExactEmiClearsLoan(principal, r, n);
    SumPrincipalTelescopes(principal, r, RawEmi(principal, r, n).value, n);
  }
}
