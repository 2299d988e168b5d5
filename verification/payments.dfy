/**
 * The equated monthly installment (EMI) of an annuity loan and the month-by-month running
 * balance that paying it produces.
 */
module Payments {
  import opened Wrappers
  import opened RealMath

  /** The monthly rate as a fraction: a twelfth of the annual percentage. */
  function MonthlyRate(annualRate: real): (r: real)
    ensures r * 1200.0 == annualRate
    ensures r > 0.0 <==> annualRate > 0.0
  {
    annualRate / 100.0 / 12.0
  }

  /** The number of monthly payments in a term of whole years. */
  function TermMonths(termYears: nat): (n: nat)
    ensures n % 12 == 0 && n / 12 == termYears
  {
    termYears * 12
  }

  /**
   * The payment exactly as the source computes it. `None` stands for the ZeroDivisionError
   * raised when the rate is positive and the term is zero: the annuity denominator
   * `(1 + r)^0 - 1` is then zero, and only the zero-rate branch guards a zero term.
   */
  function CalculateEmiAsWritten(principal: real, annualRate: real, termYears: nat): (r: Option<real>)
    ensures r.None? <==> annualRate > 0.0 && termYears == 0
  {
    var m := MonthlyRate(annualRate);
    var n := TermMonths(termYears);
    if m > 0.0 then
      var growth := Pow(1.0 + m, n);
      GrowthAboveOne(m, n);
      if growth - 1.0 == 0.0 then None
      else Some(AnnuityPayment(principal, m, growth))
    else
      Some(if n > 0 then principal / n as real else 0.0)
  }

  /** Compound growth over a term exceeds one exactly when the term is positive. */
  lemma GrowthAboveOne(m: real, n: nat)
    requires m > 0.0
    ensures Pow(1.0 + m, n) > 1.0 <==> n > 0
  {
    if n > 0 {
      PowAboveOne(1.0 + m, n);
    }
  }

  /**
   * The payment with the zero-term guard applied to both branches: a zero term yields 0
   * whatever the rate. On every positive term it agrees with the source (EmiAsWrittenAgrees).
   */
  function CalculateEmi(principal: real, annualRate: real, termYears: nat): (emi: real)
    ensures termYears == 0 || principal == 0.0 ==> emi == 0.0
    ensures annualRate <= 0.0 && termYears > 0 ==> emi * TermMonths(termYears) as real == principal
  {
    var m := MonthlyRate(annualRate);
    var n := TermMonths(termYears);
    if n == 0 then 0.0
    else if m > 0.0 then
      GrowthAboveOne(m, n);
      AnnuityPayment(principal, m, Pow(1.0 + m, n))
    else
      principal / n as real
  }

  /**
   * The annuity formula, given the monthly rate `m` and the compound growth `growth` of one
   * unit over the term.
   */
  function AnnuityPayment(principal: real, m: real, growth: real): (emi: real)
    requires growth > 1.0
    ensures emi * (growth - 1.0) == principal * (m * growth)
    ensures principal == 0.0 ==> emi == 0.0
  {
    ZeroQuotient(principal * (m * growth), growth - 1.0);
    principal * (m * growth) / (growth - 1.0)
  }

  /** The corrected payment differs from the source only where the source fails. */
  lemma EmiAsWrittenAgrees(principal: real, annualRate: real, termYears: nat)
    ensures termYears > 0 ==> CalculateEmiAsWritten(principal, annualRate, termYears) == Some(CalculateEmi(principal, annualRate, termYears))
    ensures termYears == 0 ==> CalculateEmiAsWritten(principal, annualRate, termYears) == (if annualRate > 0.0 then None else Some(0.0))
  {
    if termYears > 0 && annualRate > 0.0 {
      PowAboveOne(1.0 + MonthlyRate(annualRate), TermMonths(termYears));
    }
  }

  /** A 36,000 loan at 6% over a zero term: the source fails where the corrected payment is 0. */
  lemma EmiAsWrittenZeroTermFails()
    ensures CalculateEmiAsWritten(36000.0, 6.0, 0) == None
    ensures CalculateEmi(36000.0, 6.0, 0) == 0.0
  {
  }

  /** One month of the schedule: interest accrues on the balance and the payment is deducted. */
  function MonthStep(balance: real, annualRate: real, emi: real): (next: real)
    ensures next == balance * (1.0 + MonthlyRate(annualRate)) - emi
  {
    var interestPayment := balance * (annualRate / 100.0 / 12.0);
    var principalPayment := emi - interestPayment;
    balance - principalPayment
  }

  /** The unclamped balance after `months` payments of `emi`. */
  function RunningBalance(principal: real, annualRate: real, emi: real, months: nat): real
  {
    if months == 0 then principal
    else MonthStep(RunningBalance(principal, annualRate, emi, months - 1), annualRate, emi)
  }

  /** The annuity factor 1 + q + ... + q^(k-1), in Horner form. */
  function Annuity(q: real, k: nat): real
  {
    if k == 0 then 0.0 else q * Annuity(q, k - 1) + 1.0
  }

  /** The balance recurrence with the monthly growth factor `q` as a parameter. */
  function Compounded(principal: real, q: real, emi: real, k: nat): real
  {
    if k == 0 then principal else Compounded(principal, q, emi, k - 1) * q - emi
  }

  /** The running balance is the recurrence at the growth factor of the monthly rate. */
  lemma {:induction false} RunningBalanceCompounds(principal: real, annualRate: real, emi: real, k: nat)
    ensures RunningBalance(principal, annualRate, emi, k) == Compounded(principal, 1.0 + MonthlyRate(annualRate), emi, k)
  {
    if k > 0 {
      RunningBalanceCompounds(principal, annualRate, emi, k - 1);
      RunningBalanceStep(principal, annualRate, emi, k);
    }
  }

  /** Closed form of the recurrence: the grown principal less the grown payments. */
  lemma {:induction false} CompoundedClosedForm(principal: real, q: real, emi: real, k: nat)
    ensures Compounded(principal, q, emi, k) == principal * Pow(q, k) - emi * Annuity(q, k)
  {
    if k > 0 {
      CompoundedClosedForm(principal, q, emi, k - 1);
      CompoundedStep(principal, q, emi, k);
    }
  }

  /** One step of the recurrence keeps the closed form. */
  lemma CompoundedStep(principal: real, q: real, emi: real, k: nat)
    requires k > 0
    requires Compounded(principal, q, emi, k - 1) == principal * Pow(q, k - 1) - emi * Annuity(q, k - 1)
    ensures Compounded(principal, q, emi, k) == principal * Pow(q, k) - emi * Annuity(q, k)
  {
    ClosedFormStep(principal, emi, q, Pow(q, k - 1), Annuity(q, k - 1), Compounded(principal, q, emi, k - 1),
                   Compounded(principal, q, emi, k), Pow(q, k), Annuity(q, k));
  }

  /** Closed form of the running balance: the grown principal less the grown payments. */
  lemma RunningBalanceClosedForm(principal: real, annualRate: real, emi: real, k: nat)
    ensures RunningBalance(principal, annualRate, emi, k)
         == principal * Pow(1.0 + MonthlyRate(annualRate), k) - emi * Annuity(1.0 + MonthlyRate(annualRate), k)
  {
    RunningBalanceCompounds(principal, annualRate, emi, k);
    CompoundedClosedForm(principal, 1.0 + MonthlyRate(annualRate), emi, k);
  }

  /** At a zero rate nothing accrues: each month takes exactly one payment off the principal. */
  lemma {:induction false} RunningBalanceZeroRate(principal: real, emi: real, months: nat)
    ensures RunningBalance(principal, 0.0, emi, months) == principal - months as real * emi
  {
    if months > 0 {
      RunningBalanceZeroRate(principal, emi, months - 1);
      RunningBalanceStep(principal, 0.0, emi, months);
    }
  }

  /** One more month grows the previous balance by the monthly rate and deducts the payment. */
  lemma RunningBalanceStep(principal: real, annualRate: real, emi: real, k: nat)
    requires k > 0
    ensures RunningBalance(principal, annualRate, emi, k)
         == RunningBalance(principal, annualRate, emi, k - 1) * (1.0 + MonthlyRate(annualRate)) - emi
  {
  }

  /**
   * The algebra of one step of the closed form, over plain reals: a balance in closed form,
   * grown by `q` and less one payment, is again in closed form with the next power and factor.
   */
  lemma ClosedFormStep(principal: real, emi: real, q: real, p: real, a: real, b: real,
                       next: real, nextPower: real, nextFactor: real)
    requires b == principal * p - emi * a
    requires next == b * q - emi && nextPower == q * p && nextFactor == q * a + 1.0
    ensures next == principal * nextPower - emi * nextFactor
  {
    assert b * q == principal * (q * p) - emi * (q * a);
  }

  /** The annuity factor times the rate is the growth of one unit less that unit. */
  lemma {:induction false} AnnuityTimesRate(m: real, k: nat)
    ensures m * Annuity(1.0 + m, k) == Pow(1.0 + m, k) - 1.0
  {
    if k > 0 {
      var q := 1.0 + m;
      var a := Annuity(q, k - 1);
      AnnuityTimesRate(m, k - 1);
      calc {
        m * Annuity(q, k);
        m * (q * a + 1.0);
        q * (m * a) + m;
        q * (Pow(q, k - 1) - 1.0) + m;
        q * Pow(q, k - 1) - 1.0;
        Pow(q, k) - 1.0;
      }
    }
  }

  /** Each of the k terms of the annuity factor is at most q^k when q >= 1. */
  lemma {:induction false} AnnuityAtMostTerms(q: real, k: nat)
    requires q >= 1.0
    ensures 0.0 <= Annuity(q, k) <= k as real * Pow(q, k)
  {
    if k > 0 {
      var a := Annuity(q, k - 1);
      var p := Pow(q, k - 1);
      AnnuityAtMostTerms(q, k - 1);
      PowAtLeastOne(q, k);
      assert q * a <= q * ((k - 1) as real * p) by {
        assert q * ((k - 1) as real * p) - q * a == q * ((k - 1) as real * p - a);
      }
      assert Pow(q, k) == q * p;
      assert q * ((k - 1) as real * p) == (k - 1) as real * Pow(q, k);
    }
  }

  /** At rate zero the annuity factor just counts the payments. */
  lemma {:induction false} AnnuityAtRateZero(k: nat)
    ensures Annuity(1.0, k) == k as real
  {
    if k > 0 {
      AnnuityAtRateZero(k - 1);
    }
  }

  /**
   * For a positive rate and term, the payment times the annuity factor is the principal grown
   * over the whole term.
   */
  lemma EmiAnnuityForm(principal: real, annualRate: real, termYears: nat)
    requires annualRate > 0.0 && termYears > 0
    ensures var q := 1.0 + MonthlyRate(annualRate);
            var n := TermMonths(termYears);
            Annuity(q, n) > 0.0
            && CalculateEmi(principal, annualRate, termYears) * Annuity(q, n) == principal * Pow(q, n)
  {
    var m := MonthlyRate(annualRate);
    var q := 1.0 + m;
    var n := TermMonths(termYears);
    var growth := Pow(q, n);
    var a := Annuity(q, n);
    assert growth > 1.0 by {
      PowAboveOne(q, n);
    }
    assert m * a == growth - 1.0 by {
      AnnuityTimesRate(m, n);
    }
    assert CalculateEmi(principal, annualRate, termYears) == AnnuityPayment(principal, m, growth);
    AnnuityPaymentTimesFactor(principal, m, growth, a);
  }

  /** The annuity payment times the annuity factor `a` (where m * a == growth - 1). */
  lemma AnnuityPaymentTimesFactor(principal: real, m: real, growth: real, a: real)
    requires m > 0.0 && growth > 1.0 && m * a == growth - 1.0
    ensures a > 0.0 && AnnuityPayment(principal, m, growth) * a == principal * growth
  {
    var emi := AnnuityPayment(principal, m, growth);
    assert emi * (growth - 1.0) == principal * (m * growth);
    assert a > 0.0;
    assert m * (emi * a) == m * (principal * growth);
  }

  /**
   * With a non-negative rate the payments over the whole term recover at least the principal;
   * at rate zero exactly the principal.
   */
  lemma EmiRecoversPrincipal(principal: real, annualRate: real, termYears: nat)
    requires principal >= 0.0 && annualRate >= 0.0 && termYears > 0
    ensures CalculateEmi(principal, annualRate, termYears) * TermMonths(termYears) as real >= principal
  {
    if annualRate > 0.0 {
      var q := 1.0 + MonthlyRate(annualRate);
      var n := TermMonths(termYears);
      EmiAnnuityForm(principal, annualRate, termYears);
      AnnuityAtMostTerms(q, n);
      RecoveryAlgebra(principal, CalculateEmi(principal, annualRate, termYears), Pow(q, n), Annuity(q, n), n as real);
    }
  }

  /** If emi * a == p * g, with a > 0 and a <= n * g, then n payments cover p. */
  lemma RecoveryAlgebra(p: real, emi: real, g: real, a: real, n: real)
    requires p >= 0.0 && a > 0.0 && a <= n * g && emi * a == p * g
    ensures emi * n >= p
  {
    assert (emi * n) * a == p * (g * n);
    assert p * (g * n) >= p * a;
  }

  /**
   * Paying the computed EMI for the whole term, with a non-negative rate, leaves exactly nothing
   * owed (under exact arithmetic).
   */
  lemma FinalBalanceIsZero(principal: real, annualRate: real, termYears: nat)
    requires annualRate >= 0.0 && termYears > 0
    ensures RunningBalance(principal, annualRate, CalculateEmi(principal, annualRate, termYears), TermMonths(termYears)) == 0.0
  {
    var emi := CalculateEmi(principal, annualRate, termYears);
    var q := 1.0 + MonthlyRate(annualRate);
    var n := TermMonths(termYears);
    RunningBalanceClosedForm(principal, annualRate, emi, n);
    if annualRate == 0.0 {
      PowOfOne(n);
      AnnuityAtRateZero(n);
      assert emi * n as real == principal;
    } else {
      EmiAnnuityForm(principal, annualRate, termYears);
      var a := Annuity(q, n);
      assert emi * a == principal * Pow(q, n);
    }
  }

  /** For a non-negative principal and rate the computed payment is never negative. */
  lemma EmiNonNegative(principal: real, annualRate: real, termYears: nat)
    requires principal >= 0.0 && annualRate >= 0.0
    ensures CalculateEmi(principal, annualRate, termYears) >= 0.0
  {
    var emi := CalculateEmi(principal, annualRate, termYears);
    if termYears > 0 {
      var n := TermMonths(termYears);
      if annualRate == 0.0 {
        NonNegativeFactor(emi, n as real, principal);
      } else {
        var q := 1.0 + MonthlyRate(annualRate);
        EmiAnnuityForm(principal, annualRate, termYears);
        PowPositive(q, n);
        ScaleUpNonNegative(principal, Pow(q, n));
        NonNegativeFactor(emi, Annuity(q, n), principal * Pow(q, n));
      }
    }
  }

  /** A non-negative product with a positive factor has a non-negative other factor. */
  lemma NonNegativeFactor(c: real, g: real, product: real)
    requires g > 0.0 && product == c * g && product >= 0.0
    ensures c >= 0.0
  {
    QuotientUnique(product, g, c);
  }

  /**
   * With a non-negative rate and payment, a balance that is non-negative after m months was
   * non-negative after every earlier month: a month can only lower a negative balance.
   */
  lemma {:induction false} BalanceNonNegativeBefore(principal: real, annualRate: real, emi: real, k: nat, m: nat)
    requires annualRate >= 0.0 && emi >= 0.0 && k <= m
    requires RunningBalance(principal, annualRate, emi, m) >= 0.0
    ensures RunningBalance(principal, annualRate, emi, k) >= 0.0
    decreases m
  {
    if k < m {
      var c := RunningBalance(principal, annualRate, emi, m - 1);
      var g := 1.0 + MonthlyRate(annualRate);
      assert RunningBalance(principal, annualRate, emi, m) == c * g - emi;
      NonNegativeFactor(c, g, c * g);
      BalanceNonNegativeBefore(principal, annualRate, emi, k, m - 1);
    }
  }

  /**
   * Paying the computed EMI on a non-negative principal at a non-negative rate never drives the
   * running balance below zero before the term ends, so the clamp on the recorded balance never
   * changes a value.
   */
  lemma ClampHarmless(principal: real, annualRate: real, termYears: nat, k: nat)
    requires principal >= 0.0 && annualRate >= 0.0 && termYears > 0 && k <= TermMonths(termYears)
    ensures RunningBalance(principal, annualRate, CalculateEmi(principal, annualRate, termYears), k) >= 0.0
  {
    EmiNonNegative(principal, annualRate, termYears);
    FinalBalanceIsZero(principal, annualRate, termYears);
    BalanceNonNegativeBefore(principal, annualRate, CalculateEmi(principal, annualRate, termYears), k,
                             TermMonths(termYears));
  }
}
