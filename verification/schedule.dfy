/**
 * The year-by-year schedule of the remaining loan balance against the depreciated value of
 * the vehicle.
 */
module Schedule {
  import opened Wrappers
  import opened RealMath
  import opened VehicleData
  import opened Payments

  /** One row of the schedule. */
  datatype ScheduleRow = ScheduleRow(year: nat, loanBalance: real, carValue: real)

  /** The flat yearly depreciation applied to every vehicle. */
  const AnnualDepreciationRate: real := 0.15

  /** The share of the price a vehicle keeps after `year` years of depreciation. */
  function RetainedShare(year: nat): (share: real)
    ensures 0.0 <= share <= 1.0
  {
    PowNonIncreasing(1.0 - AnnualDepreciationRate, 0, year);
    Pow(1.0 - AnnualDepreciationRate, year)
  }

  /** The value of the vehicle after `year` years: undepreciated at origination. */
  function DepreciatedValue(vehiclePrice: real, year: nat): (value: real)
    ensures vehiclePrice >= 0.0 ==> 0.0 <= value <= vehiclePrice
  {
    if year == 0 then vehiclePrice
    else
      var share := RetainedShare(year);
      ShareOfPrice(vehiclePrice, share);
      vehiclePrice * share
  }

  /** A share in [0, 1] of a non-negative price lies between zero and the price. */
  lemma ShareOfPrice(vehiclePrice: real, share: real)
    requires 0.0 <= share <= 1.0
    ensures vehiclePrice >= 0.0 ==> 0.0 <= vehiclePrice * share <= vehiclePrice
  {
    if vehiclePrice >= 0.0 {
      ScaleByNonNegative(vehiclePrice, share, 1.0);
    }
  }

  /**
   * The row recorded for `year`: the running balance after twelve payments per elapsed year,
   * clamped at zero only in the record, next to the depreciated value.
   */
  function RowAt(principal: real, annualRate: real, emi: real, vehiclePrice: real, year: nat): (row: ScheduleRow)
    ensures row.year == year
    ensures row.loanBalance >= 0.0
    ensures row.loanBalance >= RunningBalance(principal, annualRate, emi, TermMonths(year))
    ensures row.loanBalance == 0.0 || row.loanBalance == RunningBalance(principal, annualRate, emi, TermMonths(year))
  {
    ScheduleRow(year, Max(0.0, RunningBalance(principal, annualRate, emi, TermMonths(year))),
                DepreciatedValue(vehiclePrice, year))
  }

  /**
   * Builds the schedule: a row for origination and one per year of the term. The running
   * balance carries on from year to year; the clamp to zero applies to the recorded value
   * only. The vehicle record is accepted but not consulted.
   */
  method GenerateAmortizationAndDepreciation(principal: real, annualRate: real, termYears: nat, emi: real,
                                             vehiclePrice: real, vehicleInfo: Option<VehicleRecord>)
    returns (schedule: seq<ScheduleRow>)
    ensures |schedule| == termYears + 1
    ensures forall y :: 0 <= y < |schedule| ==> schedule[y] == RowAt(principal, annualRate, emi, vehiclePrice, y)
  {
    schedule := [];
    var remainingBalance := principal;
    for year := 0 to termYears + 1
      invariant |schedule| == year
      invariant forall y :: 0 <= y < year ==> schedule[y] == RowAt(principal, annualRate, emi, vehiclePrice, y)
      invariant remainingBalance == RunningBalance(principal, annualRate, emi, if year == 0 then 0 else TermMonths(year - 1))
    {
      var depreciatedValue;
      if year == 0 {
        depreciatedValue := vehiclePrice;
      } else {
        for month := 0 to 12
          invariant remainingBalance == RunningBalance(principal, annualRate, emi, TermMonths(year - 1) + month)
        {
          PaymentMonth(principal, annualRate, emi, TermMonths(year - 1) + month, remainingBalance);
          var interestPayment := remainingBalance * (annualRate / 100.0 / 12.0);
          var principalPayment := emi - interestPayment;
          remainingBalance := remainingBalance - principalPayment;
        }
        depreciatedValue := vehiclePrice * Pow(1.0 - AnnualDepreciationRate, year);
      }
      RecordedRow(principal, annualRate, emi, vehiclePrice, year, remainingBalance, depreciatedValue);
      schedule := schedule + [ScheduleRow(year, Max(0.0, remainingBalance), depreciatedValue)];
    }
  }

  /** One pass of the inner loop advances the running balance by one month. */
  lemma PaymentMonth(principal: real, annualRate: real, emi: real, k: nat, balance: real)
    requires balance == RunningBalance(principal, annualRate, emi, k)
    ensures balance - (emi - balance * (annualRate / 100.0 / 12.0)) == RunningBalance(principal, annualRate, emi, k + 1)
  {
  }

  /** The row the loop appends for `year` is the reference row for that year. */
  lemma RecordedRow(principal: real, annualRate: real, emi: real, vehiclePrice: real, year: nat,
                    balance: real, value: real)
    requires balance == RunningBalance(principal, annualRate, emi, if year == 0 then 0 else TermMonths(year - 1) + 12)
    requires value == if year == 0 then vehiclePrice else vehiclePrice * Pow(1.0 - AnnualDepreciationRate, year)
    ensures ScheduleRow(year, Max(0.0, balance), value) == RowAt(principal, annualRate, emi, vehiclePrice, year)
  {
    assert (if year == 0 then 0 else TermMonths(year - 1) + 12) == TermMonths(year);
  }

  /** Origination: the whole principal is owed (clamped at zero) and the vehicle is at full price. */
  lemma FirstRow(principal: real, annualRate: real, emi: real, vehiclePrice: real)
    requires principal >= 0.0
    ensures RowAt(principal, annualRate, emi, vehiclePrice, 0) == ScheduleRow(0, principal, vehiclePrice)
  {
  }

  /** The depreciation curve is a single geometric decay, origination included. */
  lemma DepreciationCurve(vehiclePrice: real, year: nat)
    ensures DepreciatedValue(vehiclePrice, year) == vehiclePrice * Pow(0.85, year)
  {
  }

  /** A later year never shows a higher value for a non-negative price. */
  lemma DepreciationNonIncreasing(vehiclePrice: real, earlier: nat, later: nat)
    requires vehiclePrice >= 0.0 && earlier <= later
    ensures 0.0 <= DepreciatedValue(vehiclePrice, later) <= DepreciatedValue(vehiclePrice, earlier)
  {
    PowNonIncreasing(1.0 - AnnualDepreciationRate, earlier, later);
    ValueFromShare(vehiclePrice, later);
    ValueFromShare(vehiclePrice, earlier);
    ScaledOrder(vehiclePrice, RetainedShare(later), RetainedShare(earlier),
                DepreciatedValue(vehiclePrice, later), DepreciatedValue(vehiclePrice, earlier));
  }

  /** A later year shows a strictly lower value for a positive price. */
  lemma DepreciationDecreasing(vehiclePrice: real, earlier: nat, later: nat)
    requires vehiclePrice > 0.0 && earlier < later
    ensures DepreciatedValue(vehiclePrice, later) < DepreciatedValue(vehiclePrice, earlier)
  {
    PowDecreasing(1.0 - AnnualDepreciationRate, earlier, later);
    ValueFromShare(vehiclePrice, later);
    ValueFromShare(vehiclePrice, earlier);
    ScaledStrictOrder(vehiclePrice, RetainedShare(later), RetainedShare(earlier),
                      DepreciatedValue(vehiclePrice, later), DepreciatedValue(vehiclePrice, earlier));
  }

  /** Every year's value, origination included, is the price times the share retained. */
  lemma ValueFromShare(vehiclePrice: real, year: nat)
    ensures DepreciatedValue(vehiclePrice, year) == vehiclePrice * RetainedShare(year)
  {
    if year == 0 {
      assert RetainedShare(0) == 1.0;
    }
  }

  /** Scaling by a non-negative factor keeps non-negative amounts in order. */
  lemma ScaledOrder(c: real, lo: real, hi: real, scaledLo: real, scaledHi: real)
    requires c >= 0.0 && 0.0 <= lo <= hi && scaledLo == c * lo && scaledHi == c * hi
    ensures 0.0 <= scaledLo <= scaledHi
  {
    ScaleByNonNegative(c, lo, hi);
  }

  /** Scaling by a positive factor keeps strict order. */
  lemma ScaledStrictOrder(c: real, lo: real, hi: real, scaledLo: real, scaledHi: real)
    requires c > 0.0 && lo < hi && scaledLo == c * lo && scaledHi == c * hi
    ensures scaledLo < scaledHi
  {
    assert c * hi - c * lo == c * (hi - lo);
  }

  lemma ScaleByNonNegative(c: real, lo: real, hi: real)
    requires c >= 0.0 && 0.0 <= lo <= hi
    ensures 0.0 <= c * lo <= c * hi
  {
    assert c * hi - c * lo == c * (hi - lo);
  }

  /**
   * With the payment computed for the loan, a non-negative principal and a non-negative rate,
   * every row of the term records the running balance itself: the clamp to zero never binds.
   */
  lemma RecordedBalanceIsRunning(principal: real, annualRate: real, termYears: nat, vehiclePrice: real, year: nat)
    requires principal >= 0.0 && annualRate >= 0.0 && termYears > 0 && year <= termYears
    ensures var emi := CalculateEmi(principal, annualRate, termYears);
            RowAt(principal, annualRate, emi, vehiclePrice, year).loanBalance
            == RunningBalance(principal, annualRate, emi, TermMonths(year))
  {
    ClampHarmless(principal, annualRate, termYears, TermMonths(year));
  }

  /**
   * With the payment computed for the loan and a non-negative rate, the last row of the
   * schedule shows nothing owed.
   */
  lemma LastRowPaidOff(principal: real, annualRate: real, termYears: nat, vehiclePrice: real)
    requires annualRate >= 0.0 && termYears > 0
    ensures RowAt(principal, annualRate, CalculateEmi(principal, annualRate, termYears), vehiclePrice, termYears).loanBalance == 0.0
  {
    FinalBalanceIsZero(principal, annualRate, termYears);
  }
}
