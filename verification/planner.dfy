/**
 * The calculation steps of the planner's dashboard: loan principal, the rate predictor's
 * feature row, loan totals, the underwater series and the income-ratio health check, and the
 * whole projection composed from them.
 */
module Planner {
  import opened Wrappers
  import opened RealMath
  import opened VehicleData
  import opened Payments
  import opened Schedule
  import opened Ownership

  // ---------------------------------------------------------------------------------------
  // Inputs

  /** The ranges the input sliders allow: a price of 5,000 to 100,000, a down payment up to the price. */
  predicate SliderBounds(vehiclePrice: real, downPayment: real)
  {
    5000.0 <= vehiclePrice <= 100000.0 && 0.0 <= downPayment <= vehiclePrice
  }

  /** The credit-score choices and the score each stands for. */
  const CreditScores: map<string, int> := map[
    "Excellent: 780+" := 800,
    "Good: 720-779" := 750,
    "Average: 660-719" := 690,
    "Fair: 600-659" := 630,
    "Poor: <600" := 580
  ]

  /** The amount borrowed. */
  function Principal(vehiclePrice: real, downPayment: real): (p: real)
    ensures p + downPayment == vehiclePrice
    ensures SliderBounds(vehiclePrice, downPayment) ==> 0.0 <= p <= vehiclePrice
  {
    vehiclePrice - downPayment
  }

  /** The down payment as a fraction of the price; zero for a non-positive price. */
  function DownPaymentPercentage(downPayment: real, vehiclePrice: real): (pct: real)
    ensures vehiclePrice > 0.0 ==> pct * vehiclePrice == downPayment
    ensures vehiclePrice <= 0.0 ==> pct == 0.0
    ensures SliderBounds(vehiclePrice, downPayment) ==> 0.0 <= pct <= 1.0
  {
    if vehiclePrice > 0.0 then downPayment / vehiclePrice else 0.0
  }

  // ---------------------------------------------------------------------------------------
  // The "vehicle type" feature

  predicate IsPrefix(prefix: string, s: string)
  {
    |prefix| <= |s| && s[..|prefix|] == prefix
  }

  /** Python's substring test `sub in s`. */
  predicate Contains(s: string, sub: string)
    decreases |s|
  {
    IsPrefix(sub, s) || (|s| > 0 && Contains(s[1..], sub))
  }

  /** A string containing a non-empty substring contains its first character. */
  lemma {:induction false} ContainsFirstChar(s: string, sub: string)
    requires |sub| > 0 && Contains(s, sub)
    ensures sub[0] in s
    decreases |s|
  {
    if IsPrefix(sub, s) {
      assert s[0] == sub[0];
    } else {
      ContainsFirstChar(s[1..], sub);
      assert sub[0] in s[1..];
    }
  }

  /** `sub` occurs in `s` starting at index `i`. */
  predicate At(s: string, sub: string, i: int)
  {
    0 <= i && i + |sub| <= |s| && s[i..i + |sub|] == sub
  }

  /** The recursive substring test agrees with "occurs at some index". */
  lemma {:induction false} ContainsAt(s: string, sub: string)
    ensures Contains(s, sub) <==> exists i :: At(s, sub, i)
    decreases |s|
  {
    if Contains(s, sub) {
      if IsPrefix(sub, s) {
        assert At(s, sub, 0);
      } else {
        ContainsAt(s[1..], sub);
        var i :| At(s[1..], sub, i);
        assert s[1..][i..i + |sub|] == s[i + 1..i + 1 + |sub|];
        assert At(s, sub, i + 1);
      }
    }
    if exists i :: At(s, sub, i) {
      var i :| At(s, sub, i);
      if i == 0 {
        assert IsPrefix(sub, s);
      } else {
        assert s[1..][i - 1..i - 1 + |sub|] == s[i..i + |sub|];
        assert At(s[1..], sub, i - 1);
        ContainsAt(s[1..], sub);
      }
    }
  }

  /** "Used" when the credit-score label mentions it, otherwise "New". */
  function VehicleType(creditScoreLabel: string): (vehicleType: string)
    ensures vehicleType == "Used" || vehicleType == "New"
    ensures vehicleType == "Used" <==> Contains(creditScoreLabel, "Used")
    ensures vehicleType == "Used" <==> exists i :: At(creditScoreLabel, "Used", i)
    ensures vehicleType == "Used" ==> 'U' in creditScoreLabel
  {
    ContainsAt(creditScoreLabel, "Used");
    if Contains(creditScoreLabel, "Used") then
      ContainsFirstChar(creditScoreLabel, "Used");
      "Used"
    else "New"
  }

  /** The one-hot `vehicle_type_Used` feature: 1 for a used vehicle, 0 for a new one. */
  function VehicleTypeUsedFlag(creditScoreLabel: string): (flag: real)
    ensures flag == 0.0 || flag == 1.0
    ensures flag == 1.0 <==> VehicleType(creditScoreLabel) == "Used"
    ensures 'U' !in creditScoreLabel ==> flag == 0.0
  {
    if VehicleType(creditScoreLabel) == "Used" then 1.0 else 0.0
  }

  /** No credit-score label mentions "Used", so the used-vehicle feature is always 0. */
  lemma UsedFlagAlwaysZero(creditScoreLabel: string)
    requires creditScoreLabel in CreditScores
    ensures VehicleTypeUsedFlag(creditScoreLabel) == 0.0
  {
    assert 'U' !in creditScoreLabel by {
      LabelsLackCapitalU(creditScoreLabel);
    }
    if Contains(creditScoreLabel, "Used") {
      ContainsFirstChar(creditScoreLabel, "Used");
      assert false;
    }
  }

  lemma LabelsLackCapitalU(creditScoreLabel: string)
    requires creditScoreLabel in CreditScores
    ensures 'U' !in creditScoreLabel
  {
    assert creditScoreLabel in CreditScores.Keys;
    if creditScoreLabel == "Excellent: 780+" {
    } else if creditScoreLabel == "Good: 720-779" {
    } else if creditScoreLabel == "Average: 660-719" {
    } else if creditScoreLabel == "Fair: 600-659" {
    } else {
      assert creditScoreLabel == "Poor: <600";
    }
  }

  // ---------------------------------------------------------------------------------------
  // The rate predictor's feature row

  /** One named column of the predictor's input row. */
  datatype Feature = Feature(column: string, value: real)

  /** The features the planner supplies, by column name. */
  function FeatureInput(creditScore: int, principal: real, loanTerm: nat, downPaymentPercentage: real,
                        usedFlag: real): (input: map<string, real>)
    ensures input.Keys == {"credit_score", "loan_amount_usd", "loan_term_years", "down_payment_percentage",
                           "vehicle_type_Used"}
    ensures input["credit_score"] == creditScore as real && input["loan_amount_usd"] == principal
    ensures input["loan_term_years"] == loanTerm as real && input["down_payment_percentage"] == downPaymentPercentage
    ensures input["vehicle_type_Used"] == usedFlag
  {
    map[
      "credit_score" := creditScore as real,
      "loan_amount_usd" := principal,
      "loan_term_years" := loanTerm as real,
      "down_payment_percentage" := downPaymentPercentage,
      "vehicle_type_Used" := usedFlag
    ]
  }

  /**
   * Aligns the supplied features with the predictor's columns: one entry per column, in the
   * columns' order, holding the supplied value or 0 when none was supplied.
   */
  function Reindex(input: map<string, real>, columns: seq<string>): (row: seq<Feature>)
    ensures |row| == |columns|
    ensures forall i :: 0 <= i < |columns| ==> row[i].column == columns[i]
    ensures forall i :: 0 <= i < |columns| && columns[i] in input ==> row[i].value == input[columns[i]]
    ensures forall i :: 0 <= i < |columns| && columns[i] !in input ==> row[i].value == 0.0
  {
    if columns == [] then []
    else [Feature(columns[0], if columns[0] in input then input[columns[0]] else 0.0)] + Reindex(input, columns[1..])
  }

  /** A supplied feature the predictor has no column for is dropped without trace. */
  lemma ReindexIgnoresExtraKeys(input: map<string, real>, columns: seq<string>, key: string, value: real)
    requires key !in columns
    ensures Reindex(input[key := value], columns) == Reindex(input, columns)
  {
    var r1 := Reindex(input[key := value], columns);
    var r2 := Reindex(input, columns);
    assert forall i :: 0 <= i < |columns| ==> columns[i] != key;
    assert forall i :: 0 <= i < |columns| ==> r1[i] == r2[i];
  }

  // ---------------------------------------------------------------------------------------
  // Loan totals

  /** Everything paid over the term. */
  function TotalLoanCost(emi: real, loanTerm: nat): (total: real)
    ensures loanTerm > 0 ==> total / (loanTerm * 12) as real == emi
    ensures loanTerm == 0 ==> total == 0.0
  {
    emi * (loanTerm * 12) as real
  }

  /** The part of the payments that is not principal. */
  function TotalInterest(emi: real, principal: real, loanTerm: nat): (interest: real)
    ensures interest + principal == TotalLoanCost(emi, loanTerm)
  {
    TotalLoanCost(emi, loanTerm) - principal
  }

  /** With a non-positive rate the payments are pure principal: no interest. */
  lemma ZeroRateNoInterest(principal: real, annualRate: real, loanTerm: nat)
    requires annualRate <= 0.0 && loanTerm > 0
    ensures TotalInterest(CalculateEmi(principal, annualRate, loanTerm), principal, loanTerm) == 0.0
  {
  }

  /** With a non-negative rate and principal the interest is never negative. */
  lemma InterestNonNegative(principal: real, annualRate: real, loanTerm: nat)
    requires principal >= 0.0 && annualRate >= 0.0 && loanTerm > 0
    ensures TotalInterest(CalculateEmi(principal, annualRate, loanTerm), principal, loanTerm) >= 0.0
  {
    EmiRecoversPrincipal(principal, annualRate, loanTerm);
  }

  // ---------------------------------------------------------------------------------------
  // Underwater exposure

  /** Per year, how much more is owed than the vehicle is worth, or 0 when it is worth more. */
  function UnderwaterAmounts(schedule: seq<ScheduleRow>): (amounts: seq<real>)
    ensures |amounts| == |schedule|
    ensures forall i :: 0 <= i < |schedule| ==>
              amounts[i] == Max(0.0, schedule[i].loanBalance - schedule[i].carValue)
  {
    if schedule == [] then []
    else [Max(0.0, schedule[0].loanBalance - schedule[0].carValue)] + UnderwaterAmounts(schedule[1..])
  }

  /** The largest element of a non-empty series. */
  function Peak(series: seq<real>): (peak: real)
    requires |series| > 0
    ensures forall i :: 0 <= i < |series| ==> series[i] <= peak
    ensures exists i :: 0 <= i < |series| && series[i] == peak
  {
    if |series| == 1 then series[0]
    else
      var rest := Peak(series[1..]);
      assert forall i :: 1 <= i < |series| ==> series[i] == series[1..][i - 1];
      if series[0] >= rest then series[0] else rest
  }

  /** The peak underwater amount is never negative. */
  lemma PeakUnderwaterNonNegative(schedule: seq<ScheduleRow>)
    requires |schedule| > 0
    ensures Peak(UnderwaterAmounts(schedule)) >= 0.0
  {
    var amounts := UnderwaterAmounts(schedule);
    assert amounts[0] >= 0.0;
  }

  /**
   * At origination the owed amount never exceeds the price, so the buyer starts out not
   * underwater.
   */
  lemma NotUnderwaterAtOrigination(vehiclePrice: real, downPayment: real, annualRate: real, emi: real)
    requires downPayment >= 0.0 && vehiclePrice >= 0.0
    ensures var row := RowAt(Principal(vehiclePrice, downPayment), annualRate, emi, vehiclePrice, 0);
            Max(0.0, row.loanBalance - row.carValue) == 0.0
  {
  }

  // ---------------------------------------------------------------------------------------
  // Financial health

  datatype HealthStatus = Good | Borderline | HighRisk

  /** The label the dashboard shows for a status. */
  function StatusText(status: HealthStatus): string
  {
    match status
    case Good => "Good"
    case Borderline => "Borderline"
    case HighRisk => "High-Risk"
  }

  /** Orders the statuses from least to most risky. */
  function Severity(status: HealthStatus): nat
  {
    match status
    case Good => 0
    case Borderline => 1
    case HighRisk => 2
  }

  /** Bands of the cost-to-income percentage: below 15, below 20, and the rest. */
  function Classify(ratio: real): (status: HealthStatus)
    ensures status == Good <==> ratio < 15.0
    ensures status == Borderline <==> 15.0 <= ratio < 20.0
    ensures status == HighRisk <==> ratio >= 20.0
  {
    if ratio < 15.0 then Good
    else if ratio < 20.0 then Borderline
    else HighRisk
  }

  /** A higher ratio never lands in a less risky band. */
  lemma ClassifyMonotone(ratio: real, ratio': real)
    requires ratio <= ratio'
    ensures Severity(Classify(ratio)) <= Severity(Classify(ratio'))
  {
  }

  datatype HealthReport = HealthReport(monthlyTco: real, ratio: real, status: HealthStatus)

  /**
   * The health check, made only for a positive income: the monthly share of the total cost of
   * ownership (0 when the breakdown is empty) as a percentage of income, and its band.
   */
  function FinancialHealth(tco: Breakdown, loanTerm: nat, monthlyIncome: real): (report: Option<HealthReport>)
    requires monthlyIncome > 0.0 ==> loanTerm > 0
    ensures report.None? <==> monthlyIncome <= 0.0
    ensures report.Some? ==> report.value.monthlyTco * (loanTerm * 12) as real == Get(tco, TotalLabel, 0.0)
    ensures report.Some? ==> report.value.status == Classify(report.value.ratio)
  {
    if monthlyIncome > 0.0 then
      var monthlyTco := Get(tco, TotalLabel, 0.0) / (loanTerm * 12) as real;
      var tcoRatio := (monthlyTco / monthlyIncome) * 100.0;
      Some(HealthReport(monthlyTco, tcoRatio, Classify(tcoRatio)))
    else
      None
  }

  /** The ratio is the monthly cost as a percentage of the income. */
  lemma HealthRatio(tco: Breakdown, loanTerm: nat, monthlyIncome: real)
    requires monthlyIncome > 0.0 && loanTerm > 0
    ensures var report := FinancialHealth(tco, loanTerm, monthlyIncome).value;
            report.ratio * monthlyIncome == report.monthlyTco * 100.0
  {
    var report := FinancialHealth(tco, loanTerm, monthlyIncome).value;
    var share := report.monthlyTco / monthlyIncome;
    assert share * monthlyIncome == report.monthlyTco;
    assert report.ratio == share * 100.0;
  }

  /**
   * An empty breakdown (what the cost calculator returns without a vehicle record) has no
   * total, so the check falls back to a cost of 0: Good.
   */
  lemma EmptyBreakdownIsHealthy(loanTerm: nat, monthlyIncome: real)
    requires monthlyIncome > 0.0 && loanTerm > 0
    ensures FinancialHealth([], loanTerm, monthlyIncome) == Some(HealthReport(0.0, 0.0, Good))
  {
  }

  /**
   * $1,200 a month against an income of $6,000 is exactly 20%, which the dashboard shows as
   * High-Risk.
   */
  lemma BoundaryScenario(loanTerm: nat)
    requires loanTerm > 0
    ensures FinancialHealth([Entry(TotalLabel, 1200.0 * (loanTerm * 12) as real)], loanTerm, 6000.0)
            == Some(HealthReport(1200.0, 20.0, HighRisk))
    ensures StatusText(FinancialHealth([Entry(TotalLabel, 1200.0 * (loanTerm * 12) as real)], loanTerm, 6000.0).value.status)
            == "High-Risk"
  {
    var months := (loanTerm * 12) as real;
    var tco := [Entry(TotalLabel, 1200.0 * months)];
    assert Get(tco, TotalLabel, 0.0) == 1200.0 * months;
    var report := FinancialHealth(tco, loanTerm, 6000.0).value;
    assert report.monthlyTco == 1200.0 by {
      QuotientUnique(1200.0 * months, months, 1200.0);
    }
  }

  // ---------------------------------------------------------------------------------------
  // The whole projection

  datatype Projection = Projection(
    principal: real,
    features: seq<Feature>,
    predictedRate: real,
    emi: real,
    totalLoanCost: real,
    totalInterest: real,
    tco: Breakdown,
    schedule: seq<ScheduleRow>,
    underwater: seq<real>,
    peakUnderwater: real)

  /**
   * Runs the calculation block for one set of inputs, with the vehicle looked up in the
   * catalog. The vehicle is one of the catalog's keys, as the dashboard only offers those.
   * The interest-rate model is a parameter: it receives the aligned feature row and returns
   * an annual percentage rate.
   */
  method Project(vehiclePrice: real, downPayment: real, loanTerm: nat, creditScoreLabel: string,
                 catalog: Catalog, vehicleModel: string, gasPrice: real, electricityPrice: real,
                 modelColumns: seq<string>, predict: seq<Feature> -> real)
    returns (p: Projection)
    requires creditScoreLabel in CreditScores && vehicleModel in catalog
    ensures p.principal == vehiclePrice - downPayment
    ensures |p.features| == |modelColumns|
    ensures forall i :: 0 <= i < |modelColumns| && modelColumns[i] == "vehicle_type_Used" ==> p.features[i].value == 0.0
    ensures p.predictedRate == predict(p.features)
    ensures p.features == Reindex(FeatureInput(CreditScores[creditScoreLabel], p.principal, loanTerm,
                                               DownPaymentPercentage(downPayment, vehiclePrice), 0.0), modelColumns)
    ensures p.emi == CalculateEmi(p.principal, p.predictedRate, loanTerm)
    ensures p.totalLoanCost == TotalLoanCost(p.emi, loanTerm)
    ensures p.totalInterest + p.principal == p.totalLoanCost
    ensures p.tco == CalculateTotalCostOfOwnership(Some(catalog[vehicleModel]), p.totalLoanCost, loanTerm,
                                                   gasPrice, electricityPrice)
    ensures Get(p.tco, TotalLabel, 0.0) == Sum(p.tco[..4])
    ensures |p.schedule| == loanTerm + 1 && |p.underwater| == loanTerm + 1
    ensures forall y :: 0 <= y < |p.schedule| ==> p.schedule[y] == RowAt(p.principal, p.predictedRate, p.emi, vehiclePrice, y)
    ensures p.underwater == UnderwaterAmounts(p.schedule) && |p.underwater| > 0 && p.peakUnderwater == Peak(p.underwater)
    ensures forall i :: 0 <= i < |p.underwater| ==> 0.0 <= p.underwater[i] <= p.peakUnderwater
    ensures downPayment >= 0.0 && vehiclePrice >= 0.0 ==> p.underwater[0] == 0.0
    ensures p.predictedRate >= 0.0 && loanTerm > 0 ==> p.schedule[loanTerm].loanBalance == 0.0
  {
    var vehicleInfo := GetVehicleInfo(catalog, vehicleModel);
    var principal := Principal(vehiclePrice, downPayment);
    var usedFlag := VehicleTypeUsedFlag(creditScoreLabel);
    UsedFlagAlwaysZero(creditScoreLabel);
    var input := FeatureInput(CreditScores[creditScoreLabel], principal, loanTerm,
                              DownPaymentPercentage(downPayment, vehiclePrice), usedFlag);
    var features := Reindex(input, modelColumns);
    var predictedRate := predict(features);
    var emi := CalculateEmi(principal, predictedRate, loanTerm);
    var totalLoanCost := TotalLoanCost(emi, loanTerm);
    var totalInterest := TotalInterest(emi, principal, loanTerm);
    var tco := CalculateTotalCostOfOwnership(vehicleInfo, totalLoanCost, loanTerm, gasPrice, electricityPrice);
    TotalIsSumOfComponents(vehicleInfo.value, totalLoanCost, loanTerm, gasPrice, electricityPrice);
    var schedule := GenerateAmortizationAndDepreciation(principal, predictedRate, loanTerm, emi, vehiclePrice, vehicleInfo);
    var underwater := UnderwaterAmounts(schedule);
    var peak := Peak(underwater);
    if downPayment >= 0.0 && vehiclePrice >= 0.0 {
      NotUnderwaterAtOrigination(vehiclePrice, downPayment, predictedRate, emi);
    }
    if predictedRate >= 0.0 && loanTerm > 0 {
      LastRowPaidOff(principal, predictedRate, loanTerm, vehiclePrice);
    }
    p := Projection(principal, features, predictedRate, emi, totalLoanCost, totalInterest, tco, schedule,
                    underwater, peak);
  }
}
