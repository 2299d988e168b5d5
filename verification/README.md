# Auto-loan planner: financial projection engine

A Dafny model of the calculation core of a small auto-loan planner. Given a vehicle price,
a down payment, a loan term, a credit profile and a monthly income, the planner

- looks the vehicle up in a catalog keyed by `make + " " + model`;
- aligns a feature row for an interest-rate predictor;
- computes the equated monthly installment (EMI) with the annuity formula;
- adds loan, insurance, maintenance and fuel or charging costs into a total cost of ownership
  (TCO) breakdown;
- builds a yearly schedule of the remaining loan balance next to a flat 15%-per-year
  depreciation of the vehicle;
- derives the "underwater" series (owing more than the car is worth) and its peak;
- classifies the monthly TCO as a share of income into Good, Borderline or High-Risk.

Money is exact `real` arithmetic, not IEEE floats. Powers are a recursive `Pow(x, n)`. Loan
terms are natural numbers of years.

Modules, one per file:

- `Wrappers` (`wrappers.dfy`): `Option`, standing for Python's `None`. Its `GetOr` function plays
  the part of `dict.get(key, default)`.
- `RealMath` (`real_math.dfy`): `Max`, `Pow` and the facts about them that the proofs use.
- `VehicleData` (`vehicle_data.dfy`): the vehicle record, loading the catalog and lookup.
- `Payments` (`payments.dfy`): the EMI, the month-by-month running balance, and the annuity
  closed forms behind the payoff and recovery properties.
- `Schedule` (`schedule.dfy`): the yearly amortization and depreciation schedule. It is a
  method with nested loops, as in the source, and is proved equal row by row to a reference
  definition.
- `Ownership` (`ownership.dfy`): the TCO breakdown. It is an insertion-ordered list of named
  amounts, so the empty dictionary and the key order are both represented.
- `Planner` (`planner.dfy`): the dashboard's calculation block and health check as pure
  functions, plus `Project`, which composes them for one set of inputs.

The interest-rate predictor is a parameter of `Project`: any function from the feature row to
a rate.

## Model

| member | source | states |
|---|---|---|
| `VehicleData.Key` | finance_calculator.py:15 | the key is the make, one space, then the model |
| `VehicleData.Index` | finance_calculator.py:15-16 | the catalog's keys are exactly the `make + " " + model` keys of the loaded rows |
| `VehicleData.LoadCatalog` | finance_calculator.py:12-18 | a missing file gives an empty catalog; otherwise every row's key is present |
| `VehicleData.GetVehicleInfo` | finance_calculator.py:25-27 | lookup finds a record exactly when the key is in the catalog, and returns that key's record |
| `VehicleData.IndexFindsRow` | finance_calculator.py:15-16 | in a table without duplicate keys, every row is indexed under its own key |
| `VehicleData.LookupFindsRow` | finance_calculator.py:15-26 | looking up a row's `make + " " + model` returns that row |
| `VehicleData.LookupMissing` | finance_calculator.py:17-27 | a key no row carries, or any key after a missing file, gives `None` |
| `Payments.CalculateEmiAsWritten` | finance_calculator.py:29-37 | the EMI as written fails exactly when the rate is positive and the term is zero: with plain Python numbers that is a division by zero; with the NumPy float rate the predictor returns, the same division gives inf (nan for a zero principal) with a warning and no exception |
| `Payments.CalculateEmi` | finance_calculator.py:29-37 | a zero term or a zero principal gives 0; for a non-positive rate the payments over the term sum to exactly the principal |
| `Payments.MonthlyRate` | finance_calculator.py:31 | the monthly rate times 1,200 is the annual percentage, and it is positive exactly when the annual rate is |
| `Payments.TermMonths` | finance_calculator.py:32 | the month count is a whole multiple of 12 that gives back the term in years |
| `Payments.EmiAsWrittenAgrees` | finance_calculator.py:33-36 | the corrected EMI equals the source's on every positive term; on a zero term the source fails for a positive rate and gives 0 otherwise |
| `Payments.EmiAsWrittenZeroTermFails` | finance_calculator.py:33-34 | a 36,000 loan at 6% over zero years: the source fails, the corrected EMI is 0 |
| `Payments.MonthStep` | finance_calculator.py:94-97 | one month grows the balance by the monthly rate and deducts the EMI |
| `Payments.RunningBalanceZeroRate` | finance_calculator.py:94-97 | at a zero rate the balance after k months is the principal less k payments |
| `Payments.RunningBalanceClosedForm` | finance_calculator.py:94-97 | after k monthly steps the balance is the principal grown by (1+m)^k less the EMI times the annuity factor 1 + q + ... + q^(k-1) |
| `Payments.EmiAnnuityForm` | finance_calculator.py:33-34 | for a positive rate and term, EMI times the annuity factor equals the principal grown over the whole term |
| `Payments.EmiRecoversPrincipal` | finance_calculator.py:33-36 | with principal and rate non-negative and a positive term, EMI times the number of months is at least the principal |
| `Payments.FinalBalanceIsZero` | finance_calculator.py:94-97 | paying the computed EMI for all months at a non-negative rate leaves a running balance of exactly 0 |
| `Payments.EmiNonNegative` | finance_calculator.py:29-37 | a non-negative principal and rate never give a negative EMI |
| `Payments.BalanceNonNegativeBefore` | finance_calculator.py:94-97 | with a non-negative rate and EMI, a balance that is non-negative after m months was non-negative after every earlier month |
| `Payments.ClampHarmless` | finance_calculator.py:94-104 | with a non-negative principal and rate, paying the computed EMI keeps the running balance at or above 0 at every month of the term, so the clamp never changes a recorded value |
| `Schedule.GenerateAmortizationAndDepreciation` | finance_calculator.py:76-108 | the schedule has term + 1 rows; row y has year y, the running balance after 12*y monthly steps clamped at 0 only in the record, and the depreciated value |
| `Schedule.FirstRow` | finance_calculator.py:89-106 | row 0 holds the principal and the full vehicle price |
| `Schedule.RetainedShare` | finance_calculator.py:87-100 | the share of the price kept after any number of years lies between 0 and 1 |
| `Schedule.DepreciatedValue` | finance_calculator.py:87-100 | for a non-negative price the value at any year lies between 0 and the price |
| `Schedule.DepreciationCurve` | finance_calculator.py:87-100 | the value at every year, origination included, is price * 0.85^year |
| `Schedule.DepreciationNonIncreasing` | finance_calculator.py:87-100 | for a non-negative price the value is non-negative and never rises from one year to a later one |
| `Schedule.DepreciationDecreasing` | finance_calculator.py:87-100 | for a positive price the value strictly falls from year to year |
| `Schedule.RowAt` | finance_calculator.py:102-106 | the row for year y is labelled y; its balance is at least 0 and at least the running balance after 12*y months, and is one of the two |
| `Schedule.RecordedBalanceIsRunning` | finance_calculator.py:94-104 | with the computed EMI, a non-negative principal and rate, every row of the term records the running balance itself, unclamped |
| `Schedule.LastRowPaidOff` | finance_calculator.py:94-104 | with the computed EMI, a non-negative rate and a positive term, the last row's balance is 0 |
| `Ownership.Get` | app.py:234 | a key that is present yields the amount of its first entry; otherwise the default |
| `Ownership.CalculateTotalCostOfOwnership` | finance_calculator.py:39-74 | no vehicle gives the empty breakdown and only then; otherwise the keys are Loan Payments, Insurance, Maintenance, Fuel/Charging, Total TCO in that order |
| `Ownership.TotalIsSumOfComponents` | finance_calculator.py:47-74 | Total TCO is the sum of the four components; loan payments pass through; insurance and maintenance are the annual figure (default 0) times the term; fuel uses the record's fuel type (default Gas) and efficiency (default 30) |
| `Ownership.FuelChargingCost` | finance_calculator.py:56-64 | a gas car with non-positive efficiency, and any fuel type other than Gas or Electric, costs 0 |
| `Ownership.GasCost` | finance_calculator.py:57-60 | for a positive efficiency, gas cost times efficiency is 12,000 miles times the gas price times the term |
| `Ownership.ElectricCost` | finance_calculator.py:61-64 | electric cost is 120 * efficiency * electricity price * term |
| `Ownership.FuelCostPerYear` | finance_calculator.py:56-64 | the cost over a term is the one-year cost times the number of years, for every fuel type |
| `Ownership.OtherPriceIrrelevant` | finance_calculator.py:56-64 | the electricity price never changes a gas car's cost, and the gas price never changes an electric car's |
| `Ownership.FuelCostNonNegative` | finance_calculator.py:56-64 | non-negative prices and efficiency never give a negative fuel or charging cost |
| `Ownership.GasScenario` | finance_calculator.py:57-60 | 30 miles per gallon at $3.50 for five years costs $7,000 |
| `Planner.Principal` | app.py:148 | principal plus down payment is the price; within the slider bounds the principal lies between 0 and the price |
| `Planner.DownPaymentPercentage` | app.py:152 | the fraction times the price is the down payment when the price is positive, 0 otherwise; within the slider bounds it lies in [0, 1] |
| `Planner.VehicleType` | app.py:149 | the type is Used or New; it is Used exactly when "Used" occurs at some position of the label, and then the label contains a capital U |
| `Planner.ContainsAt` | app.py:149 | Python's `sub in s` holds exactly when `sub` occurs in `s` at some index |
| `Planner.VehicleTypeUsedFlag` | app.py:153 | the flag is 0 or 1, 1 exactly for a used vehicle, and 0 for a label without a capital U |
| `Planner.UsedFlagAlwaysZero` | app.py:149-153 | no credit-score label contains "Used", so the used-vehicle feature is always 0 |
| `Planner.FeatureInput` | app.py:150-154 | the supplied features are exactly credit score, loan amount, term, down-payment fraction and the used flag, each holding its input |
| `Planner.Reindex` | app.py:150-155 | the feature row has the predictor's columns in order; supplied columns keep their value and missing columns hold 0 |
| `Planner.ReindexIgnoresExtraKeys` | app.py:155 | a supplied feature with no predictor column does not change the row |
| `Planner.TotalLoanCost` | app.py:158 | for a positive term the total divided by the number of months is the EMI; a zero term costs 0 |
| `Planner.TotalInterest` | app.py:159 | interest plus principal is the total loan cost |
| `Planner.ZeroRateNoInterest` | app.py:157-159 | with a non-positive rate and a positive term the total interest is 0 |
| `Planner.InterestNonNegative` | app.py:157-159 | with principal and rate non-negative and a positive term the total interest is at least 0 |
| `Planner.UnderwaterAmounts` | app.py:165 | one amount per schedule row, each max(0, balance - value) |
| `Planner.Peak` | app.py:166 | the peak is at least every element and is one of them |
| `Planner.PeakUnderwaterNonNegative` | app.py:165-166 | the peak underwater amount is at least 0 |
| `Planner.NotUnderwaterAtOrigination` | app.py:148-166 | with a non-negative price and down payment, the year-0 underwater amount is 0 |
| `Planner.Classify` | app.py:237-242 | below 15 is Good, 15 up to but excluding 20 is Borderline, 20 and above is High-Risk |
| `Planner.ClassifyMonotone` | app.py:237-242 | a higher ratio never falls into a less risky band |
| `Planner.FinancialHealth` | app.py:233-242 | a report exists exactly when income is positive; monthly TCO times the months is Total TCO (0 if absent); the status is the band of the ratio |
| `Planner.HealthRatio` | app.py:234-235 | the ratio times the income is 100 times the monthly TCO |
| `Planner.EmptyBreakdownIsHealthy` | app.py:233-238 | an empty breakdown, which has no Total TCO entry, gives monthly cost 0, ratio 0 and Good |
| `Planner.BoundaryScenario` | app.py:233-242 | a Total TCO of $1,200 per month of the term against a $6,000 income gives monthly TCO 1,200, ratio 20 and High-Risk, displayed as "High-Risk" |
| `Planner.Project` | app.py:131-166 | the composed calculation, for a vehicle picked from the catalog: the principal is price less down payment; the feature row is the reindexed feature input with the used flag 0; the rate is the predictor's value on that row; the EMI, total loan cost, interest and TCO come from them, with TCO total the sum of its parts; schedule row y is the reference row for year y; the underwater series is max(0, balance - value) per row; the peak is its maximum, which bounds every non-negative amount; year 0 is not underwater; the last balance is 0 for a non-negative rate |

## Left out

- Reading the CSV file and pandas' DataFrame mechanics are not modelled. The catalog is a map
  built from a sequence of rows, and `None` stands for a missing file.
- VehicleData.Key: the key does not determine the make and model. When a make or model contains
  a space, two different pairs can share a key ("Land Rover" with "Defender" and "Land" with
  "Rover Defender"). This is why the distinct-key requirement below is stated on keys.
- VehicleData.LookupFindsRow: requires distinct keys. Duplicate keys in the vehicle table are
  not modelled; with them pandas returns several rows for one key. `Index` keeps the last row
  for a key.
- The empty-dictionary case of the TCO input is represented only as `None`. A row's dictionary
  always holds `make` and `model`, so a looked-up record is never empty.
- Model and column loading with `joblib`, `model.predict` and `feature_importances_` are not
  modelled. The predictor is an opaque external model, so it becomes a function parameter of
  `Project`.
- The list of model names for the selection box (app.py:131) is not modelled. It is user
  interface.
- Planner.Project: requires the vehicle to be a key of the catalog, as the selection box only
  offers those. For any other name the app fails before the calculation block: the lookup
  gives `None` and `vehicle_info.get` at app.py:138 raises AttributeError. The empty breakdown
  that the cost calculator returns without a record (covered by
  `Ownership.CalculateTotalCostOfOwnership` and `Planner.EmptyBreakdownIsHealthy`) is
  therefore never reached from the dashboard.
- The default gas and electricity prices the sidebar substitutes (app.py:140-145) are not
  modelled. They are user interface; `Project` takes both prices as inputs.
- Streamlit layout, styling and rendering, the Plotly charts and the pie-label relabelling are
  not modelled. They are presentation.
- IEEE-754 rounding is not modelled; all arithmetic is exact. `FinalBalanceIsZero` and
  `LastRowPaidOff` therefore state an exact 0, where the source's floats come out near 0 and
  the clamp at finance_calculator.py:104 absorbs a small negative drift. Under exact arithmetic
  the clamp never binds for a non-negative principal and rate (`Payments.ClampHarmless`).
- The demonstration block at the end of finance_calculator.py is not modelled. It only prints.
- Negative loan terms cannot be expressed, because terms are natural numbers. The interface
  offers only 3 to 7 years.
- Planner.FinancialHealth: requires a positive term whenever the income is positive. The source
  divides by the number of months there, and the interface never offers a zero term.
- Planner.Peak: requires a non-empty series. The schedule always has at least one row; pandas
  would return NaN for an empty one.
- Planner.NotUnderwaterAtOrigination: requires a non-negative price as well as a non-negative
  down payment. With a negative price the clamped balance of 0 exceeds the value. The price
  slider starts at 5,000.
- Schedule.FirstRow: requires a non-negative principal. Row 0 records the principal clamped at
  0, so a down payment above the price shows 0.

## Findings

| source | as written | input that shows it | evidently intended | confidence | as-written member | corrected member |
|---|---|---|---|---|---|---|
| finance_calculator.py:33-36 | with a positive rate and a zero term the annuity denominator `(1 + r)^0 - 1` is 0 and the division fails; only the zero-rate branch guards `term_months > 0` | principal 36,000, rate 6, term 0 years | a zero term yields an EMI of 0 whatever the rate, as the zero-rate branch already does | medium; not executed; the interface only offers terms of 3 to 7 years, so the app never reaches it; with the NumPy float rate the predictor returns, the division yields inf (nan for a zero principal) with a warning instead of raising | `Payments.CalculateEmiAsWritten` | `Payments.CalculateEmi` |

`Payments.EmiAsWrittenZeroTermFails` exhibits the input. `Payments.EmiAsWrittenAgrees` shows
that the two members agree on every positive term. The rest of the model uses
`Payments.CalculateEmi`.
