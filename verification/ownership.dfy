/**
 * Total cost of ownership: loan payments plus insurance, maintenance and fuel or charging over
 * the loan term, as an ordered breakdown of named amounts.
 */
module Ownership {
  import opened Wrappers
  import opened VehicleData

  /** The distance driven per year that fuel and charging costs assume. */
  const AnnualMiles: real := 12000.0

  /** The efficiency assumed when the vehicle record has none. */
  const DefaultEfficiency: real := 30.0

  const LoanPaymentsLabel: string := "Loan Payments"
  const InsuranceLabel: string := "Insurance"
  const MaintenanceLabel: string := "Maintenance"
  const FuelChargingLabel: string := "Fuel/Charging"
  const TotalLabel: string := "Total TCO"

  /** One named amount of a breakdown. */
  datatype Entry = Entry(name: string, amount: real)

  /** An insertion-ordered dictionary of amounts; the empty breakdown is the empty dictionary. */
  type Breakdown = seq<Entry>

  function Labels(b: Breakdown): (labels: seq<string>)
    ensures |labels| == |b|
    ensures forall i :: 0 <= i < |b| ==> labels[i] == b[i].name
  {
    if b == [] then [] else [b[0].name] + Labels(b[1..])
  }

  /** The amount under `name`, or `default` when no entry has it (`dict.get`). */
  function Get(b: Breakdown, name: string, default: real): (r: real)
    ensures (exists i :: 0 <= i < |b| && b[i].name == name) || r == default
    ensures forall i :: 0 <= i < |b| && b[i].name == name && (forall j :: 0 <= j < i ==> b[j].name != name)
              ==> r == b[i].amount
  {
    if b == [] then default
    else if b[0].name == name then b[0].amount
    else Get(b[1..], name, default)
  }

  /** The sum of the amounts. */
  function Sum(b: Breakdown): real
  {
    if b == [] then 0.0 else b[0].amount + Sum(b[1..])
  }

  /**
   * Fuel or charging cost over the term. Gas efficiency is miles per gallon, with a
   * non-positive efficiency counting as no consumption; electric efficiency is kWh per 100
   * miles; any other fuel type costs nothing.
   */
  function FuelChargingCost(fuelType: string, efficiency: real, gasPrice: real, electricityPrice: real,
                            termYears: nat): (cost: real)
    ensures fuelType == "Gas" && efficiency <= 0.0 ==> cost == 0.0
    ensures fuelType != "Gas" && fuelType != "Electric" ==> cost == 0.0
  {
    if fuelType == "Gas" then
      var gallonsPerYear := if efficiency > 0.0 then AnnualMiles / efficiency else 0.0;
      gallonsPerYear * gasPrice * termYears as real
    else if fuelType == "Electric" then
      var kwhPerYear := (AnnualMiles / 100.0) * efficiency;
      kwhPerYear * electricityPrice * termYears as real
    else
      0.0
  }

  /**
   * The breakdown for a vehicle, or the empty breakdown when there is no vehicle. Missing
   * record fields default to zero costs, a Gas fuel type and an efficiency of 30.
   */
  function CalculateTotalCostOfOwnership(vehicleInfo: Option<VehicleRecord>, totalLoanCost: real,
                                         termYears: nat, gasPrice: real, electricityPrice: real): (b: Breakdown)
    ensures vehicleInfo.None? <==> b == []
    ensures vehicleInfo.Some? ==>
              Labels(b) == [LoanPaymentsLabel, InsuranceLabel, MaintenanceLabel, FuelChargingLabel, TotalLabel]
  {
    match vehicleInfo
    case None => []
    case Some(info) =>
      var insuranceCost := info.insurancePerYear.GetOr(0.0) * termYears as real;
      var maintenanceCost := info.maintenancePerYear.GetOr(0.0) * termYears as real;
      var fuelType := info.fuelType.GetOr("Gas");
      var efficiency := info.efficiency.GetOr(DefaultEfficiency);
      var totalFuelChargingCost := FuelChargingCost(fuelType, efficiency, gasPrice, electricityPrice, termYears);
      var totalTco := totalLoanCost + insuranceCost + maintenanceCost + totalFuelChargingCost;
      [ Entry(LoanPaymentsLabel, totalLoanCost),
        Entry(InsuranceLabel, insuranceCost),
        Entry(MaintenanceLabel, maintenanceCost),
        Entry(FuelChargingLabel, totalFuelChargingCost),
        Entry(TotalLabel, totalTco) ]
  }

  /**
   * No hidden costs: the total is the sum of the four components before it, and each component
   * is the annual figure over the term.
   */
  lemma TotalIsSumOfComponents(info: VehicleRecord, totalLoanCost: real, termYears: nat, gasPrice: real,
                               electricityPrice: real)
    ensures var b := CalculateTotalCostOfOwnership(Some(info), totalLoanCost, termYears, gasPrice, electricityPrice);
            && Get(b, TotalLabel, 0.0) == Sum(b[..4])
            && Get(b, LoanPaymentsLabel, 0.0) == totalLoanCost
            && Get(b, InsuranceLabel, 0.0) == info.insurancePerYear.GetOr(0.0) * termYears as real
            && Get(b, MaintenanceLabel, 0.0) == info.maintenancePerYear.GetOr(0.0) * termYears as real
            && Get(b, FuelChargingLabel, 0.0)
               == FuelChargingCost(info.fuelType.GetOr("Gas"), info.efficiency.GetOr(DefaultEfficiency),
                                   gasPrice, electricityPrice, termYears)
  {
    var insuranceCost := info.insurancePerYear.GetOr(0.0) * termYears as real;
    var maintenanceCost := info.maintenancePerYear.GetOr(0.0) * termYears as real;
    var fuelCost := FuelChargingCost(info.fuelType.GetOr("Gas"), info.efficiency.GetOr(DefaultEfficiency),
                                     gasPrice, electricityPrice, termYears);
    var total := totalLoanCost + insuranceCost + maintenanceCost + fuelCost;
    var b := CalculateTotalCostOfOwnership(Some(info), totalLoanCost, termYears, gasPrice, electricityPrice);
    assert |b| == 5;
    assert b[0] == Entry(LoanPaymentsLabel, totalLoanCost);
    assert b[1] == Entry(InsuranceLabel, insuranceCost);
    assert b[2] == Entry(MaintenanceLabel, maintenanceCost);
    assert b[3] == Entry(FuelChargingLabel, fuelCost);
    assert b[4] == Entry(TotalLabel, total);
    assert b == [ Entry(LoanPaymentsLabel, totalLoanCost), Entry(InsuranceLabel, insuranceCost),
             Entry(MaintenanceLabel, maintenanceCost), Entry(FuelChargingLabel, fuelCost),
             Entry(TotalLabel, total) ];
    FiveEntryLookups(totalLoanCost, insuranceCost, maintenanceCost, fuelCost, total);
  }

  /** Lookups and the component sum in a breakdown laid out as the calculation lays it out. */
  lemma FiveEntryLookups(loan: real, insurance: real, maintenance: real, fuel: real, total: real)
    ensures var b := [ Entry(LoanPaymentsLabel, loan), Entry(InsuranceLabel, insurance),
                       Entry(MaintenanceLabel, maintenance), Entry(FuelChargingLabel, fuel),
                       Entry(TotalLabel, total) ];
            && Sum(b[..4]) == loan + insurance + maintenance + fuel
            && Get(b, TotalLabel, 0.0) == total
            && Get(b, LoanPaymentsLabel, 0.0) == loan
            && Get(b, InsuranceLabel, 0.0) == insurance
            && Get(b, MaintenanceLabel, 0.0) == maintenance
            && Get(b, FuelChargingLabel, 0.0) == fuel
  {
    var b := [ Entry(LoanPaymentsLabel, loan), Entry(InsuranceLabel, insurance),
               Entry(MaintenanceLabel, maintenance), Entry(FuelChargingLabel, fuel),
               Entry(TotalLabel, total) ];
    var parts := b[..4];
    assert parts[1..][1..][1..][1..] == [];
    assert Sum(parts[1..][1..][1..]) == parts[3].amount;
    assert Sum(parts[1..][1..]) == parts[2].amount + parts[3].amount;
    assert Sum(parts[1..]) == parts[1].amount + parts[2].amount + parts[3].amount;
    assert Sum(parts) == loan + insurance + maintenance + fuel;
    assert forall j :: 0 <= j < 4 ==> b[j].name != TotalLabel;
    assert Get(b, TotalLabel, 0.0) == b[4].amount;
    assert Get(b, LoanPaymentsLabel, 0.0) == b[0].amount;
    assert b[0].name != InsuranceLabel;
    assert Get(b, InsuranceLabel, 0.0) == b[1].amount;
    assert forall j :: 0 <= j < 2 ==> b[j].name != MaintenanceLabel;
    assert Get(b, MaintenanceLabel, 0.0) == b[2].amount;
    assert forall j :: 0 <= j < 3 ==> b[j].name != FuelChargingLabel;
    assert Get(b, FuelChargingLabel, 0.0) == b[3].amount;
  }

  /** Gas cost is the gallons for the annual mileage at the gas price over the term. */
  lemma GasCost(efficiency: real, gasPrice: real, electricityPrice: real, termYears: nat)
    requires efficiency > 0.0
    ensures FuelChargingCost("Gas", efficiency, gasPrice, electricityPrice, termYears) * efficiency
            == AnnualMiles * gasPrice * termYears as real
  {
    var g := AnnualMiles / efficiency;
    assert g * efficiency == AnnualMiles;
    calc {
      FuelChargingCost("Gas", efficiency, gasPrice, electricityPrice, termYears) * efficiency;
      (g * gasPrice * termYears as real) * efficiency;
      (g * efficiency) * (gasPrice * termYears as real);
    }
  }

  /** Electric cost is the kWh for the annual mileage at the electricity price over the term. */
  lemma ElectricCost(efficiency: real, gasPrice: real, electricityPrice: real, termYears: nat)
    ensures FuelChargingCost("Electric", efficiency, gasPrice, electricityPrice, termYears)
            == 120.0 * efficiency * electricityPrice * termYears as real
  {
  }

  /** The cost over a term is the cost of one year times the number of years. */
  lemma FuelCostPerYear(fuelType: string, efficiency: real, gasPrice: real, electricityPrice: real, termYears: nat)
    ensures FuelChargingCost(fuelType, efficiency, gasPrice, electricityPrice, termYears)
            == termYears as real * FuelChargingCost(fuelType, efficiency, gasPrice, electricityPrice, 1)
  {
    var t := termYears as real;
    if fuelType == "Gas" {
      var g := if efficiency > 0.0 then AnnualMiles / efficiency else 0.0;
      assert g * gasPrice * t == t * (g * gasPrice * 1.0);
    } else if fuelType == "Electric" {
      var k := (AnnualMiles / 100.0) * efficiency;
      assert k * electricityPrice * t == t * (k * electricityPrice * 1.0);
    }
  }

  /** The price of the fuel a vehicle does not use never affects its cost. */
  lemma OtherPriceIrrelevant(fuelType: string, efficiency: real, gasPrice: real, gasPrice': real,
                             electricityPrice: real, electricityPrice': real, termYears: nat)
    ensures fuelType == "Gas" ==>
              FuelChargingCost(fuelType, efficiency, gasPrice, electricityPrice, termYears)
              == FuelChargingCost(fuelType, efficiency, gasPrice, electricityPrice', termYears)
    ensures fuelType == "Electric" ==>
              FuelChargingCost(fuelType, efficiency, gasPrice, electricityPrice, termYears)
              == FuelChargingCost(fuelType, efficiency, gasPrice', electricityPrice, termYears)
  {
  }

  /** With non-negative prices and efficiency, fuel or charging never costs a negative amount. */
  lemma FuelCostNonNegative(fuelType: string, efficiency: real, gasPrice: real, electricityPrice: real,
                            termYears: nat)
    requires efficiency >= 0.0 && gasPrice >= 0.0 && electricityPrice >= 0.0
    ensures FuelChargingCost(fuelType, efficiency, gasPrice, electricityPrice, termYears) >= 0.0
  {
    var t := termYears as real;
    if fuelType == "Gas" && efficiency > 0.0 {
      var g := AnnualMiles / efficiency;
      assert g >= 0.0;
      assert g * gasPrice >= 0.0;
      assert g * gasPrice * t >= 0.0;
    } else if fuelType == "Electric" {
      var k := (AnnualMiles / 100.0) * efficiency;
      assert k * electricityPrice >= 0.0;
      assert k * electricityPrice * t >= 0.0;
    }
  }

  /** A gas car at 30 miles per gallon and $3.50 a gallon costs $7,000 in fuel over five years. */
  lemma GasScenario()
    ensures FuelChargingCost("Gas", 30.0, 3.5, 0.15, 5) == 7000.0
  {
  }
}
