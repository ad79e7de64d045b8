/**
 * The recalculation of the React financing planner: the shared engine plus the
 * equity ratio, returned as either the equity error (what the component shows
 * with its error message) or the full result record.
 */
module FinancingPlanner {
  import opened Annuity

  /** The equity ratio as a percentage of the price. JavaScript divides a positive net
      equity by a zero price to Infinity, which the number input allows. */
  datatype EquityRatio = Percent(value: real) | PlusInfinity

  /** The component's outcome: the error it reports, or the results it displays. */
  datatype Result =
    | Err(acquisitionCosts: real, shortfall: real)
    | Ok(record: Plan, equityRatio: EquityRatio)

  /** The equity ratio of a success; the engine already rules out a zero net equity on
      a zero price, since that would make the loan zero. */
  function Ratio(netEquity: real, purchasePrice: real): EquityRatio
  {
    if purchasePrice == 0.0 then PlusInfinity else Percent((netEquity / purchasePrice) * 100.0)
  }

  function Calculate(inputs: Inputs, ln: real -> real): (r: Result)
    requires NetEquity(inputs.purchasePrice, inputs.equity) >= 0.0 ==> Amortizable(inputs)
    requires LnPositiveAboveOne(ln)
    ensures r.Err? <==> inputs.equity < inputs.purchasePrice * AcquisitionCostRate
    ensures r.Err? ==> r.acquisitionCosts == inputs.purchasePrice * AcquisitionCostRate
                       && r.shortfall == r.acquisitionCosts - inputs.equity
                       && r.shortfall > 0.0
    ensures r.Ok? && inputs.purchasePrice != 0.0 ==>
              r.equityRatio == Percent(r.record.netEquity / inputs.purchasePrice * 100.0)
    ensures r.Ok? && inputs.purchasePrice == 0.0 ==>
              r.equityRatio == PlusInfinity && r.record.netEquity > 0.0
  {
    FinanceInvariants(inputs, ln);
    match Finance(inputs, ln)
    case InsufficientEquity(costs, shortfall) => Err(costs, shortfall)
    case Feasible(plan) => Ok(plan, Ratio(plan.netEquity, inputs.purchasePrice))
  }

  /** A successful result satisfies the engine's identities, and its equity ratio is
      non-negative for a positive price. */
  lemma CalculateInvariants(inputs: Inputs, ln: real -> real)
    requires NetEquity(inputs.purchasePrice, inputs.equity) >= 0.0 ==> Amortizable(inputs)
    requires LnPositiveAboveOne(ln)
    ensures var r := Calculate(inputs, ln);
            r.Ok? ==>
              && r.record.loanAmount + r.record.netEquity == inputs.purchasePrice
              && r.record.monthlyInterest + r.record.monthlyRepayment == r.record.monthlyBankRate
              && r.record.totalMonthlyCost
                 == r.record.monthlyBankRate + inputs.maintenanceFee + inputs.privateReserve
              && r.record.remainingDebt10 >= 0.0
              && (inputs.purchasePrice > 0.0 ==> r.equityRatio.Percent? && r.equityRatio.value >= 0.0)
  {
    FinanceInvariants(inputs, ln);
    var r := Calculate(inputs, ln);
    if r.Ok? && inputs.purchasePrice > 0.0 {
      assert r.record.netEquity >= 0.0;
      assert r.record.netEquity / inputs.purchasePrice >= 0.0;
    }
  }

  /** The component's initial inputs. */
  const DefaultInputs: Inputs := Inputs(800000.0, 300000.0, 3.8, 2.0, 500.0, 150.0)

  /** The initial inputs yield these exact figures and a finite term. */
  lemma DefaultScenario(ln: real -> real)
    requires LnPositiveAboveOne(ln)
    ensures NetEquity(DefaultInputs.purchasePrice, DefaultInputs.equity) >= 0.0
    ensures Amortizable(DefaultInputs)
    ensures var r := Calculate(DefaultInputs, ln);
            && r.Ok?
            && r.record.acquisitionCosts == 68560.0
            && r.record.netEquity == 231440.0
            && r.record.loanAmount == 568560.0
            && r.record.monthlyBankRate == 2748.04
            && r.record.monthlyInterest == 1800.44
            && r.record.monthlyRepayment == 947.60
            && r.record.totalMonthlyCost == 3398.04
            && r.record.termYears.Finite?
            && r.record.remainingDebt10 == 433295.6463388619743754638947508224
            && r.equityRatio == Percent(28.93)
  {
    TermNeverRepaysIffNoRepayment(568560.0, 3.8, 2.0, ln);
    DefaultRemainingDebt();
  }

  /** The ten-year remaining debt of the initial inputs' loan, as an exact rational. */
  lemma DefaultRemainingDebt()
    ensures RemainingDebt(568560.0, 3.8, 2.0, 10) == 433295.6463388619743754638947508224
  {
    RemainingDebtIsClampedBalance(568560.0, 3.8, 2.0, 10);
    assert Balance(568560.0, 3.8, 2.0, 10) == 433295.6463388619743754638947508224;
  }

  /** Too little equity for the acquisition costs: 500000 at 8.57% costs 42850, so
      20000 of equity falls 22850 short. */
  lemma InsufficientEquityScenario(ln: real -> real)
    requires LnPositiveAboveOne(ln)
    ensures Calculate(Inputs(500000.0, 20000.0, 3.5, 2.0, 0.0, 0.0), ln) == Err(42850.0, 22850.0)
  {
  }

  /** A zero price with positive equity: the whole equity is lent back as a negative
      loan and the ratio is infinite. */
  lemma ZeroPriceScenario(ln: real -> real)
    requires LnPositiveAboveOne(ln)
    ensures var r := Calculate(Inputs(0.0, 50000.0, 3.8, 2.0, 0.0, 0.0), ln);
            r.Ok? && r.record.loanAmount == -50000.0 && r.equityRatio == PlusInfinity
  {
  }
}
