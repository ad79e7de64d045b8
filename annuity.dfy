/**
 * The mortgage financing engine shared by the React planner (App.jsx) and the
 * two Python scripts: acquisition costs, the equity gate, loan sizing, the
 * monthly payment split, the payoff term and the remaining debt after a number
 * of years. All arithmetic is exact over `real`; the natural logarithm, which
 * Dafny does not have, is a parameter `ln` of which only positivity above 1 is
 * assumed.
 */
module Annuity {

  // Acquisition cost rates (land transfer tax, notary, broker), summed to 8.57%.
  const LandTransferTaxRate: real := 0.035
  const NotaryRate: real := 0.015
  const BrokerRate: real := 0.0357
  const AcquisitionCostRate: real := LandTransferTaxRate + NotaryRate + BrokerRate

  /** The six inputs of one recalculation. Rates are annual percentages. */
  datatype Inputs = Inputs(
    purchasePrice: real,
    equity: real,
    interestRate: real,
    repaymentRate: real,
    maintenanceFee: real,
    privateReserve: real)

  /** The payoff term: a computed number of years, or the "never repays" state
      that the source encodes as the sentinel 999. */
  datatype Term = Finite(years: real) | NeverRepays

  /** The sentinel the source stores in place of a term that never ends. */
  const NeverRepaysSentinel: real := 999.0

  /** The term as the source stores it: a number, with 999 for "never repays". */
  function Reported(term: Term): real
  {
    match term
    case Finite(years) => years
    case NeverRepays => NeverRepaysSentinel
  }

  /** Everything one successful recalculation derives. */
  datatype Plan = Plan(
    acquisitionCosts: real,
    netEquity: real,
    loanAmount: real,
    monthlyBankRate: real,
    monthlyInterest: real,
    monthlyRepayment: real,
    termYears: Term,
    remainingDebt10: real,
    totalMonthlyCost: real)

  /** Either the equity gate fails, carrying the costs and the shortfall, or a plan. */
  datatype Financing =
    | InsufficientEquity(acquisitionCosts: real, shortfall: real)
    | Feasible(plan: Plan)

  // ---------------------------------------------------------------------------
  // Acquisition costs, equity and loan

  function AcquisitionCosts(purchasePrice: real): real
  {
    purchasePrice * AcquisitionCostRate
  }

  function NetEquity(purchasePrice: real, equity: real): real
  {
    equity - AcquisitionCosts(purchasePrice)
  }

  function LoanAmount(purchasePrice: real, netEquity: real): real
  {
    purchasePrice - netEquity
  }

  // ---------------------------------------------------------------------------
  // Monthly payment and its split

  /** The interest share of the monthly payment: the monthly interest factor of the
      term formula applied to the loan, positive for a positive loan and rate. */
  function MonthlyInterest(loan: real, interestRate: real): (r: real)
    ensures r == MonthlyInterestFactor(interestRate) * loan
    ensures loan > 0.0 && interestRate > 0.0 ==> r > 0.0
  {
    assert loan > 0.0 && interestRate > 0.0 ==> loan * interestRate > 0.0;
    (loan * (interestRate / 100.0)) / 12.0
  }

  /** The repayment share of the monthly payment: on a positive loan it is positive
      exactly for a positive repayment rate, and zero without repayment. */
  function MonthlyRepayment(loan: real, repaymentRate: real): (r: real)
    ensures loan > 0.0 ==> (r > 0.0 <==> repaymentRate > 0.0)
    ensures repaymentRate == 0.0 ==> r == 0.0
  {
    assert loan > 0.0 && repaymentRate > 0.0 ==> loan * repaymentRate > 0.0;
    assert loan > 0.0 && repaymentRate <= 0.0 ==> loan * repaymentRate <= 0.0;
    (loan * (repaymentRate / 100.0)) / 12.0
  }

  /** The monthly bank rate splits exactly into interest and repayment, and it vanishes
      exactly for a zero loan or a zero combined rate. */
  function MonthlyBankRate(loan: real, interestRate: real, repaymentRate: real): (r: real)
    ensures r == MonthlyInterest(loan, interestRate) + MonthlyRepayment(loan, repaymentRate)
    ensures r == 0.0 <==> loan == 0.0 || interestRate + repaymentRate == 0.0
  {
    var annuityRate := interestRate + repaymentRate;
    var annualBankRate := loan * (annuityRate / 100.0);
    assert loan * (annuityRate / 100.0)
        == loan * (interestRate / 100.0) + loan * (repaymentRate / 100.0);
    assert loan != 0.0 && annuityRate != 0.0 ==> loan * annuityRate != 0.0;
    annualBankRate / 12.0
  }

  // Facts of field arithmetic, stated apart so that the solver sees them alone.

  lemma DivCancel(a: real, d: real)
    requires d != 0.0
    ensures (a * d) / d == a
  {
  }

  lemma DivSum(a: real, b: real, s: real)
    requires s != 0.0
    ensures a / s + b / s == (a + b) / s
  {
  }

  lemma MulDiv(a: real, b: real, d: real)
    requires d != 0.0
    ensures (a * b) / d == a * (b / d)
  {
  }

  lemma DivScale(a: real, b: real, c: real)
    requires b != 0.0 && c != 0.0
    ensures (c * a) / (c * b) == a / b
  {
  }

  // ---------------------------------------------------------------------------
  // Payoff term

  /** What is assumed of the logarithm: it is positive above 1. */
  ghost predicate LnPositiveAboveOne(ln: real -> real)
  {
    forall x: real :: x > 1.0 ==> ln(x) > 0.0
  }

  function MonthlyInterestFactor(interestRate: real): real
  {
    (interestRate / 100.0) / 12.0
  }

  /** The argument of the logarithm in the annuity term formula. */
  function LogArgument(loan: real, interestRate: real, repaymentRate: real): real
    requires MonthlyBankRate(loan, interestRate, repaymentRate) != 0.0
  {
    1.0 - (MonthlyInterestFactor(interestRate) * loan)
          / MonthlyBankRate(loan, interestRate, repaymentRate)
  }

  /** Years to pay off the loan at the fixed monthly bank rate, with monthly compounding;
      "never repays" when the logarithm's argument is not positive. */
  function TermYears(loan: real, interestRate: real, repaymentRate: real, ln: real -> real): (r: Term)
    requires MonthlyBankRate(loan, interestRate, repaymentRate) != 0.0
    requires interestRate > 0.0
    requires LnPositiveAboveOne(ln)
    ensures r.NeverRepays? <==>
              MonthlyInterest(loan, interestRate) / MonthlyBankRate(loan, interestRate, repaymentRate) >= 1.0
  {
    var logArg := LogArgument(loan, interestRate, repaymentRate);
    if logArg <= 0.0 then NeverRepays
    else
      var f := MonthlyInterestFactor(interestRate);
      assert ln(1.0 + f) > 0.0;
      var numMonths := -ln(logArg) / ln(1.0 + f);
      Finite(numMonths / 12.0)
  }

  /** The loan amount cancels out of the log argument: it is the repayment share
      of the combined rate. */
  lemma LogArgumentSimplified(loan: real, interestRate: real, repaymentRate: real)
    requires loan != 0.0 && interestRate + repaymentRate != 0.0
    ensures MonthlyBankRate(loan, interestRate, repaymentRate) != 0.0
    ensures LogArgument(loan, interestRate, repaymentRate)
            == repaymentRate / (interestRate + repaymentRate)
  {
    var s := interestRate + repaymentRate;
    var c := loan / 1200.0;
    assert MonthlyBankRate(loan, interestRate, repaymentRate) == c * s;
    assert MonthlyInterestFactor(interestRate) * loan == c * interestRate;
    DivScale(interestRate, s, c);
    DivSum(interestRate, repaymentRate, s);
    DivCancel(1.0, s);
  }

  /** The term is "never repays" exactly when the repayment is not positive but the
      combined rate still is; otherwise it is the log formula with the simplified argument. */
  lemma TermCharacterized(loan: real, interestRate: real, repaymentRate: real, ln: real -> real)
    requires loan != 0.0 && interestRate > 0.0 && interestRate + repaymentRate != 0.0
    requires LnPositiveAboveOne(ln)
    ensures MonthlyBankRate(loan, interestRate, repaymentRate) != 0.0
    ensures TermYears(loan, interestRate, repaymentRate, ln).NeverRepays?
            <==> repaymentRate <= 0.0 && interestRate + repaymentRate > 0.0
    ensures TermYears(loan, interestRate, repaymentRate, ln).Finite? ==>
              TermYears(loan, interestRate, repaymentRate, ln).years
              == (-ln(repaymentRate / (interestRate + repaymentRate))
                  / ln(1.0 + MonthlyInterestFactor(interestRate))) / 12.0
  {
    LogArgumentSimplified(loan, interestRate, repaymentRate);
    var s := interestRate + repaymentRate;
    var x := repaymentRate / s;
    if s > 0.0 {
      assert x <= 0.0 <==> repaymentRate <= 0.0;
    } else {
      assert repaymentRate < 0.0;
      assert x > 0.0;
    }
  }

  /** With a non-negative repayment rate (the slider's range), the term is "never
      repays" exactly when the repayment rate is zero. */
  lemma TermNeverRepaysIffNoRepayment(loan: real, interestRate: real, repaymentRate: real, ln: real -> real)
    requires loan != 0.0 && interestRate > 0.0 && repaymentRate >= 0.0
    requires LnPositiveAboveOne(ln)
    ensures MonthlyBankRate(loan, interestRate, repaymentRate) != 0.0
    ensures TermYears(loan, interestRate, repaymentRate, ln).NeverRepays? <==> repaymentRate == 0.0
  {
    TermCharacterized(loan, interestRate, repaymentRate, ln);
  }

  // ---------------------------------------------------------------------------
  // Remaining debt

  function Pow(q: real, n: nat): real
  {
    if n == 0 then 1.0 else q * Pow(q, n - 1)
  }

  /** Annual growth factor of the debt. */
  function GrowthFactor(interestRate: real): real
  {
    1.0 + interestRate / 100.0
  }

  /** The yearly payment: the combined rate applied to the original loan. */
  function AnnualPayment(loan: real, interestRate: real, repaymentRate: real): real
  {
    loan * (interestRate + repaymentRate) / 100.0
  }

  /** One year of the loan: interest is added to the balance, then the yearly payment
      is paid. */
  function YearEnd(balance: real, loan: real, interestRate: real, repaymentRate: real): real
  {
    balance * GrowthFactor(interestRate) - AnnualPayment(loan, interestRate, repaymentRate)
  }

  /** The balance year by year. */
  function Balance(loan: real, interestRate: real, repaymentRate: real, years: nat): real
  {
    if years == 0 then loan
    else YearEnd(Balance(loan, interestRate, repaymentRate, years - 1), loan, interestRate, repaymentRate)
  }

  /** The closed form K * q^n - R * (q^n - 1) / (q - 1), before clamping. */
  function ClosedFormBalance(loan: real, interestRate: real, repaymentRate: real, years: nat): real
    requires interestRate != 0.0
  {
    var q := GrowthFactor(interestRate);
    loan * Pow(q, years)
    - AnnualPayment(loan, interestRate, repaymentRate) * (Pow(q, years) - 1.0) / (q - 1.0)
  }

  /** The remaining debt after `years` years, clamped at zero. The source divides by
      q - 1, so a zero interest rate is outside its domain. */
  function RemainingDebt(loan: real, interestRate: real, repaymentRate: real, years: nat): (r: real)
    requires interestRate != 0.0
    ensures r >= 0.0
    ensures years == 0 ==> r == if loan > 0.0 then loan else 0.0
  {
    assert Pow(GrowthFactor(interestRate), 0) == 1.0;
    var remaining := ClosedFormBalance(loan, interestRate, repaymentRate, years);
    if remaining > 0.0 then remaining else 0.0
  }

  /** The closed form is the year-by-year recurrence. */
  lemma {:induction false} ClosedFormIsRecurrence(loan: real, interestRate: real, repaymentRate: real, years: nat)
    requires interestRate != 0.0
    ensures ClosedFormBalance(loan, interestRate, repaymentRate, years)
            == Balance(loan, interestRate, repaymentRate, years)
  {
    if years == 0 {
      ClosedFormAtStart(loan, interestRate, repaymentRate);
    } else {
      ClosedFormIsRecurrence(loan, interestRate, repaymentRate, years - 1);
      ClosedFormStep(loan, interestRate, repaymentRate, years);
    }
  }

  /** Before the first year the closed form is the loan itself. */
  lemma ClosedFormAtStart(loan: real, interestRate: real, repaymentRate: real)
    requires interestRate != 0.0
    ensures ClosedFormBalance(loan, interestRate, repaymentRate, 0)
            == Balance(loan, interestRate, repaymentRate, 0)
  {
    var q := GrowthFactor(interestRate);
    ClosedFormUnfold(loan, interestRate, repaymentRate, 0);
    assert Pow(q, 0) == 1.0;
    assert (Pow(q, 0) - 1.0) / (q - 1.0) == 0.0;
  }

  /** The closed form obeys the same one-year step as Balance. */
  lemma ClosedFormStep(loan: real, interestRate: real, repaymentRate: real, years: nat)
    requires interestRate != 0.0 && years > 0
    ensures ClosedFormBalance(loan, interestRate, repaymentRate, years)
            == YearEnd(ClosedFormBalance(loan, interestRate, repaymentRate, years - 1),
                       loan, interestRate, repaymentRate)
  {
    var q := GrowthFactor(interestRate);
    var a := AnnualPayment(loan, interestRate, repaymentRate);
    ClosedFormUnfold(loan, interestRate, repaymentRate, years);
    ClosedFormUnfold(loan, interestRate, repaymentRate, years - 1);
    BalanceStepAlgebra(loan, a, q, Pow(q, years - 1), Pow(q, years));
  }

  lemma ClosedFormUnfold(loan: real, interestRate: real, repaymentRate: real, years: nat)
    requires interestRate != 0.0
    ensures var q := GrowthFactor(interestRate);
            q != 1.0 &&
            ClosedFormBalance(loan, interestRate, repaymentRate, years)
            == loan * Pow(q, years)
               - AnnualPayment(loan, interestRate, repaymentRate) * ((Pow(q, years) - 1.0) / (q - 1.0))
  {
    var q := GrowthFactor(interestRate);
    MulDiv(AnnualPayment(loan, interestRate, repaymentRate), Pow(q, years) - 1.0, q - 1.0);
  }

  /** The induction step of ClosedFormIsRecurrence, with every quantity a plain variable. */
  lemma BalanceStepAlgebra(k: real, a: real, q: real, p: real, pn: real)
    requires q != 1.0 && pn == q * p
    ensures k * pn - a * ((pn - 1.0) / (q - 1.0))
            == (k * p - a * ((p - 1.0) / (q - 1.0))) * q - a
  {
    var d := q - 1.0;
    var x := (p - 1.0) / d;
    DivCancel(p - 1.0, d);
    assert p - 1.0 == x * d;
    var y := x * q + 1.0;
    assert q * p - 1.0 == y * d;
    DivCancel(y, d);
    assert (q * p - 1.0) / d == y;
  }

  /** The remaining debt is the recurrence's balance, clamped at zero. */
  lemma RemainingDebtIsClampedBalance(loan: real, interestRate: real, repaymentRate: real, years: nat)
    requires interestRate != 0.0
    ensures var b := Balance(loan, interestRate, repaymentRate, years);
            RemainingDebt(loan, interestRate, repaymentRate, years) == if b > 0.0 then b else 0.0
  {
    ClosedFormIsRecurrence(loan, interestRate, repaymentRate, years);
  }

  /** With non-negative interest and repayment, the balance never exceeds the loan. */
  lemma {:induction false} BalanceAtMostLoan(loan: real, interestRate: real, repaymentRate: real, years: nat)
    requires loan >= 0.0 && interestRate >= 0.0 && repaymentRate >= 0.0
    ensures Balance(loan, interestRate, repaymentRate, years) <= loan
  {
    if years > 0 {
      BalanceAtMostLoan(loan, interestRate, repaymentRate, years - 1);
      var b := Balance(loan, interestRate, repaymentRate, years - 1);
      var q := GrowthFactor(interestRate);
      assert q > 0.0;
      assert b * q <= loan * q;
      assert loan * q - AnnualPayment(loan, interestRate, repaymentRate)
          == loan - loan * repaymentRate / 100.0;
      assert loan * repaymentRate >= 0.0;
    }
  }

  /** One year of payments never increases the balance; with a positive repayment on
      a positive loan it strictly decreases it. */
  lemma BalanceStep(loan: real, interestRate: real, repaymentRate: real, years: nat)
    requires loan >= 0.0 && interestRate >= 0.0 && repaymentRate >= 0.0
    ensures Balance(loan, interestRate, repaymentRate, years + 1)
            <= Balance(loan, interestRate, repaymentRate, years)
    ensures loan > 0.0 && repaymentRate > 0.0 ==>
              Balance(loan, interestRate, repaymentRate, years + 1)
              < Balance(loan, interestRate, repaymentRate, years)
  {
    BalanceAtMostLoan(loan, interestRate, repaymentRate, years);
    var b := Balance(loan, interestRate, repaymentRate, years);
    assert Balance(loan, interestRate, repaymentRate, years + 1)
        == b * GrowthFactor(interestRate) - AnnualPayment(loan, interestRate, repaymentRate);
    assert Balance(loan, interestRate, repaymentRate, years + 1) - b
        == (b * interestRate - loan * interestRate - loan * repaymentRate) / 100.0;
    assert (loan - b) * interestRate >= 0.0;
    assert loan * repaymentRate >= 0.0;
    if loan > 0.0 && repaymentRate > 0.0 {
      assert loan * repaymentRate > 0.0;
    }
  }

  /** Without repayment the balance stays at the loan amount for ever. */
  lemma {:induction false} BalanceConstantWithoutRepayment(loan: real, interestRate: real, years: nat)
    ensures Balance(loan, interestRate, 0.0, years) == loan
  {
    if years > 0 {
      BalanceConstantWithoutRepayment(loan, interestRate, years - 1);
      assert AnnualPayment(loan, interestRate, 0.0) == loan * interestRate / 100.0;
    }
  }

  /** The remaining debt is non-increasing in the horizon. */
  lemma {:induction false} RemainingDebtNonIncreasing(loan: real, interestRate: real, repaymentRate: real, y1: nat, y2: nat)
    requires loan >= 0.0 && interestRate > 0.0 && repaymentRate >= 0.0
    requires y1 <= y2
    ensures RemainingDebt(loan, interestRate, repaymentRate, y2)
            <= RemainingDebt(loan, interestRate, repaymentRate, y1)
  {
    if y1 < y2 {
      RemainingDebtNonIncreasing(loan, interestRate, repaymentRate, y1, y2 - 1);
      BalanceStep(loan, interestRate, repaymentRate, y2 - 1);
      RemainingDebtIsClampedBalance(loan, interestRate, repaymentRate, y2 - 1);
      RemainingDebtIsClampedBalance(loan, interestRate, repaymentRate, y2);
    }
  }

  /** RemainingDebtNonIncreasing needs a non-negative loan: a negative loan (equity
      beyond price and costs) starts at a clamped debt of zero and then rises. */
  lemma NegativeLoanDebtRises()
    ensures RemainingDebt(-100000.0, 3.8, 10.0, 0) == 0.0
    ensures RemainingDebt(-100000.0, 3.8, 10.0, 10) > 0.0
  {
    RemainingDebtIsClampedBalance(-100000.0, 3.8, 10.0, 0);
    RemainingDebtIsClampedBalance(-100000.0, 3.8, 10.0, 10);
    assert Balance(-100000.0, 3.8, 10.0, 10) > 0.0;
  }

  /** Without repayment the remaining debt is the loan at every horizon. */
  lemma RemainingDebtConstantWithoutRepayment(loan: real, interestRate: real, years: nat)
    requires loan >= 0.0 && interestRate != 0.0
    ensures RemainingDebt(loan, interestRate, 0.0, years) == loan
  {
    RemainingDebtIsClampedBalance(loan, interestRate, 0.0, years);
    BalanceConstantWithoutRepayment(loan, interestRate, years);
  }

  // ---------------------------------------------------------------------------
  // The whole recalculation

  /** What the success branch needs so that no division by zero happens: a positive
      interest rate, a non-zero combined rate and a non-zero loan. */
  predicate Amortizable(inputs: Inputs)
  {
    && inputs.interestRate > 0.0
    && inputs.interestRate + inputs.repaymentRate != 0.0
    && LoanAmount(inputs.purchasePrice, NetEquity(inputs.purchasePrice, inputs.equity)) != 0.0
  }

  /** The horizon of the remaining-debt figure. */
  const RemainingDebtYears: nat := 10

  function Finance(inputs: Inputs, ln: real -> real): (r: Financing)
    requires NetEquity(inputs.purchasePrice, inputs.equity) >= 0.0 ==> Amortizable(inputs)
    requires LnPositiveAboveOne(ln)
    ensures r.InsufficientEquity? <==> inputs.equity < AcquisitionCosts(inputs.purchasePrice)
  {
    var acquisitionCosts := AcquisitionCosts(inputs.purchasePrice);
    var netEquity := NetEquity(inputs.purchasePrice, inputs.equity);
    if netEquity < 0.0 then
      // the shortfall is the absolute value of the negative net equity
      InsufficientEquity(acquisitionCosts, -netEquity)
    else
      var loan := LoanAmount(inputs.purchasePrice, netEquity);
      var z, t := inputs.interestRate, inputs.repaymentRate;
      var bankRate := MonthlyBankRate(loan, z, t);
      Feasible(Plan(
        acquisitionCosts,
        netEquity,
        loan,
        bankRate,
        MonthlyInterest(loan, z),
        MonthlyRepayment(loan, t),
        TermYears(loan, z, t, ln),
        RemainingDebt(loan, z, t, RemainingDebtYears),
        bankRate + inputs.maintenanceFee + inputs.privateReserve))
  }

  /** The equity gate: an error carries the acquisition costs and the exact shortfall. */
  lemma FinanceRejectsInsufficientEquity(inputs: Inputs, ln: real -> real)
    requires NetEquity(inputs.purchasePrice, inputs.equity) >= 0.0 ==> Amortizable(inputs)
    requires LnPositiveAboveOne(ln)
    requires inputs.equity < inputs.purchasePrice * AcquisitionCostRate
    ensures Finance(inputs, ln)
            == InsufficientEquity(inputs.purchasePrice * AcquisitionCostRate,
                                  inputs.purchasePrice * AcquisitionCostRate - inputs.equity)
    ensures Finance(inputs, ln).shortfall > 0.0
  {
  }

  /** The identities every feasible plan satisfies. */
  lemma FinanceInvariants(inputs: Inputs, ln: real -> real)
    requires NetEquity(inputs.purchasePrice, inputs.equity) >= 0.0 ==> Amortizable(inputs)
    requires LnPositiveAboveOne(ln)
    ensures var r := Finance(inputs, ln);
            r.Feasible? ==>
              && r.plan.acquisitionCosts == inputs.purchasePrice * 0.0857
              && r.plan.netEquity == inputs.equity - r.plan.acquisitionCosts
              && r.plan.netEquity >= 0.0
              && r.plan.loanAmount + r.plan.netEquity == inputs.purchasePrice
              && r.plan.loanAmount == inputs.purchasePrice - inputs.equity + r.plan.acquisitionCosts
              && r.plan.monthlyInterest + r.plan.monthlyRepayment == r.plan.monthlyBankRate
              && r.plan.totalMonthlyCost
                 == r.plan.monthlyBankRate + inputs.maintenanceFee + inputs.privateReserve
              && r.plan.remainingDebt10 >= 0.0
              && (r.plan.termYears.NeverRepays?
                  <==> inputs.repaymentRate <= 0.0 && inputs.interestRate + inputs.repaymentRate > 0.0)
              && var b := Balance(r.plan.loanAmount, inputs.interestRate, inputs.repaymentRate, 10);
                 r.plan.remainingDebt10 == if b > 0.0 then b else 0.0
  {
    var r := Finance(inputs, ln);
    if r.Feasible? {
      var loan := r.plan.loanAmount;
      TermCharacterized(loan, inputs.interestRate, inputs.repaymentRate, ln);
      RemainingDebtIsClampedBalance(loan, inputs.interestRate, inputs.repaymentRate, 10);
    }
  }

  /** When the equity does not exceed the price (the slider's bound) the loan covers
      at least the acquisition costs. */
  lemma LoanCoversAcquisitionCosts(inputs: Inputs, ln: real -> real)
    requires NetEquity(inputs.purchasePrice, inputs.equity) >= 0.0 ==> Amortizable(inputs)
    requires LnPositiveAboveOne(ln)
    requires inputs.equity <= inputs.purchasePrice
    ensures Finance(inputs, ln).Feasible? ==>
              Finance(inputs, ln).plan.loanAmount >= Finance(inputs, ln).plan.acquisitionCosts
  {
  }
}
