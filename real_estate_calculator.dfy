/**
 * The English Python script: `calculate_with_fixed_repayment` returns either the
 * pair (None, message) or a dictionary of seven figures, and
 * `calculate_remaining_debt` is the clamped closed-form balance. Both are thin
 * wrappers over the shared engine.
 */
module RealEstateCalculator {
  import opened Annuity

  /** The dictionary the function returns, one field per key. */
  datatype Summary = Summary(
    loanAmount: real,
    monthlyInterest: real,
    monthlyRepayment: real,
    bankRate: real,
    termYears: real,
    totalMonthlyCost: real,
    remainingDebtAfter10Years: real)

  /** `(None, message)` on the error path, the dictionary otherwise. */
  datatype Outcome = Failed(message: string) | Computed(summary: Summary)

  const InsufficientEquityMessage: string := "Error: Equity does not even cover the acquisition costs!"

  /** The remaining debt after `years` years; the script divides by q - 1, so a zero
      interest rate raises ZeroDivisionError and is excluded. */
  function CalculateRemainingDebt(k: real, interest: real, repayment: real, years: nat): (r: real)
    requires interest != 0.0
    ensures r >= 0.0
    ensures years == 0 && k >= 0.0 ==> r == k
    ensures var b := Balance(k, interest, repayment, years); r == if b > 0.0 then b else 0.0
  {
    RemainingDebtIsClampedBalance(k, interest, repayment, years);
    RemainingDebt(k, interest, repayment, years)
  }

  /** Zero bank rate (zero loan or zero combined rate) and zero interest raise an
      uncaught ZeroDivisionError on the success path; those inputs are excluded. */
  function CalculateWithFixedRepayment(
    purchasePrice: real, totalEquity: real, interestRate: real, repaymentRate: real,
    maintenanceFee: real, privateReserve: real, ln: real -> real): (r: Outcome)
    requires NetEquity(purchasePrice, totalEquity) >= 0.0 ==>
               Amortizable(Inputs(purchasePrice, totalEquity, interestRate, repaymentRate,
                                  maintenanceFee, privateReserve))
    requires LnPositiveAboveOne(ln)
    ensures r.Failed? <==> NetEquity(purchasePrice, totalEquity) < 0.0
    ensures r.Failed? ==> r.message == InsufficientEquityMessage
    ensures r.Computed? ==>
              && r.summary.loanAmount == purchasePrice - totalEquity + purchasePrice * 0.0857
              && r.summary.bankRate == r.summary.monthlyInterest + r.summary.monthlyRepayment
              && r.summary.totalMonthlyCost == r.summary.bankRate + maintenanceFee + privateReserve
              && r.summary.remainingDebtAfter10Years
                 == CalculateRemainingDebt(r.summary.loanAmount, interestRate, repaymentRate, 10)
  {
    var inputs := Inputs(purchasePrice, totalEquity, interestRate, repaymentRate,
                         maintenanceFee, privateReserve);
    FinanceInvariants(inputs, ln);
    match Finance(inputs, ln)
    case InsufficientEquity(_, _) => Failed(InsufficientEquityMessage)
    case Feasible(plan) =>
      Computed(Summary(
        plan.loanAmount,
        plan.monthlyInterest,
        plan.monthlyRepayment,
        plan.monthlyBankRate,
        Reported(plan.termYears),
        plan.totalMonthlyCost,
        plan.remainingDebt10))
  }

  /** The two branches of the term: a log argument that is not positive raises
      ValueError and stores 999, which with a positive interest rate happens exactly
      when the repayment rate is not positive while the combined rate is; every other
      input gets the log formula, whose argument is the repayment share of the
      combined rate. */
  lemma TermSentinel(
    purchasePrice: real, totalEquity: real, interestRate: real, repaymentRate: real,
    maintenanceFee: real, privateReserve: real, ln: real -> real)
    requires NetEquity(purchasePrice, totalEquity) >= 0.0
    requires Amortizable(Inputs(purchasePrice, totalEquity, interestRate, repaymentRate,
                                maintenanceFee, privateReserve))
    requires LnPositiveAboveOne(ln)
    ensures var r := CalculateWithFixedRepayment(purchasePrice, totalEquity, interestRate,
                                                 repaymentRate, maintenanceFee, privateReserve, ln);
            && r.Computed?
            && (repaymentRate <= 0.0 && interestRate + repaymentRate > 0.0 ==>
                  r.summary.termYears == 999.0)
            && (repaymentRate > 0.0 ==>
                  r.summary.termYears
                  == (-ln(repaymentRate / (interestRate + repaymentRate))
                      / ln(1.0 + MonthlyInterestFactor(interestRate))) / 12.0)
  {
    var inputs := Inputs(purchasePrice, totalEquity, interestRate, repaymentRate,
                         maintenanceFee, privateReserve);
    FinanceInvariants(inputs, ln);
    TermCharacterized(LoanAmount(purchasePrice, NetEquity(purchasePrice, totalEquity)),
                      interestRate, repaymentRate, ln);
  }

  /** The script's own inputs. */
  lemma ScriptScenario(ln: real -> real)
    requires LnPositiveAboveOne(ln)
    ensures NetEquity(800000.0, 300000.0) >= 0.0
    ensures Amortizable(Inputs(800000.0, 300000.0, 3.8, 2.0, 500.0, 150.0))
    ensures var r := CalculateWithFixedRepayment(800000.0, 300000.0, 3.8, 2.0, 500.0, 150.0, ln);
            && r.Computed?
            && r.summary.loanAmount == 568560.0
            && r.summary.bankRate == 2748.04
            && r.summary.monthlyInterest == 1800.44
            && r.summary.monthlyRepayment == 947.60
            && r.summary.totalMonthlyCost == 3398.04
  {
  }
}
