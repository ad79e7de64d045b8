/**
 * The German Python script, a duplicate of the English one with German names:
 * `berechne_mit_fester_tilgung` and `berechne_restschuld`. It is a thin wrapper
 * over the shared engine, and it is proved to compute the same figures as the
 * English script for every input.
 */
module Immobilienrechner {
  import opened Annuity
  import RealEstateCalculator

  /** The dictionary the function returns, one field per key. */
  datatype Ergebnis = Ergebnis(
    kreditbetrag: real,
    zinsenMonat: real,
    tilgungMonat: real,
    bankrate: real,
    laufzeitJahre: real,
    gesamtbelastung: real,
    restschuldNach10Jahren: real)

  /** `(None, Meldung)` on the error path, the dictionary otherwise. */
  datatype Ausgang = Fehler(meldung: string) | Berechnet(ergebnis: Ergebnis)

  const EigenkapitalFehlt: string := "Fehler: Eigenkapital deckt nicht einmal die Kaufnebenkosten!"

  /** Remaining debt after `jahre` years; a zero rate divides by zero in the script. */
  function BerechneRestschuld(k: real, zins: real, tilgung: real, jahre: nat): (r: real)
    requires zins != 0.0
    ensures r >= 0.0
    ensures jahre == 0 && k >= 0.0 ==> r == k
    ensures r == RealEstateCalculator.CalculateRemainingDebt(k, zins, tilgung, jahre)
  {
    RemainingDebt(k, zins, tilgung, jahre)
  }

  function BerechneMitFesterTilgung(
    kaufpreis: real, gesamtEigenkapital: real, zinsProzent: real, tilgungProzent: real,
    hausgeld: real, privateRuecklage: real, ln: real -> real): (r: Ausgang)
    requires NetEquity(kaufpreis, gesamtEigenkapital) >= 0.0 ==>
               Amortizable(Inputs(kaufpreis, gesamtEigenkapital, zinsProzent, tilgungProzent,
                                  hausgeld, privateRuecklage))
    requires LnPositiveAboveOne(ln)
    ensures r.Fehler? <==> NetEquity(kaufpreis, gesamtEigenkapital) < 0.0
    ensures r.Fehler? ==> r.meldung == EigenkapitalFehlt
    ensures r.Berechnet? ==>
              && r.ergebnis.kreditbetrag == kaufpreis - gesamtEigenkapital + kaufpreis * 0.0857
              && r.ergebnis.bankrate == r.ergebnis.zinsenMonat + r.ergebnis.tilgungMonat
              && r.ergebnis.gesamtbelastung == r.ergebnis.bankrate + hausgeld + privateRuecklage
              && r.ergebnis.restschuldNach10Jahren
                 == BerechneRestschuld(r.ergebnis.kreditbetrag, zinsProzent, tilgungProzent, 10)
  {
    var eingaben := Inputs(kaufpreis, gesamtEigenkapital, zinsProzent, tilgungProzent,
                           hausgeld, privateRuecklage);
    FinanceInvariants(eingaben, ln);
    match Finance(eingaben, ln)
    case InsufficientEquity(_, _) => Fehler(EigenkapitalFehlt)
    case Feasible(plan) =>
      Berechnet(Ergebnis(
        plan.loanAmount,
        plan.monthlyInterest,
        plan.monthlyRepayment,
        plan.monthlyBankRate,
        Reported(plan.termYears),
        plan.totalMonthlyCost,
        plan.remainingDebt10))
  }

  /** The twin scripts agree: the same inputs give the same verdict and, on success,
      the same seven figures key by key. */
  lemma AgreesWithEnglishScript(
    kaufpreis: real, gesamtEigenkapital: real, zinsProzent: real, tilgungProzent: real,
    hausgeld: real, privateRuecklage: real, ln: real -> real)
    requires NetEquity(kaufpreis, gesamtEigenkapital) >= 0.0 ==>
               Amortizable(Inputs(kaufpreis, gesamtEigenkapital, zinsProzent, tilgungProzent,
                                  hausgeld, privateRuecklage))
    requires LnPositiveAboveOne(ln)
    ensures var de := BerechneMitFesterTilgung(kaufpreis, gesamtEigenkapital, zinsProzent,
                                               tilgungProzent, hausgeld, privateRuecklage, ln);
            var en := RealEstateCalculator.CalculateWithFixedRepayment(
                        kaufpreis, gesamtEigenkapital, zinsProzent, tilgungProzent,
                        hausgeld, privateRuecklage, ln);
            && (de.Fehler? <==> en.Failed?)
            && (de.Berechnet? ==>
                  && de.ergebnis.kreditbetrag == en.summary.loanAmount
                  && de.ergebnis.zinsenMonat == en.summary.monthlyInterest
                  && de.ergebnis.tilgungMonat == en.summary.monthlyRepayment
                  && de.ergebnis.bankrate == en.summary.bankRate
                  && de.ergebnis.laufzeitJahre == en.summary.termYears
                  && de.ergebnis.gesamtbelastung == en.summary.totalMonthlyCost
                  && de.ergebnis.restschuldNach10Jahren == en.summary.remainingDebtAfter10Years)
  {
  }

  /** The script's own inputs give the same figures as the English script's. */
  lemma SkriptSzenario(ln: real -> real)
    requires LnPositiveAboveOne(ln)
    ensures NetEquity(800000.0, 300000.0) >= 0.0
    ensures Amortizable(Inputs(800000.0, 300000.0, 3.8, 2.0, 500.0, 150.0))
    ensures var r := BerechneMitFesterTilgung(800000.0, 300000.0, 3.8, 2.0, 500.0, 150.0, ln);
            && r.Berechnet?
            && r.ergebnis.kreditbetrag == 568560.0
            && r.ergebnis.bankrate == 2748.04
            && r.ergebnis.zinsenMonat == 1800.44
            && r.ergebnis.tilgungMonat == 947.60
            && r.ergebnis.gesamtbelastung == 3398.04
  {
  }
}
