# little-useful-apps: mortgage financing engine and apartment checker

This project models two small calculators from the `little-useful-apps` repository and proves properties of each.

**1. The mortgage financing engine.** It is written three times: once in the React planner (`immobilien-rechner/src/App.jsx`) and twice in Python, in the English `real_estate_calculator.py` and its German twin `Immobilienrechner.py`. From the purchase price, equity, interest and repayment percentages, maintenance fee and private reserve it computes the following:

- the acquisition costs: 8.57 % of the price, made up of land transfer tax, notary and broker;
- the net equity, which refuses the financing when it is negative;
- the loan amount;
- the monthly bank rate, split into interest and repayment;
- the payoff term from the annuity log formula, with 999 standing for "never repays";
- the remaining debt after ten years, from the closed-form annual annuity balance;
- the total monthly cost;
- in the planner, the equity ratio.

The shared engine is the module `Annuity`. It works over exact `real` numbers. The payoff term is a tagged value, `Finite(years) | NeverRepays`. The natural logarithm is a function parameter `ln`, and the model assumes only that `ln(x) > 0` for `x > 1`, which is what the division by `ln(1 + i)` needs. The following modules are thin wrappers over `Annuity`, each with the result shape of its source:

- `FinancingPlanner`: the React effect;
- `RealEstateCalculator`: the English script;
- `Immobilienrechner`: the German script.

The German wrapper is proved to compute the English script's figures for every input.

**2. The apartment checker** (`flat_search_organizer/Wohnungs-Checker.js`). It has three parts:

- `ApartmentScoring` holds the scoring: five knockout rules and weighted points (10 per met priority-1 criterion, 3 per met priority-3 criterion). `calculateScore` is an imperative method with two loops. It is proved equal to the specification function `Evaluate`, and the properties of the scoring are proved about `Evaluate`.
- `ApartmentList` holds the ranking: knockouts last, then by falling score, with JavaScript's stable sort modelled as a stable insertion sort.
- `ApartmentList` also holds the list updates `handleSave` and `handleDelete`.

Ids, timestamps and the delete confirmation are parameters. In the source they come from `crypto.randomUUID()`, `new Date()` and `confirm()`.

Inputs for which the sources divide by zero on the success path are kept out by a precondition (`Amortizable`) rather than given invented values. These are zero interest, a zero loan and a zero combined rate. "## Left out" says what each source does with them.

## Model

| member | source | states |
|---|---|---|
| Annuity.MonthlyInterest | real_estate_calculator/immobilien-rechner/src/App.jsx:56 | The monthly interest is the monthly interest factor `z/100/12` times the loan. It is positive for a positive loan at positive interest. |
| Annuity.MonthlyRepayment | real_estate_calculator/immobilien-rechner/src/App.jsx:57 | For a positive loan the monthly repayment is positive exactly when the repayment rate is. With a zero repayment rate it is zero. |
| Annuity.MonthlyBankRate | real_estate_calculator/immobilien-rechner/src/App.jsx:52-57 | The monthly bank rate is exactly the monthly interest plus the monthly repayment. It is zero exactly when the loan or the combined rate is zero, the inputs that make the log argument divide by zero. |
| Annuity.LogArgumentSimplified | real_estate_calculator/immobilien-rechner/src/App.jsx:60-64 | For a nonzero loan and a nonzero combined rate, the log argument `1 - i*K/R` equals `repayment / (interest + repayment)`. |
| Annuity.TermYears | real_estate_calculator/immobilien-rechner/src/App.jsx:59-73 | The term is "never repays" exactly when the monthly interest is at least the whole monthly bank rate, that is, when the log argument `1 - i*K/R` is not positive. |
| Annuity.TermCharacterized | real_estate_calculator/immobilien-rechner/src/App.jsx:59-73 | The term is the never-repays sentinel exactly when the repayment rate is not positive while the combined rate is. Otherwise it is `-ln(t/(z+t)) / ln(1+i) / 12`. |
| Annuity.TermNeverRepaysIffNoRepayment | real_estate_calculator/immobilien-rechner/src/App.jsx:64-70 | For a non-negative repayment rate, the loan never repays if and only if the repayment rate is zero. |
| Annuity.RemainingDebt | real_estate_calculator/immobilien-rechner/src/App.jsx:76-82 | The clamped closed-form balance is never negative. After zero years it is the loan, or 0 for a negative loan. |
| Annuity.ClosedFormIsRecurrence | real_estate_calculator/immobilien-rechner/src/App.jsx:79-80 | `K*q^n - A*(q^n-1)/(q-1)` equals the year-by-year balance `B(0) = K`, `B(n+1) = B(n)*q - A`, for every n. |
| Annuity.RemainingDebtIsClampedBalance | real_estate_calculator/immobilien-rechner/src/App.jsx:80-81 | The remaining debt is the recurrence balance clamped at zero from below. |
| Annuity.BalanceAtMostLoan | real_estate_calculator/immobilien-rechner/src/App.jsx:76-82 | With non-negative loan and rates, the balance never exceeds the loan. |
| Annuity.BalanceStep | real_estate_calculator/immobilien-rechner/src/App.jsx:76-82 | Each year the balance does not grow. It strictly falls when the loan and the repayment rate are positive. |
| Annuity.BalanceConstantWithoutRepayment | real_estate_calculator/immobilien-rechner/src/App.jsx:77-80 | With a zero repayment rate the payment is exactly the interest, so the balance stays at the loan. |
| Annuity.RemainingDebtNonIncreasing | real_estate_calculator/immobilien-rechner/src/App.jsx:76-82 | For a non-negative loan, positive interest and a non-negative repayment rate, the remaining debt after more years is never larger. |
| Annuity.NegativeLoanDebtRises | real_estate_calculator/immobilien-rechner/src/App.jsx:76-82 | The loan bound above is needed. A loan of -100000 at 3.8 % and 10 % has a clamped debt of 0 at the start and a positive debt after 10 years. |
| Annuity.RemainingDebtConstantWithoutRepayment | real_estate_calculator/immobilien-rechner/src/App.jsx:76-82 | With zero repayment, the remaining debt is the loan after any number of years. |
| Annuity.Finance | real_estate_calculator/immobilien-rechner/src/App.jsx:33-102 | The financing is refused exactly when the equity is below the acquisition costs. |
| Annuity.FinanceRejectsInsufficientEquity | real_estate_calculator/immobilien-rechner/src/App.jsx:35-43 | On refusal the result carries the acquisition costs `price * 0.0857` and the positive shortfall `costs - equity`, the absolute value of the net equity. |
| Annuity.FinanceInvariants | real_estate_calculator/immobilien-rechner/src/App.jsx:35-100 | A feasible plan has: costs `price * 0.0857`; net equity `equity - costs` (non-negative); loan plus net equity equal to the price; interest plus repayment equal to the bank rate; total cost equal to the bank rate plus maintenance fee and reserve; a non-negative ten-year remaining debt equal to the year-by-year balance after 10 years, clamped at zero; and a term that never repays exactly when the repayment rate is not positive while the combined rate is. |
| Annuity.LoanCoversAcquisitionCosts | real_estate_calculator/immobilien-rechner/src/App.jsx:49 | When the equity is at most the price (the slider's bound), the loan is at least the acquisition costs. |
| FinancingPlanner.Calculate | real_estate_calculator/immobilien-rechner/src/App.jsx:38-99 | The result is an error exactly when the equity is below 8.57 % of the price. The error carries the costs and the positive shortfall. For a nonzero price, a record carries the equity ratio `netEquity / price * 100`. For a zero price it carries JavaScript's Infinity, and its net equity is positive. |
| FinancingPlanner.CalculateInvariants | real_estate_calculator/immobilien-rechner/src/App.jsx:89-100 | A record satisfies the loan, payment and total-cost identities and has a non-negative remaining debt. For a positive price its equity ratio is a finite, non-negative percentage. |
| FinancingPlanner.DefaultScenario | real_estate_calculator/immobilien-rechner/src/App.jsx:6-11 | The initial inputs 800000 / 300000 / 3.8 % / 2.0 / 500 / 150 give a feasible plan with these figures: costs 68560; net equity 231440; loan 568560; bank rate 2748.04 (interest 1800.44, repayment 947.60); total 3398.04; a finite term; equity ratio 28.93 %; and the exact rational ten-year remaining debt. |
| FinancingPlanner.InsufficientEquityScenario | real_estate_calculator/immobilien-rechner/src/App.jsx:35-43 | A price of 500000 with 20000 of equity is refused, with costs 42850 and shortfall 22850. |
| FinancingPlanner.ZeroPriceScenario | real_estate_calculator/immobilien-rechner/src/App.jsx:38-99 | A price of 0 with 50000 of equity, which the number input accepts, gives a record with loan -50000 and an infinite equity ratio. |
| RealEstateCalculator.CalculateRemainingDebt | real_estate_calculator/real_estate_calculator.py:50-56 | The remaining debt is non-negative and is `k` after zero years. It equals the year-by-year balance clamped at zero. It is defined only for nonzero interest, because the script divides by `q - 1`. |
| RealEstateCalculator.CalculateWithFixedRepayment | real_estate_calculator/real_estate_calculator.py:3-48 | The script returns the error message exactly when the net equity is negative. On success: loan = price - equity + price * 0.0857; bank rate = interest + repayment; total = bank rate + fee + reserve; and the ten-year debt is `calculate_remaining_debt(loan, interest, repayment, 10)`. |
| RealEstateCalculator.TermSentinel | real_estate_calculator/real_estate_calculator.py:29-35 | When the log argument is not positive (repayment not positive, combined rate positive), the `ValueError` path stores 999. For a positive repayment rate the term is the log formula `-ln(t/(z+t)) / ln(1+i) / 12`. |
| RealEstateCalculator.ScriptScenario | real_estate_calculator/real_estate_calculator.py:59-67 | The script's inputs give loan 568560, bank rate 2748.04 (1800.44 + 947.60) and total monthly cost 3398.04. |
| Immobilienrechner.BerechneRestschuld | real_estate_calculator/Immobilienrechner.py:50-56 | The remaining debt is non-negative, is `k` after zero years, and equals the English script's `calculate_remaining_debt`. |
| Immobilienrechner.BerechneMitFesterTilgung | real_estate_calculator/Immobilienrechner.py:3-48 | The German error message is returned exactly when the net equity is negative. On success the loan, bank-rate, total-cost and ten-year-debt identities hold. |
| Immobilienrechner.AgreesWithEnglishScript | real_estate_calculator/Immobilienrechner.py:3-56 | For every input, the German function gives the same verdict as the English one and, on success, the same seven figures key by key. |
| Immobilienrechner.SkriptSzenario | real_estate_calculator/Immobilienrechner.py:59-67 | The German script's inputs give the same loan, bank rate, interest, repayment and total as the English script. |
| ApartmentScoring.IncludesAt | flat_search_organizer/Wohnungs-Checker.js:168 | `String.prototype.includes` as modelled holds exactly when the substring occurs at some position. |
| ApartmentScoring.IncludesNoLonger | flat_search_organizer/Wohnungs-Checker.js:168 | A string includes only substrings no longer than itself. |
| ApartmentScoring.SomeIncludedExists | flat_search_organizer/Wohnungs-Checker.js:168 | `LOCATIONS.some(l => location.includes(l))` holds exactly when some listed location occurs in the string. |
| ApartmentScoring.GoodLocationCharacterized | flat_search_organizer/Wohnungs-Checker.js:168 | The location rule passes exactly when the location contains one of the six locations, and so each of the six passes. |
| ApartmentScoring.BlankAndOtherLocationFail | flat_search_organizer/Wohnungs-Checker.js:418-420 | The form's blank choice `""` and its "Andere" choice both fail the location rule. |
| ApartmentScoring.Messages | flat_search_organizer/Wohnungs-Checker.js:165-169 | One string per failure, in the same order, each the message its rule pushes. |
| ApartmentScoring.MessageInjective | flat_search_organizer/Wohnungs-Checker.js:165-169 | The five rules push five different strings. |
| ApartmentScoring.MessagesDetermineFailures | flat_search_organizer/Wohnungs-Checker.js:165-169 | Two failure lists that push the same strings are the same list, so the displayed strings determine the failed rules. |
| ApartmentScoring.KoFailuresUnfolded | flat_search_organizer/Wohnungs-Checker.js:166-170 | The failure list is built by the five checks in turn: budget, rooms, location, attic, elevator. Each check appends its message only when its rule fails. |
| ApartmentScoring.FailuresAmongIsFilter | flat_search_organizer/Wohnungs-Checker.js:166-170 | Checking rules in increasing order yields exactly the failing rules, in increasing order. |
| ApartmentScoring.KoFailuresCharacterized | flat_search_organizer/Wohnungs-Checker.js:163-170 | A rule is in the failure list if and only if it fails. The list is in rule order, without repeats, and has at most five entries. |
| ApartmentScoring.RankGrows | flat_search_organizer/Wohnungs-Checker.js:166-170 | In a strictly rule-ordered list the i-th failure has rule index at least i. |
| ApartmentScoring.ElevatorRule | flat_search_organizer/Wohnungs-Checker.js:170 | "No elevator" is reported exactly when the apartment is neither on the ground floor nor has an elevator. |
| ApartmentScoring.BudgetAndRoomsRules | flat_search_organizer/Wohnungs-Checker.js:166-167 | The budget fails exactly above 2500 and the rooms fail exactly below 4. A blank budget (read as 0) passes and blank rooms fail. |
| ApartmentScoring.CountMetBounds | flat_search_organizer/Wohnungs-Checker.js:177-186 | The number of met criteria is at most the number of criteria. It equals the number of criteria exactly when all are met, and is zero exactly when none is. |
| ApartmentScoring.Evaluate | flat_search_organizer/Wohnungs-Checker.js:162-189 | The maximum is always 158, the score lies between 0 and the maximum, and `isKo` holds exactly when the failure list is non-empty. |
| ApartmentScoring.KnockedOutIffSomeRuleFails | flat_search_organizer/Wohnungs-Checker.js:163-188 | An apartment is knocked out if and only if at least one of the five rules fails. Its card lists exactly the failing rules. |
| ApartmentScoring.ScoreBounds | flat_search_organizer/Wohnungs-Checker.js:172-188 | The maximum score is always 11*10 + 16*3 = 158. The score lies in 0..158, is 158 exactly when every criterion is met, and is 0 exactly when none is. |
| ApartmentScoring.ScoreIgnoresKnockouts | flat_search_organizer/Wohnungs-Checker.js:172-188 | Changing only the knockout fields leaves the score as it was. The knockout verdict is then exactly "the new failure list is non-empty". |
| ApartmentScoring.CheckKnockouts | flat_search_organizer/Wohnungs-Checker.js:163-170 | The pushes produce exactly the specified failure list. |
| ApartmentScoring.CalculateScore | flat_search_organizer/Wohnungs-Checker.js:162-189 | The two accumulation loops return exactly the specified score card: `isKo` holds if and only if there is a failure, and the maximum is 158. |
| ApartmentScoring.InitialListingScore | flat_search_organizer/Wohnungs-Checker.js:139-153 | The empty form's listing (blank numbers, blank location, no attic, no elevator) fails rooms, location and elevator, in that order, and scores 0. |
| ApartmentList.CompareRanksIsConsistent | flat_search_organizer/Wohnungs-Checker.js:217-225 | The comparator is antisymmetric and ties exactly equal ranks. Its "not after" relation is transitive, so the comparator is consistent. |
| ApartmentList.InsertByMultiset | flat_search_organizer/Wohnungs-Checker.js:217 | Inserting adds exactly the one element. |
| ApartmentList.SortedByTail | flat_search_organizer/Wohnungs-Checker.js:217 | The tail of an ordered list is ordered. |
| ApartmentList.InsertBySorted | flat_search_organizer/Wohnungs-Checker.js:217-225 | Inserting into an ordered list keeps it ordered. |
| ApartmentList.SortByOrdered | flat_search_organizer/Wohnungs-Checker.js:217-225 | The sort returns an ordered permutation of its input. |
| ApartmentList.SortedApartments | flat_search_organizer/Wohnungs-Checker.js:216-226 | The ranking is a permutation of the apartments, ordered by the comparator's rank. |
| ApartmentList.SortedApartmentsOrdered | flat_search_organizer/Wohnungs-Checker.js:216-226 | The ranking is a permutation of the apartments with the following order: every pair is in comparator order; no knockout precedes a non-knockout; within each group the scores do not increase. |
| ApartmentList.InsertByOfRank | flat_search_organizer/Wohnungs-Checker.js:217 | Insertion places the new element ahead of every equally ranked element already in the list. |
| ApartmentList.SortByStable | flat_search_organizer/Wohnungs-Checker.js:217-225 | For each rank, the elements of that rank appear in the output in their input order. |
| ApartmentList.SortedApartmentsStable | flat_search_organizer/Wohnungs-Checker.js:216-226 | The ranking is stable: apartments with equal knockout flag and score keep their relative order. |
| ApartmentList.ReplaceById | flat_search_organizer/Wohnungs-Checker.js:195 | The map keeps the length and replaces exactly the entries with the id. |
| ApartmentList.Save | flat_search_organizer/Wohnungs-Checker.js:191-198 | An empty title is refused, and the list then stays as it was. An edit keeps the length and replaces each entry with the edited id by the form, under that id and the new date. An add appends exactly the form, under the new id, at the end. |
| ApartmentList.EditKeepsIds | flat_search_organizer/Wohnungs-Checker.js:194-195 | An edit keeps every entry's id and changes only the entries with the edited id. An unknown id leaves the list unchanged. |
| ApartmentList.AddAppendsOne | flat_search_organizer/Wohnungs-Checker.js:196-197 | An add keeps the old list as a prefix and appends one entry. |
| ApartmentList.RemoveId | flat_search_organizer/Wohnungs-Checker.js:212 | The filter never lengthens the list, and every entry it keeps has a different id. A list without the id is returned unchanged. |
| ApartmentList.Delete | flat_search_organizer/Wohnungs-Checker.js:210-213 | A declined confirmation leaves the list unchanged. A confirmed delete leaves no entry with the id and never lengthens the list. |
| ApartmentList.RemoveIdCounts | flat_search_organizer/Wohnungs-Checker.js:212 | The filter drops every entry with the id and keeps every other entry as often as before. |
| ApartmentList.RemoveIdKeepsOrder | flat_search_organizer/Wohnungs-Checker.js:212 | The entries kept appear in their original order: the result is a subsequence of the list. |
| ApartmentList.SubsequenceOfTail | flat_search_organizer/Wohnungs-Checker.js:212 | A subsequence of a list's tail is a subsequence of the list. |
| ApartmentList.SubsequenceWeaken | flat_search_organizer/Wohnungs-Checker.js:212 | Dropping the head of a subsequence leaves a subsequence. |
| ApartmentList.RemoveIdAppend | flat_search_organizer/Wohnungs-Checker.js:212 | Filtering out an id that only the last entry carries removes just that entry. |
| ApartmentList.DeleteUndoesAdd | flat_search_organizer/Wohnungs-Checker.js:191-213 | Deleting an apartment just added under a fresh id gives back the previous list. |
| ApartmentList.RemoveIdTwice | flat_search_organizer/Wohnungs-Checker.js:212 | Filtering out an id twice is filtering it out once. |
| ApartmentList.DeleteIdempotent | flat_search_organizer/Wohnungs-Checker.js:210-213 | Deleting twice is deleting once, and a declined confirmation leaves the list unchanged. |

## Left out

- React rendering, icons, styling, sliders, input wiring and the state setters. The planner's `setError`/`setResults` pair is the returned `Result`.
- `formatEuro`, `formatYears` (including the display of 999 as "> 100 years") and the error message's currency formatting. These are display only.
- `localStorage` persistence, `alert`, `confirm`, `crypto.randomUUID()` and `new Date()`. These are host calls. Ids, timestamps and the answer to the dialog are parameters.
- `handleEdit`, `setIsFormOpen` and the form reset after saving. These are UI state and change no apartment data.
- The Python scripts' top-level print block. It is console output. It also holds a latent bug: the error tuple `(None, message)` is truthy, so `if result:` would index it as a dictionary.
- IEEE floating-point rounding. The arithmetic is exact `real`, so the identities proved hold exactly. In the source they hold up to rounding.
- The natural logarithm. It is an abstract parameter with one property, so numeric term values are not computed.
- Agreement between the term and the remaining debt. The term compounds monthly and the remaining debt annually, so the remaining debt is not zero at the term. This is not claimed.
- Zero interest on the success path. In JavaScript the term is `-ln(1) / ln(1)` and the remaining debt divides by `q - 1 = 0`, so both are NaN. In Python the same divisions raise `ZeroDivisionError` (real_estate_calculator.py:32 and :55), which `except ValueError` does not catch. Excluded by `Amortizable`.
- A zero loan on the success path. The bank rate is 0, so the log argument is `0 / 0`. That is NaN in JavaScript and a `ZeroDivisionError` in Python (real_estate_calculator.py:31). Excluded by `Amortizable`.
- A zero combined rate with a nonzero loan (repayment equal to minus the interest). JavaScript divides `i*K` by 0 and gets an infinite log argument. The term is then 999 or minus Infinity, depending on the loan's sign. Python raises `ZeroDivisionError` at real_estate_calculator.py:31. Not modelled: the planner's sliders keep interest at 0.5 % or more and repayment at 1.0 % or more (App.jsx:178 and :191), and the only Python call uses 3.8 % and 2.0 % (real_estate_calculator.py:67).
- Annuity.TermYears: requires positive interest, not just nonzero. For negative interest the source does compute a term (interest -1 % with repayment 2 % gives a log argument of 2). The one property assumed of `ln` does not give the sign of `ln(1 + i)` below 1, so that term is not modelled. Negative interest is outside the slider's range and the script's one call.
- The budget and room fields are whole numbers (`int`) or blank. JavaScript numbers may be fractional, and a rule's outcome depends only on the comparison with 2500 or 4.
- The automotive marketing simulators. They are a separate heuristic floating-point program.
