# IRG withholding engine — a Dafny model

This project models the tax engine of the IRG salary calculator (`calculate` in
`hooks/useIrgCalculator.ts`). Given a taxable salary and a rounding mode, it returns an
itemised result:
- **Exemption.** At or below the exemption limit the result is exempt, with nothing computed.
- **Scale walk.** Otherwise it walks the bracket scale (the *barème*). It records one detail
  for every bracket whose lower bound is below the salary, and sums the slice taxes.
- **Allowance.** It computes the allowance (the *abattement*) as a fixed share of that tax.
  It clamps the allowance to [MIN, MAX] and reports which bound applied. It then silently
  caps the allowance at the tax itself.
- **Final tax.** It subtracts the allowance, rounds with `floor`, `round` or `ceil`, and
  returns the net salary.

Files:

- `types.dfy` (module `IrgTypes`) holds the records of `types.ts`: `RoundingMethod`,
  `BracketDetail` and `CalculationResult`, plus the `'min' | 'max' | 'none'` tag as
  `AppliedLimit`. It also holds the configuration that `constants.ts` supplies. That file
  is not part of this model, so the configuration is a `Rules` value passed in: the scale,
  the allowance rate, MIN, MAX and the exemption limit. The predicates `WellFormed` and
  `Contiguous` state the intended shape of the scale.
- `js_math.dfy` (module `JsMath`) holds `Math.min`, `Math.max`, `Math.floor`, `Math.round`
  and `Math.ceil` over exact reals. Each is given the contract that characterises it.
- `irg_calculator.dfy` (module `IrgCalculator`) holds `CalculationFor`, a functional
  statement of the result. It also holds the method `Calculate`, which works step by step
  like the source: a loop over the scale with a running total and a growing breakdown,
  `let`-style reassignment of the allowance and its tag, and a switch on the rounding mode.
  The `forEach` over the scale is the method `WalkScale`, which `Calculate` calls.
  `Calculate` is proved to return exactly `CalculationFor`.
- `irg_properties.dfy` (module `IrgProperties`) holds the properties, as lemmas about
  `CalculationFor`.

Amounts are Dafny `real`s. Math.round rounds halves toward +∞, so it is `(x + 0.5).Floor`.

## Model

| member | source | states |
|---|---|---|
| `IrgCalculator.Calculate` | hooks/useIrgCalculator.ts:7-101 | The step-by-step computation returns exactly `CalculationFor`: the exemption short-circuit, the walk over the scale, clamp, cap, final tax, rounding switch and net salary. |
| `IrgCalculator.WalkScale` | hooks/useIrgCalculator.ts:32-52 | The `forEach` over the scale returns exactly `Breakdown` of the scale and, as running total, the sum of its taxes. The loop invariant says that after `index` brackets the breakdown is the breakdown of that prefix and the total is the sum of its taxes. |
| `JsMath.Min` | hooks/useIrgCalculator.ts:70 | The result is at most each argument and equals one of them. |
| `JsMath.Max` | hooks/useIrgCalculator.ts:72 | The result is at least each argument and equals one of them. |
| `JsMath.Floor` | hooks/useIrgCalculator.ts:77 | Returns the integer n with n ≤ x < n + 1. |
| `JsMath.Round` | hooks/useIrgCalculator.ts:80 | Returns the integer n with n − ½ ≤ x < n + ½, so halves round up. |
| `JsMath.Ceil` | hooks/useIrgCalculator.ts:83 | Returns the integer n with x ≤ n < x + 1. |
| `IrgProperties.ExemptionShortCircuit` | hooks/useIrgCalculator.ts:14-29 | The result is exempt exactly when salary ≤ EXEMPTION_LIMIT. When it is: the breakdown is empty, all tax and allowance fields are 0, the tag is `none`, and the net salary equals the salary. |
| `IrgProperties.DetailOfTouchedBracket` | hooks/useIrgCalculator.ts:37-50 | A bracket below the salary gets a detail that copies its bounds and rate. Its part is min(salary, upper or ∞) − lower: strictly positive, at most salary − lower, and at most upper − lower. Its tax is part × rate, non-negative when the rate is. Its label form is `> lower` for the unbounded bracket and `lower - upper` otherwise. |
| `IrgProperties.BreakdownIsTouchedPrefix` | hooks/useIrgCalculator.ts:36-52 | With ascending lower bounds, the breakdown is exactly the details of the brackets whose lower bound is below the salary, in table order. Position i is recorded iff bracket i's lower bound is below the salary. |
| `IrgProperties.RecordedSlicesPositive` | hooks/useIrgCalculator.ts:36-52 | Every recorded entry has lower < salary, a strictly positive part and tax = part × rate. With non-negative rates, every recorded tax is ≥ 0. |
| `IrgProperties.BracketTaxMonotone` | hooks/useIrgCalculator.ts:37-41 | One bracket's contribution to the total is ≥ 0 and does not fall as the salary rises. |
| `IrgProperties.TaxBeforeMonotone` | hooks/useIrgCalculator.ts:32-55 | With non-negative rates and non-empty bracket ranges, the sum of slice taxes is ≥ 0 and does not fall as the salary rises. |
| `IrgProperties.TaxedBreakdown` | hooks/useIrgCalculator.ts:32-55 | Above the exemption limit, on a well-formed table: the result is not exempt and its breakdown lists exactly the touched brackets in order, with positive parts and tax = part × rate. IRG_before_abattement is the sum of the breakdown's taxes and is ≥ 0. |
| `IrgProperties.EveryBracketAboveTop` | hooks/useIrgCalculator.ts:36-52 | A salary above the top bracket's lower bound records one entry for every bracket. |
| `IrgProperties.ReportedTaxMonotone` | hooks/useIrgCalculator.ts:14-55 | The reported IRG_before_abattement does not fall as the salary rises, including across the exemption limit. |
| `IrgProperties.SlicesTileSalary` | hooks/useIrgCalculator.ts:36-52 | On a contiguous scale with an unbounded top, the recorded parts add up to salary − the first lower bound. Every amount is taxed exactly once. |
| `IrgProperties.ClampLaws` | hooks/useIrgCalculator.ts:58-67 | The tag is `min` iff raw < MIN; `max` iff raw ≥ MIN and raw > MAX; `none` iff MIN ≤ raw ≤ MAX. The kept value is MIN, MAX or raw according to the tag. When MIN ≤ MAX the kept value lies in [MIN, MAX]. |
| `IrgProperties.AllowanceFollowsTag` | hooks/useIrgCalculator.ts:56-70 | In a taxed result, raw_abattement = IRG_before_abattement × ABATTEMENT_RATE. The tag follows the clamp conditions. monthly_abattement = min(MIN, MAX or raw according to the tag, IRG_before_abattement). |
| `IrgProperties.AllowanceBounds` | hooks/useIrgCalculator.ts:56-70 | On a well-formed table, 0 ≤ monthly_abattement ≤ min(MAX, IRG_before_abattement). It is never below min(MIN, IRG_before_abattement). |
| `IrgProperties.FinalTaxExact` | hooks/useIrgCalculator.ts:70-72 | IRG_final_raw ≥ 0 and equals IRG_before_abattement − monthly_abattement exactly; the max with 0 never bites. |
| `IrgProperties.RoundingLaws` | hooks/useIrgCalculator.ts:74-85 | floor ≤ round ≤ ceil. floor and ceil are within 1 of x, and round is within ½. All three are equal on whole numbers. |
| `IrgProperties.RoundedTaxAndNetSalary` | hooks/useIrgCalculator.ts:74-98 | IRG_final_rounded is the selected rounding of IRG_final_raw: within 1 of it and ≥ 0. The reported mode is the one selected. net_salary = salary − IRG_final_rounded, so it is ≤ salary. |
| `IrgProperties.AllowanceGrowsSlower` | hooks/useIrgCalculator.ts:56 | With a rate in [0, 1], the raw allowance rises with the tax, by no more than the tax rises. |
| `IrgProperties.FinalOfMonotone` | hooks/useIrgCalculator.ts:56-72 | With a rate in [0, 1] and MIN ≤ MAX, the final raw tax does not fall as IRG_before_abattement rises. |
| `IrgProperties.FinalTaxMonotone` | hooks/useIrgCalculator.ts:14-85 | On a well-formed table with a rate in [0, 1], IRG_final_raw does not fall as the salary rises, and neither does IRG_final_rounded under any one rounding mode. |
| `IrgProperties.DeterministicButForTimestamp` | hooks/useIrgCalculator.ts:7-100 | Two calls with the same rules, salary and mode give the same result except for the audit timestamp. The audit's version is "1.0.0". |

`salaryToProcess` is never reduced (hooks/useIrgCalculator.ts:33,37,39), so every bracket
test compares with the whole salary. A recorded part is zero only for a bracket with
upper = lower; given upper > lower every recorded part is strictly positive
(`RecordedSlicesPositive`).

## Left out

- The values in `constants.ts` (the scale, the 40% rate, the clamp bounds, the exemption
  limit) are not modelled. That file is not part of this model, so these are the `Rules`
  parameter.
- Floating point is not modelled: amounts are exact reals. IEEE-754 rounding, `NaN` and
  `Infinity` are out; an absent upper bound plays the role of `Infinity` in `Math.min`.
- The audit stamp is only partly modelled. The `timestamp` is a clock read and is a
  parameter. The `rules_applied` text is a template string with formatted numbers and is
  not modelled. The version string is kept.
- Detail descriptions are not formatted. The numbers use `toLocaleString('fr-FR')`, so the
  model records only the form of the label: `Above(lower)` or `Between(lower, upper)`.
- The `useCallback` wrapper and the hook that returns `calculate` are not modelled. They
  are React memoisation.
- App.tsx is not modelled. It is UI: parsing, error display, language, theming, printing.
  It also converts gross salary to taxable salary with `CNAS_RATE`. It calls the engine only
  with a non-negative number. The engine does not check this, so `Calculate` has no
  precondition on the salary.
- Rounding-mode strings outside the three enum values are not modelled. The closed
  `RoundingMethod` datatype cannot express them. (For such a string the source's switch
  would leave the rounded tax at 0.)
