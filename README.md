# card2emi EMI engine in Dafny

card2emi is a credit-card EMI calculator. The user enters five numbers:
- the amount converted to EMI (the principal);
- the yearly interest rate in percent;
- the tenure in months;
- the GST rate in percent;
- the processing-fee rate in percent.

From these, the calculator derives:
- the monthly rate, `annualRate / 12 / 100`;
- the fixed monthly instalment before GST, from the annuity formula `P·r·(1+r)^n / ((1+r)^n − 1)`;
- the processing fee and the GST on it;
- a month-by-month amortization schedule.

Each schedule row:
- charges interest on the opening balance;
- takes the rest of the instalment off the principal;
- adds GST on that month's interest;
- closes at the opening balance less the principal repaid.

The calculation reports the interest and GST totals and the total paid. The schedule table ends with a totals row that adds up the instalment and EMI + GST columns, shows the principal as the principal total, and shows ₹0 as the final balance.

The project has three modules:

- `Power` (`power.dfy`): natural powers of a real. They stand in for `Math.pow(1 + r, n)`, and the file proves the facts about them that the proofs use.
- `Amortization` (`amortization.dfy`): the specification.
  - Records: `Inputs`, `Row`, `Results` and `Terms`. `Terms` holds the principal, monthly rate, instalment and GST rate, which stay fixed while the schedule is built.
  - Scalar formulas: `MonthlyRate`, `EmiExGst`, `ProcessingFee`, `GstOn` and `InstalmentsTotal`.
  - `Balance(t, k)`: the balance after k instalments.
  - `RowAt(t, i)`: the row of month i + 1.
  - `Schedule(t, k)`: the first k rows.
  - `ColumnSum`: a left-to-right column total, like the `reduce` in the totals row.
  - `Amortize`: everything one calculation reports.
  - The lemmas about all of the above.
- `Calculator` (`calculator.dfy`): the calculation as the code performs it.
  - `BuildSchedule` is the schedule loop. It appends a row, lowers the running balance and accumulates the interest and GST totals, and its invariants tie that state to the specification.
  - `CalculateEmi` computes the scalar figures, runs the loop and assembles the results. It is proved equal to `Amortize`.

Amounts are exact reals. The annuity formula divides by `(1+r)^n − 1`, so every entry point requires that this is nonzero (`AnnuityDefined`). That rules out a zero rate and a zero tenure. `PositiveRateDefined` shows that any positive yearly rate over at least one month meets the requirement.

The code has no guard for a zero rate: `calculateEMI` evaluates `0/0` in that case. The model follows the code. It leaves the zero-rate case outside the precondition and does not add a `principal / n` fallback.

## Model

| member | source | states |
|---|---|---|
| Calculator.CalculateEmi | src/App.tsx:37-95 | The results are exactly `Amortize(inputs)`: instalment, fee, fee GST, interest and GST totals, total paid and schedule, all as specified. |
| Calculator.BuildSchedule | src/App.tsx:54-79 | The loop produces `Schedule(t, n)`, ends at `Balance(t, n)`, and its running totals equal the interest and GST column sums of the schedule it built. |
| Amortization.Schedule | src/App.tsx:59-74 | Exactly k rows; row i is the row computed from the balance left after i instalments. |
| Amortization.RowAtShape | src/App.tsx:60-76 | Row i is month i + 1 and carries the fixed instalment. It opens at the balance after i instalments and closes at the balance after i + 1. It obeys interest = opening·r, principal = EMI − interest, GST = interest·g/100, EMI+GST = EMI + GST and closing = opening − principal. |
| Amortization.ScheduleMonths | src/App.tsx:59-68 | Every row of the schedule is numbered i + 1 and carries the same instalment. |
| Amortization.ScheduleBalances | src/App.tsx:65-76 | Every row opens at the balance after i instalments and closes at the balance after i + 1. |
| Amortization.ScheduleChained | src/App.tsx:55-76 | All rows obey the row formulas. The first row opens at the principal, each row closes at the next row's opening, and the last row closes at the balance after all instalments. |
| Amortization.EmiColumnSum | src/App.tsx:370 | If every row carries instalment e, the EMI (ex-GST) column adds up to e times the number of rows. |
| Amortization.ColumnSumsSplit | src/App.tsx:370-382 | In any table whose rows obey the formulas: interest + principal columns = EMI column; EMI+GST column = EMI column + GST column; GST column = GST on the interest column. |
| Amortization.PrincipalColumnTelescopes | src/App.tsx:376 | In a chained table obeying the formulas, the principal column adds up to the first opening balance less the last closing balance. |
| Amortization.BalanceClosedForm | src/App.tsx:60-76 | After k months, r·balance = P·r·(1+r)^k − e·((1+r)^k − 1), for any instalment e. |
| Amortization.AnnuityRateNonZero | src/App.tsx:44-45 | The annuity formula has a nonzero denominator only if the monthly rate is nonzero and the tenure is at least one month. |
| Amortization.AnnuityClearsBalance | src/App.tsx:44-45 | With the annuity instalment, the balance after the last month is exactly zero. |
| Amortization.PositiveRateDefined | src/App.tsx:41-45 | A positive yearly rate gives a positive monthly rate. Over at least one month, the instalment formula is then well defined. |
| Amortization.SingleMonthEmi | src/App.tsx:44-45 | Over one month, the instalment is the principal plus one month's interest. |
| Amortization.AnnuityScheduleTotals | src/App.tsx:370-384 | For the annuity schedule, the last row closes at 0 (the ₹0 cell) and the principal column sums to the principal. The EMI column sums to e·n, the interest column to e·n − P, the GST column to GST on the interest total, and the EMI+GST column to e·n + the GST total. |
| Amortization.RepaidRatio | src/App.tsx:60-76 | The principal repaid in each month is (1 + r) times the previous month's. |
| Amortization.RepaidGrowth | src/App.tsx:60-76 | The principal repaid in month i + 1 is (1 + r)^i times the first month's. |
| Amortization.RowRepaid | src/App.tsx:61-73 | A row's principal column is the fall in the balance over that month. |
| Amortization.PrincipalGrowth | src/App.tsx:60-70 | Each row's principal column is (1 + r) times the previous row's. |
| Amortization.FirstRepaymentPositive | src/App.tsx:44-45 | For a positive principal and rate, the instalment exceeds the first month's interest, and the formula is defined. |
| Amortization.RepaymentsPositive | src/App.tsx:60-76 | Suppose the first month repays principal and 1 + r > 0. Then every month repays principal. |
| Amortization.BalanceAboveLater | src/App.tsx:76 | When every remaining month repays principal, an earlier balance is at least every later one, and strictly above it when it comes earlier. |
| Amortization.RowRepaysSteadily | src/App.tsx:60-73 | Take a month that opens positive, closes non-negative and repays principal, at a positive rate. Its principal and interest are positive and 0 ≤ closing < opening. |
| Amortization.AnnuityRepaysSteadily | src/App.tsx:59-76 | For a positive principal and rate, every row has positive principal and interest, and its closing balance is non-negative and below its opening balance. |
| Amortization.ReportedSchedule | src/App.tsx:54-90 | The reported schedule has one row per month, numbered from 1. Each row carries the reported instalment and obeys the row formulas. The schedule opens at the principal, is chained, and closes at 0. |
| Amortization.ReportedTotals | src/App.tsx:81 | For the reported results: the principal column sums to the principal, the EMI column to instalment·tenure, and the EMI+GST column to that plus the GST total. The GST total is GST on the interest total. Total paid = the EMI+GST column + fee + fee GST = principal + interest + GST + fee + fee GST, so the "extra" figure (total paid − principal) is interest, GST and fees. |
| Amortization.DefaultGrowth | src/App.tsx:44-45 | At the default 1% monthly rate over 24 months, (1 + r)^n is exactly 1.269734648531914468903714880493455422104626762401. |
| Amortization.DefaultInputs | src/App.tsx:26-32 | The initial form values (10,00,000 at 12% for 24 months, 18% GST, 1% fee) give a 1% monthly rate, a defined instalment strictly between 47,073.47 and 47,073.48, total interest strictly between 1,29,763 and 1,29,764, a fee of 10,000 and fee GST of 1,800. |

## Left out

- React state, `useEffect`, the `setTimeout` animation flag and all JSX rendering are not modelled. The calculation is a function of its inputs.
- `formatCurrency` and its Indian grouping, the `'₹0'` display fallback for `NaN`, and the `toFixed(1)` percentage are presentation only.
- IEEE-754 rounding is not modelled. Amounts are exact reals, so the final balance is exactly zero rather than within a rounding tolerance.
- `Math.pow` is modelled as a natural power. This is exact for the whole-month exponent the calculator uses.
- A monthly rate of zero, a tenure of zero, and any rate for which `(1+r)^n = 1` are excluded by the `AnnuityDefined` precondition. For these inputs the code divides by zero and produces `NaN`/`Infinity`, and the model does not represent non-finite numbers.
- Fractional and negative tenures, which the number field can submit, are not modelled: the tenure is a natural number.
- Calculator.CalculateEmi: the loop is a separate method, `BuildSchedule`, called from `CalculateEmi`. The code runs it inline in `calculateEMI`.
- AnnuityRepaysSteadily: states positivity only for a positive principal and rate, not for the negative or zero inputs the form accepts.
- The personal-loan variant (no GST on interest) does not exist in this code and is not modelled.
