/**
 * The credit-card loan EMI engine: the monthly rate, the annuity instalment,
 * the processing fee and its GST, and the month-by-month amortization
 * schedule with GST charged on each month's interest.
 *
 * Amounts are exact reals; the schedule is specified here by pure functions
 * and built step by step by `Calculator.CalculateEmi`.
 */
module Amortization {
  import opened Power

  /** The five numbers the calculator form collects. */
  datatype Inputs = Inputs(
    principal: real,
    annualRate: real,       // percent per year
    tenureMonths: nat,
    gstRate: real,          // percent
    processingFeeRate: real // percent of the principal
  )

  /** One month of the amortization schedule. */
  datatype Row = Row(
    month: nat,
    openingBalance: real,
    emiExGst: real,
    interest: real,
    principal: real,
    gstOnInterest: real,
    emiWithGst: real,
    closingBalance: real
  )

  /** Everything one calculation produces. */
  datatype Results = Results(
    monthlyEmi: real,
    processingFeeAmount: real,
    gstOnProcessingFee: real,
    totalInterest: real,
    totalGst: real,
    totalPaid: real,
    amortizationSchedule: seq<Row>
  )

  /** The quantities that stay fixed while the schedule is built. */
  datatype Terms = Terms(principal: real, monthlyRate: real, emiExGst: real, gstRate: real)

  /** A yearly percentage as a monthly fraction. */
  function MonthlyRate(annualRate: real): real
  {
    annualRate / 12.0 / 100.0
  }

  /** The annuity formula divides by (1 + r)^n - 1; it has a value exactly when that is not zero. */
  predicate AnnuityDefined(r: real, n: nat)
  {
    Pow(1.0 + r, n) != 1.0
  }

  /** The fixed monthly instalment, before GST, that the annuity formula gives. */
  function EmiExGst(principal: real, r: real, n: nat): real
    requires AnnuityDefined(r, n)
  {
    (principal * r * Pow(1.0 + r, n)) / (Pow(1.0 + r, n) - 1.0)
  }

  /** The one-time processing fee, a percentage of the principal. */
  function ProcessingFee(principal: real, processingFeeRate: real): real
  {
    (principal * processingFeeRate) / 100.0
  }

  /** GST at `gstRate` percent on an amount (the processing fee, or one month's interest). */
  function GstOn(amount: real, gstRate: real): real
  {
    (amount * gstRate) / 100.0
  }

  /** What `months` instalments of `emi` come to, before GST. */
  function InstalmentsTotal(emi: real, months: nat): real
  {
    emi * months as real
  }

  /** The outstanding balance after k instalments. */
  function Balance(t: Terms, k: nat): real
  {
    if k == 0 then t.principal
    else
      var balance := Balance(t, k - 1);
      balance - (t.emiExGst - balance * t.monthlyRate)
  }

  /** The schedule row of month i + 1. */
  function RowAt(t: Terms, i: nat): Row
  {
    var balance := Balance(t, i);
    var interest := balance * t.monthlyRate;
    var principalPayment := t.emiExGst - interest;
    var gstOnInterest := GstOn(interest, t.gstRate);
    Row(i + 1, balance, t.emiExGst, interest, principalPayment, gstOnInterest,
        t.emiExGst + gstOnInterest, balance - principalPayment)
  }

  /** The first k rows of the schedule, in month order. */
  function Schedule(t: Terms, k: nat): (rows: seq<Row>)
    ensures |rows| == k
    ensures forall i :: 0 <= i < k ==> rows[i] == RowAt(t, i)
  {
    if k == 0 then [] else Schedule(t, k - 1) + [RowAt(t, k - 1)]
  }

  /** How each row's figures follow from its opening balance, the monthly rate and the GST rate. */
  predicate RowFollowsFormulas(row: Row, r: real, gstRate: real)
  {
    && row.interest == row.openingBalance * r
    && row.principal == row.emiExGst - row.interest
    && row.gstOnInterest == GstOn(row.interest, gstRate)
    && row.emiWithGst == row.emiExGst + row.gstOnInterest
    && row.closingBalance == row.openingBalance - row.principal
  }

  /** Every row follows the row formulas at monthly rate r and GST rate gstRate. */
  predicate FollowFormulas(rows: seq<Row>, r: real, gstRate: real)
  {
    forall i :: 0 <= i < |rows| ==> RowFollowsFormulas(rows[i], r, gstRate)
  }

  /** Every row closes at the balance the next row opens with. */
  predicate Chained(rows: seq<Row>)
  {
    forall i :: 0 <= i < |rows| - 1 ==> rows[i].closingBalance == rows[i + 1].openingBalance
  }

  /** The columns that the totals row adds up. */
  datatype Column = EmiExGstColumn | InterestColumn | PrincipalColumn | GstColumn | EmiWithGstColumn

  function Cell(row: Row, c: Column): real
  {
    match c
    case EmiExGstColumn => row.emiExGst
    case InterestColumn => row.interest
    case PrincipalColumn => row.principal
    case GstColumn => row.gstOnInterest
    case EmiWithGstColumn => row.emiWithGst
  }

  /** A column added up from the first row to the last, starting from zero. */
  function ColumnSum(rows: seq<Row>, c: Column): real
  {
    if rows == [] then 0.0 else ColumnSum(rows[..|rows| - 1], c) + Cell(rows[|rows| - 1], c)
  }

  /** What one calculation reports for the given inputs. */
  function Amortize(inputs: Inputs): Results
    requires AnnuityDefined(MonthlyRate(inputs.annualRate), inputs.tenureMonths)
  {
    var r := MonthlyRate(inputs.annualRate);
    var emiExGst := EmiExGst(inputs.principal, r, inputs.tenureMonths);
    var schedule := Schedule(Terms(inputs.principal, r, emiExGst, inputs.gstRate), inputs.tenureMonths);
    var processingFeeAmount := ProcessingFee(inputs.principal, inputs.processingFeeRate);
    var gstOnProcessingFee := GstOn(processingFeeAmount, inputs.gstRate);
    var totalGst := ColumnSum(schedule, GstColumn);
    Results(
      emiExGst,
      processingFeeAmount,
      gstOnProcessingFee,
      ColumnSum(schedule, InterestColumn),
      totalGst,
      InstalmentsTotal(emiExGst, inputs.tenureMonths) + totalGst + processingFeeAmount + gstOnProcessingFee,
      schedule)
  }

  // ---------------------------------------------------------------------------
  // Shape of the schedule
  // ---------------------------------------------------------------------------

  /**
   * Row i is month i + 1, carries the fixed instalment, opens at the balance
   * left after i instalments, closes at the balance left after i + 1, and
   * follows the row formulas.
   */
  lemma RowAtShape(t: Terms, i: nat)
    ensures var row := RowAt(t, i);
      && row.month == i + 1
      && row.emiExGst == t.emiExGst
      && row.openingBalance == Balance(t, i)
      && row.closingBalance == Balance(t, i + 1)
      && RowFollowsFormulas(row, t.monthlyRate, t.gstRate)
  {
  }

  /** Row i of the schedule is month i + 1 and carries the fixed instalment. */
  lemma ScheduleMonths(t: Terms, k: nat)
    ensures var rows := Schedule(t, k);
      forall i :: 0 <= i < |rows| ==> rows[i].month == i + 1 && rows[i].emiExGst == t.emiExGst
  {
    forall i | 0 <= i < k
      ensures Schedule(t, k)[i].month == i + 1 && Schedule(t, k)[i].emiExGst == t.emiExGst
    {
      RowAtShape(t, i);
    }
  }

  /** Row i of the schedule opens at the balance after i instalments and closes at the balance after i + 1. */
  lemma ScheduleBalances(t: Terms, k: nat)
    ensures var rows := Schedule(t, k);
      forall i :: 0 <= i < |rows| ==>
        rows[i].openingBalance == Balance(t, i) && rows[i].closingBalance == Balance(t, i + 1)
  {
    forall i | 0 <= i < k
      ensures Schedule(t, k)[i].openingBalance == Balance(t, i)
      ensures Schedule(t, k)[i].closingBalance == Balance(t, i + 1)
    {
      RowAtShape(t, i);
    }
  }

  /**
   * Every row of the schedule follows the row formulas; the first row opens
   * at the principal, every row closes at the balance the next one opens
   * with, and the last closes at the balance left after k instalments.
   */
  lemma ScheduleChained(t: Terms, k: nat)
    ensures var rows := Schedule(t, k);
      && FollowFormulas(rows, t.monthlyRate, t.gstRate)
      && Chained(rows)
      && (k > 0 ==> rows[0].openingBalance == t.principal && rows[k - 1].closingBalance == Balance(t, k))
  {
    var rows := Schedule(t, k);
    forall i | 0 <= i < k
      ensures RowFollowsFormulas(rows[i], t.monthlyRate, t.gstRate)
    {
      RowAtShape(t, i);
    }
    ScheduleBalances(t, k);
  }

  // ---------------------------------------------------------------------------
  // Column totals, for any table whose rows follow the row formulas
  // ---------------------------------------------------------------------------

  /** One more instalment adds e to the running product. */
  lemma MulSucc(e: real, m: real)
    ensures e * m + e == e * (m + 1.0)
  {
  }

  /** When every row carries the instalment e, the EMI (ex-GST) column adds up to e times the number of rows. */
  lemma {:induction false} EmiColumnSum(rows: seq<Row>, e: real)
    requires forall i :: 0 <= i < |rows| ==> rows[i].emiExGst == e
    ensures ColumnSum(rows, EmiExGstColumn) == InstalmentsTotal(e, |rows|)
  {
    if rows != [] {
      EmiColumnSum(rows[..|rows| - 1], e);
      MulSucc(e, (|rows| - 1) as real);
    }
  }

  /**
   * The interest and principal columns add up to the EMI (ex-GST) column, the
   * EMI + GST column is the EMI column plus the GST column, and the GST column
   * is the GST on the whole interest column.
   */
  lemma {:induction false} ColumnSumsSplit(rows: seq<Row>, r: real, gstRate: real)
    requires FollowFormulas(rows, r, gstRate)
    ensures ColumnSum(rows, InterestColumn) + ColumnSum(rows, PrincipalColumn) == ColumnSum(rows, EmiExGstColumn)
    ensures ColumnSum(rows, EmiWithGstColumn) == ColumnSum(rows, EmiExGstColumn) + ColumnSum(rows, GstColumn)
    ensures ColumnSum(rows, GstColumn) == GstOn(ColumnSum(rows, InterestColumn), gstRate)
  {
    if rows != [] {
      var before := rows[..|rows| - 1];
      ColumnSumsSplit(before, r, gstRate);
      var interest := ColumnSum(before, InterestColumn);
      var last := rows[|rows| - 1].interest;
      assert RowFollowsFormulas(rows[|rows| - 1], r, gstRate);
      assert (interest * gstRate) / 100.0 + (last * gstRate) / 100.0 == ((interest + last) * gstRate) / 100.0;
    }
  }

  /**
   * In a chained table the principal column telescopes: it adds up to the
   * first opening balance less the last closing balance.
   */
  lemma {:induction false} PrincipalColumnTelescopes(rows: seq<Row>, r: real, gstRate: real)
    requires |rows| > 0
    requires FollowFormulas(rows, r, gstRate) && Chained(rows)
    ensures ColumnSum(rows, PrincipalColumn) == rows[0].openingBalance - rows[|rows| - 1].closingBalance
  {
    if |rows| > 1 {
      var before := rows[..|rows| - 1];
      PrincipalColumnTelescopes(before, r, gstRate);
      assert RowFollowsFormulas(rows[|rows| - 1], r, gstRate);
    } else {
      assert RowFollowsFormulas(rows[0], r, gstRate);
    }
  }

  // ---------------------------------------------------------------------------
  // The annuity instalment retires the loan
  // ---------------------------------------------------------------------------

  /**
   * One month of the closed form: if it holds for balance b and growth q, it
   * holds a month later. The calculation spells out the algebra for the reader.
   */
  lemma ClosedFormStep(p: real, r: real, e: real, b: real, q: real, b': real, q': real)
    requires b * r == p * r * q - e * (q - 1.0)
    requires b' == b - (e - b * r) && q' == (1.0 + r) * q
    ensures b' * r == p * r * q' - e * (q' - 1.0)
  {
    calc {
      b' * r;
      (b - (e - b * r)) * r;
      (b * r) * (1.0 + r) - e * r;
      (p * r * q - e * (q - 1.0)) * (1.0 + r) - e * r;
      p * r * ((1.0 + r) * q) - e * ((1.0 + r) * q - 1.0);
    }
  }

  /** After k instalments, r times the balance is P r (1+r)^k - e ((1+r)^k - 1). */
  lemma {:induction false} BalanceClosedForm(t: Terms, k: nat)
    ensures var q := Pow(1.0 + t.monthlyRate, k);
      Balance(t, k) * t.monthlyRate == t.principal * t.monthlyRate * q - t.emiExGst * (q - 1.0)
  {
    if k > 0 {
      BalanceClosedForm(t, k - 1);
      ClosedFormStep(t.principal, t.monthlyRate, t.emiExGst,
                     Balance(t, k - 1), Pow(1.0 + t.monthlyRate, k - 1),
                     Balance(t, k), Pow(1.0 + t.monthlyRate, k));
    }
  }

  /** A well-defined annuity formula needs a nonzero monthly rate. */
  lemma AnnuityRateNonZero(r: real, n: nat)
    requires AnnuityDefined(r, n)
    ensures r != 0.0 && n >= 1
  {
    if r == 0.0 {
      PowOfOne(n);
    }
  }

  /** With the annuity instalment, the balance after the last month is exactly zero. */
  lemma AnnuityClearsBalance(principal: real, r: real, n: nat, gstRate: real)
    requires AnnuityDefined(r, n)
    ensures Balance(Terms(principal, r, EmiExGst(principal, r, n), gstRate), n) == 0.0
  {
    var t := Terms(principal, r, EmiExGst(principal, r, n), gstRate);
    var q := Pow(1.0 + r, n);
    AnnuityRateNonZero(r, n);
    BalanceClosedForm(t, n);
    assert t.emiExGst * (q - 1.0) == principal * r * q;
    assert Balance(t, n) * r == 0.0;
  }

  /** A positive yearly rate and at least one month make the annuity formula well defined. */
  lemma PositiveRateDefined(annualRate: real, n: nat)
    requires annualRate > 0.0 && n >= 1
    ensures MonthlyRate(annualRate) > 0.0
    ensures AnnuityDefined(MonthlyRate(annualRate), n)
  {
    PowAboveOne(1.0 + MonthlyRate(annualRate), n);
  }

  /**
   * With the annuity instalment the schedule ends at a zero balance, so the
   * principal column adds up to the principal and the interest column to
   * everything paid beyond it; the other column totals follow.
   */
  lemma AnnuityScheduleTotals(principal: real, r: real, n: nat, gstRate: real)
    requires AnnuityDefined(r, n)
    ensures n >= 1
    ensures var e := EmiExGst(principal, r, n);
      var rows := Schedule(Terms(principal, r, e, gstRate), n);
      && rows[n - 1].closingBalance == 0.0
      && ColumnSum(rows, PrincipalColumn) == principal
      && ColumnSum(rows, EmiExGstColumn) == InstalmentsTotal(e, n)
      && ColumnSum(rows, InterestColumn) == InstalmentsTotal(e, n) - principal
      && ColumnSum(rows, GstColumn) == GstOn(ColumnSum(rows, InterestColumn), gstRate)
      && ColumnSum(rows, EmiWithGstColumn) == InstalmentsTotal(e, n) + ColumnSum(rows, GstColumn)
  {
    AnnuityRateNonZero(r, n);
    var t := Terms(principal, r, EmiExGst(principal, r, n), gstRate);
    var rows := Schedule(t, n);
    ScheduleChained(t, n);
    AnnuityClearsBalance(principal, r, n, gstRate);
    PrincipalColumnTelescopes(rows, r, gstRate);
    ScheduleMonths(t, n);
    EmiColumnSum(rows, t.emiExGst);
    ColumnSumsSplit(rows, r, gstRate);
  }

  /** Over a single month the instalment is the principal plus one month's interest. */
  lemma SingleMonthEmi(principal: real, r: real)
    requires AnnuityDefined(r, 1)
    ensures EmiExGst(principal, r, 1) == principal * (1.0 + r)
  {
    AnnuityRateNonZero(r, 1);
    assert Pow(1.0 + r, 1) == 1.0 + r;
    assert (principal * r * (1.0 + r)) / r == principal * (1.0 + r);
  }

  // ---------------------------------------------------------------------------
  // How the repayment progresses
  // ---------------------------------------------------------------------------

  /** The principal repaid in month i + 1: the fall in the balance over that month. */
  function Repaid(t: Terms, i: nat): real
  {
    Balance(t, i) - Balance(t, i + 1)
  }

  /**
   * Two consecutive months at instalment e: the second repays (1 + r) times
   * what the first repaid. The assertions spell out the algebra for the reader.
   */
  lemma RepaidStep(r: real, e: real, b0: real, b1: real, b2: real)
    requires b1 == b0 - (e - b0 * r) && b2 == b1 - (e - b1 * r)
    ensures b1 - b2 == (b0 - b1) * (1.0 + r)
  {
    assert b1 - b2 == e - b1 * r;
    assert b1 * r == b0 * r - (e - b0 * r) * r;
  }

  /** One more factor q on both sides of a geometric growth relation. */
  lemma GrowthStep(first: real, prev: real, next: real, q: real, qPrev: real, qNext: real)
    requires prev == qPrev * first && next == prev * q && qNext == q * qPrev
    ensures next == qNext * first
  {
  }

  /** Each month repays (1 + r) times the principal the month before repaid. */
  lemma RepaidRatio(t: Terms, i: nat)
    requires i > 0
    ensures Repaid(t, i) == Repaid(t, i - 1) * (1.0 + t.monthlyRate)
  {
    RepaidStep(t.monthlyRate, t.emiExGst, Balance(t, i - 1), Balance(t, i), Balance(t, i + 1));
  }

  /** The principal repaid in month i + 1 is (1 + r)^i times the first month's. */
  lemma {:induction false} RepaidGrowth(t: Terms, i: nat)
    ensures Repaid(t, i) == Pow(1.0 + t.monthlyRate, i) * Repaid(t, 0)
  {
    if i > 0 {
      RepaidGrowth(t, i - 1);
      RepaidRatio(t, i);
      PowStep(1.0 + t.monthlyRate, i);
      GrowthStep(Repaid(t, 0), Repaid(t, i - 1), Repaid(t, i),
                 1.0 + t.monthlyRate, Pow(1.0 + t.monthlyRate, i - 1), Pow(1.0 + t.monthlyRate, i));
    }
  }

  /** The principal column of each row is what that month repaid. */
  lemma RowRepaid(t: Terms, i: nat)
    ensures RowAt(t, i).principal == Repaid(t, i)
  {
    RowAtShape(t, i);
  }

  /** Each month's principal repayment is (1 + r) times the previous month's. */
  lemma PrincipalGrowth(t: Terms, i: nat)
    requires i > 0
    ensures RowAt(t, i).principal == RowAt(t, i - 1).principal * (1.0 + t.monthlyRate)
  {
    RowRepaid(t, i);
    RowRepaid(t, i - 1);
    RepaidRatio(t, i);
  }

  /** At a positive rate the annuity instalment exceeds the first month's interest. */
  lemma FirstRepaymentPositive(principal: real, r: real, n: nat)
    requires principal > 0.0 && r > 0.0 && n >= 1
    ensures AnnuityDefined(r, n)
    ensures EmiExGst(principal, r, n) > principal * r
  {
    PowAboveOne(1.0 + r, n);
    var q := Pow(1.0 + r, n);
    var d := q - 1.0;
    var e := EmiExGst(principal, r, n);
    assert e * d == principal * r * q;
    assert (e - principal * r) * d == principal * r;
    assert principal * r > 0.0;
  }

  /** Once the first month repays some principal at a rate above -100%, every month does. */
  lemma RepaymentsPositive(t: Terms, n: nat)
    requires 1.0 + t.monthlyRate > 0.0 && Repaid(t, 0) > 0.0
    ensures forall j :: 0 <= j < n ==> Repaid(t, j) > 0.0
  {
    forall j | 0 <= j < n
      ensures Repaid(t, j) > 0.0
    {
      RepaidGrowth(t, j);
      PowPositive(1.0 + t.monthlyRate, j);
    }
  }

  /** If every remaining month repays some principal, earlier balances exceed later ones. */
  lemma {:induction false} BalanceAboveLater(t: Terms, k: nat, n: nat)
    requires k <= n
    requires forall j :: k <= j < n ==> Repaid(t, j) > 0.0
    ensures k < n ==> Balance(t, k) > Balance(t, n)
    ensures Balance(t, k) >= Balance(t, n)
    decreases n - k
  {
    if k < n {
      assert Repaid(t, k) > 0.0;
      BalanceAboveLater(t, k + 1, n);
    }
  }

  /**
   * A month that opens with a positive balance, closes at a non-negative one
   * and repays principal, at a positive rate, has positive principal and
   * interest, and closes below its opening balance but not below zero.
   */
  lemma RowRepaysSteadily(t: Terms, i: nat)
    requires t.monthlyRate > 0.0 && Balance(t, i) > 0.0 && Balance(t, i + 1) >= 0.0
    requires Repaid(t, i) > 0.0
    ensures var row := RowAt(t, i);
      && row.principal > 0.0
      && row.interest > 0.0
      && 0.0 <= row.closingBalance < row.openingBalance
  {
    RowAtShape(t, i);
  }

  /**
   * For a positive principal and rate, every month repays some principal and
   * charges positive interest, and the balance falls month by month without
   * ever going below zero.
   */
  lemma AnnuityRepaysSteadily(principal: real, r: real, n: nat, gstRate: real)
    requires principal > 0.0 && r > 0.0 && n >= 1
    ensures AnnuityDefined(r, n)
    ensures var rows := Schedule(Terms(principal, r, EmiExGst(principal, r, n), gstRate), n);
      forall i :: 0 <= i < n ==>
        && rows[i].principal > 0.0
        && rows[i].interest > 0.0
        && 0.0 <= rows[i].closingBalance < rows[i].openingBalance
  {
    FirstRepaymentPositive(principal, r, n);
    var t := Terms(principal, r, EmiExGst(principal, r, n), gstRate);
    assert Repaid(t, 0) > 0.0;
    RepaymentsPositive(t, n);
    AnnuityClearsBalance(principal, r, n, gstRate);
    forall i | 0 <= i < n
      ensures RowAt(t, i).principal > 0.0 && RowAt(t, i).interest > 0.0
      ensures 0.0 <= RowAt(t, i).closingBalance < RowAt(t, i).openingBalance
    {
      BalanceAboveLater(t, i, n);
      BalanceAboveLater(t, i + 1, n);
      RowRepaysSteadily(t, i);
    }
  }

  // ---------------------------------------------------------------------------
  // What a calculation reports
  // ---------------------------------------------------------------------------

  /**
   * The reported schedule has one row per month, numbered from 1, each
   * carrying the reported instalment and following the row formulas; it
   * opens at the principal, each row closes where the next opens, and the
   * last row closes at zero.
   */
  lemma ReportedSchedule(inputs: Inputs)
    requires AnnuityDefined(MonthlyRate(inputs.annualRate), inputs.tenureMonths)
    ensures var results := Amortize(inputs);
      var rows := results.amortizationSchedule;
      && |rows| == inputs.tenureMonths
      && (forall i :: 0 <= i < |rows| ==> rows[i].month == i + 1 && rows[i].emiExGst == results.monthlyEmi)
      && FollowFormulas(rows, MonthlyRate(inputs.annualRate), inputs.gstRate)
      && Chained(rows)
      && rows[0].openingBalance == inputs.principal
      && rows[|rows| - 1].closingBalance == 0.0
  {
    var r := MonthlyRate(inputs.annualRate);
    var t := Terms(inputs.principal, r, EmiExGst(inputs.principal, r, inputs.tenureMonths), inputs.gstRate);
    AnnuityScheduleTotals(inputs.principal, r, inputs.tenureMonths, inputs.gstRate);
    ScheduleMonths(t, inputs.tenureMonths);
    ScheduleChained(t, inputs.tenureMonths);
  }

  /**
   * The totals row: the principal column adds up to the principal, the EMI
   * columns to the instalment times the tenure (plus the GST total), the
   * reported GST total is the GST on the reported interest total, and the
   * total paid is the EMI + GST column plus the fee and its GST, that is the
   * principal plus interest, GST on interest, the fee and GST on the fee.
   */
  lemma ReportedTotals(inputs: Inputs)
    requires AnnuityDefined(MonthlyRate(inputs.annualRate), inputs.tenureMonths)
    ensures var results := Amortize(inputs);
      var rows := results.amortizationSchedule;
      && ColumnSum(rows, PrincipalColumn) == inputs.principal
      && ColumnSum(rows, EmiExGstColumn) == InstalmentsTotal(results.monthlyEmi, inputs.tenureMonths)
      && ColumnSum(rows, EmiWithGstColumn) == InstalmentsTotal(results.monthlyEmi, inputs.tenureMonths) + results.totalGst
      && results.totalGst == GstOn(results.totalInterest, inputs.gstRate)
      && results.totalPaid == ColumnSum(rows, EmiWithGstColumn) + results.processingFeeAmount + results.gstOnProcessingFee
      && results.totalPaid
         == inputs.principal + results.totalInterest + results.totalGst
            + results.processingFeeAmount + results.gstOnProcessingFee
  {
    AnnuityScheduleTotals(inputs.principal, MonthlyRate(inputs.annualRate), inputs.tenureMonths, inputs.gstRate);
  }

  /** At the form's default 12% a year, the growth factor over the default 24 months, exactly. */
  lemma DefaultGrowth()
    ensures Pow(1.01, 24) == 1.269734648531914468903714880493455422104626762401
  {
    assert Pow(1.01, 1) == 1.01;
    assert Pow(1.01, 2) == 1.0201;
    assert Pow(1.01, 3) == 1.030301;
    assert Pow(1.01, 4) == 1.04060401;
    assert Pow(1.01, 5) == 1.0510100501;
    assert Pow(1.01, 6) == 1.061520150601;
    assert Pow(1.01, 7) == 1.07213535210701;
    assert Pow(1.01, 8) == 1.0828567056280801;
    assert Pow(1.01, 9) == 1.093685272684360901;
    assert Pow(1.01, 10) == 1.10462212541120451001;
    assert Pow(1.01, 11) == 1.1156683466653165551101;
    assert Pow(1.01, 12) == 1.126825030131969720661201;
    assert Pow(1.01, 13) == 1.13809328043328941786781301;
    assert Pow(1.01, 14) == 1.1494742132376223120464911401;
    assert Pow(1.01, 15) == 1.160968955369998535166956051501;
    assert Pow(1.01, 16) == 1.17257864492369852051862561201601;
    assert Pow(1.01, 17) == 1.1843044313729355057238118681361701;
    assert Pow(1.01, 18) == 1.196147475686664860781049986817531801;
    assert Pow(1.01, 19) == 1.20810895044353150938886048668570711901;
    assert Pow(1.01, 20) == 1.2201900399479668244827490915525641902001;
    assert Pow(1.01, 21) == 1.232391940347446492727576582468089832102101;
    assert Pow(1.01, 22) == 1.24471585975092095765485234829277073042312201;
    assert Pow(1.01, 23) == 1.2571630183484301672314008717756984377273532301;
    assert Pow(1.01, 24) == 1.269734648531914468903714880493455422104626762401;
  }

  /**
   * The form's starting values: 10,00,000 at 12% a year over 24 months, with
   * 18% GST and a 1% processing fee, give a 1% monthly rate, an instalment of
   * about 47,073.47 before GST, total interest of about 1,29,763, and a fee of
   * 10,000 with 1,800 GST on it.
   */
  lemma DefaultInputs()
    ensures var inputs := Inputs(1000000.0, 12.0, 24, 18.0, 1.0);
      && MonthlyRate(inputs.annualRate) == 0.01
      && AnnuityDefined(MonthlyRate(inputs.annualRate), inputs.tenureMonths)
      && 47073.47 < Amortize(inputs).monthlyEmi < 47073.48
      && 129763.0 < Amortize(inputs).totalInterest < 129764.0
      && Amortize(inputs).processingFeeAmount == 10000.0
      && Amortize(inputs).gstOnProcessingFee == 1800.0
  {
    PositiveRateDefined(12.0, 24);
    DefaultGrowth();
    var q := Pow(1.01, 24);
    var e := EmiExGst(1000000.0, 0.01, 24);
    assert e == (1000000.0 * 0.01 * q) / (q - 1.0);
    assert 47073.47 < e < 47073.48;
    AnnuityScheduleTotals(1000000.0, 0.01, 24, 18.0);
  }
}
