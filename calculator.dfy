/**
 * The calculation the calculator runs whenever an input changes: it derives
 * the monthly rate, the instalment and the fee figures, then builds the
 * amortization schedule month by month while carrying the running balance
 * and the interest and GST totals.
 */
module Calculator {
  import opened Amortization

  /**
   * The schedule loop: starting from the principal, each month records a row
   * and takes that month's principal repayment off the running balance, while
   * the interest and GST totals accumulate.
   */
  method BuildSchedule(t: Terms, tenureMonths: nat)
    returns (schedule: seq<Row>, balance: real, totalInterest: real, totalGst: real)
    ensures schedule == Schedule(t, tenureMonths)
    ensures |schedule| == tenureMonths
    ensures balance == Balance(t, tenureMonths)
    ensures totalInterest == ColumnSum(schedule, InterestColumn)
    ensures totalGst == ColumnSum(schedule, GstColumn)
  {
    schedule := [];
    balance := t.principal;
    totalInterest := 0.0;
    totalGst := 0.0;

    for month := 1 to tenureMonths + 1
      invariant schedule == Schedule(t, month - 1)
      invariant balance == Balance(t, month - 1)
      invariant totalInterest == ColumnSum(schedule, InterestColumn)
      invariant totalGst == ColumnSum(schedule, GstColumn)
    {
      var interest := balance * t.monthlyRate;
      var principalPayment := t.emiExGst - interest;
      var gstOnInterest := GstOn(interest, t.gstRate);
      var emiWithGst := t.emiExGst + gstOnInterest;
      var row := Row(month, balance, t.emiExGst, interest, principalPayment,
                     gstOnInterest, emiWithGst, balance - principalPayment);
      assert row == RowAt(t, month - 1);
      assert (schedule + [row])[..|schedule|] == schedule;
      schedule := schedule + [row];
      balance := balance - principalPayment;
      totalInterest := totalInterest + interest;
      totalGst := totalGst + gstOnInterest;
    }
  }

  /**
   * Computes the instalment, the fee figures, the schedule and the totals for
   * one set of inputs. The annuity formula must have a nonzero denominator;
   * a positive yearly rate over at least one month guarantees that
   * (`Amortization.PositiveRateDefined`).
   */
  method CalculateEmi(inputs: Inputs) returns (results: Results)
    requires AnnuityDefined(MonthlyRate(inputs.annualRate), inputs.tenureMonths)
    ensures results == Amortize(inputs)
  {
    var monthlyRate := MonthlyRate(inputs.annualRate);
    var emiExGst := EmiExGst(inputs.principal, monthlyRate, inputs.tenureMonths);
    var processingFeeAmount := ProcessingFee(inputs.principal, inputs.processingFeeRate);
    var gstOnProcessingFee := GstOn(processingFeeAmount, inputs.gstRate);

    var schedule, _, totalInterest, totalGst :=
      BuildSchedule(Terms(inputs.principal, monthlyRate, emiExGst, inputs.gstRate), inputs.tenureMonths);

    var totalPaid := InstalmentsTotal(emiExGst, inputs.tenureMonths) + totalGst + processingFeeAmount + gstOnProcessingFee;

    results := Results(emiExGst, processingFeeAmount, gstOnProcessingFee,
                       totalInterest, totalGst, totalPaid, schedule);
  }
}
