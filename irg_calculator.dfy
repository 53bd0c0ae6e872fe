/** The IRG tax engine of hooks/useIrgCalculator.ts: a functional statement of
    what `calculate` returns, and the step-by-step computation proved to
    return exactly that. */
module IrgCalculator {
  import opened IrgTypes
  import JsMath

  const Version: string := "1.0.0"

  /** Math.min(salary, upper ?? Infinity): where the slice of bracket `b` ends. */
  function SliceTop(b: Bracket, salary: real): real
  {
    match b.upper
    case None => salary
    case Some(u) => JsMath.Min(salary, u)
  }

  function LabelOf(b: Bracket): Label
  {
    match b.upper
    case None => Above(b.lower)
    case Some(u) => Between(b.lower, u)
  }

  /** The tax on a slice of `part` at `rate`. */
  function SliceTax(part: real, rate: real): real
  {
    part * rate
  }

  /** The detail recorded for a bracket whose lower bound is below the salary. */
  function Detail(b: Bracket, salary: real): BracketDetail
  {
    var part := SliceTop(b, salary) - b.lower;
    BracketDetail(b.lower, b.upper, part, b.rate, SliceTax(part, b.rate), LabelOf(b))
  }

  /** The details recorded for `table`, walked in order. */
  function Breakdown(table: seq<Bracket>, salary: real): seq<BracketDetail>
  {
    if table == [] then []
    else
      var rest := Breakdown(table[..|table| - 1], salary);
      var b := table[|table| - 1];
      if salary > b.lower then rest + [Detail(b, salary)] else rest
  }

  /** The sum of the `tax` fields of a breakdown. */
  function SumTax(details: seq<BracketDetail>): real
  {
    if details == [] then 0.0
    else SumTax(details[..|details| - 1]) + details[|details| - 1].tax
  }

  /** The sum of the `part` fields of a breakdown. */
  function SumPart(details: seq<BracketDetail>): real
  {
    if details == [] then 0.0
    else SumPart(details[..|details| - 1]) + details[|details| - 1].part
  }

  /** IRG_before_abattement * ABATTEMENT_RATE. */
  function RawAbattement(before: real, rate: real): real
  {
    before * rate
  }

  /** The three-way clamp of the raw allowance, with the bound that applied. */
  function Clamp(raw: real, lo: real, hi: real): (real, AppliedLimit)
  {
    if raw < lo then (lo, MinLimit)
    else if raw > hi then (hi, MaxLimit)
    else (raw, NoLimit)
  }

  function RoundBy(mode: RoundingMethod, x: real): int
  {
    match mode
    case Floor => JsMath.Floor(x)
    case Round => JsMath.Round(x)
    case Ceil => JsMath.Ceil(x)
  }

  /** The allowance after the clamp and the silent cap at the tax, with the
      bound that applied. */
  function Allowance(rules: Rules, before: real): (real, AppliedLimit)
  {
    var (clamped, limit) := Clamp(RawAbattement(before, rules.abattementRate),
                                  rules.abattementMin, rules.abattementMax);
    (JsMath.Min(clamped, before), limit)
  }

  /** The final raw tax: the tax less the allowance, floored at zero. */
  function FinalTaxOf(rules: Rules, before: real): real
  {
    JsMath.Max(0.0, before - Allowance(rules, before).0)
  }

  /** What `calculate(salary, mode)` returns under `rules`, given the time stamp. */
  function CalculationFor(rules: Rules, salary: real, mode: RoundingMethod, timestamp: string): CalculationResult
  {
    var audit := Audit(timestamp, Version);
    if salary <= rules.exemptionLimit then
      CalculationResult(salary, [], 0.0, 0.0, 0.0, NoLimit, 0.0, 0, mode, true, salary, audit)
    else
      var details := Breakdown(rules.bareme, salary);
      var before := SumTax(details);
      var (monthly, limit) := Allowance(rules, before);
      var finalRaw := FinalTaxOf(rules, before);
      var rounded := RoundBy(mode, finalRaw);
      CalculationResult(salary, details, before, RawAbattement(before, rules.abattementRate),
                        monthly, limit, finalRaw, rounded, mode, false, salary - rounded as real, audit)
  }

  /** The `forEach` over the scale: every bracket whose lower bound is below the
      salary gets a detail, and its slice tax goes into the running total. */
  method WalkScale(bareme: seq<Bracket>, salaireImposable: real)
    returns (detailedBreakdown: seq<BracketDetail>, totalTax: real)
    ensures detailedBreakdown == Breakdown(bareme, salaireImposable)
    ensures totalTax == SumTax(detailedBreakdown)
  {
    totalTax := 0.0;
    var salaryToProcess := salaireImposable;
    detailedBreakdown := [];

    for index := 0 to |bareme|
      invariant detailedBreakdown == Breakdown(bareme[..index], salaireImposable)
      invariant totalTax == SumTax(detailedBreakdown)
    {
      var tranche := bareme[index];
      assert bareme[..index + 1][..index] == bareme[..index];
      if salaryToProcess > tranche.lower {
        var upper := match tranche.upper case None => salaryToProcess case Some(u) => u;
        var taxableAmountInSlice := JsMath.Min(salaryToProcess, upper) - tranche.lower;
        var taxInSlice := SliceTax(taxableAmountInSlice, tranche.rate);
        totalTax := totalTax + taxInSlice;
        var description := match tranche.upper
          case None => Above(tranche.lower)
          case Some(u) => Between(tranche.lower, u);
        var detail := BracketDetail(
          tranche.lower, tranche.upper, taxableAmountInSlice, tranche.rate, taxInSlice, description);
        assert detail == Detail(tranche, salaireImposable);
        assert (detailedBreakdown + [detail])[..|detailedBreakdown|] == detailedBreakdown;
        detailedBreakdown := detailedBreakdown + [detail];
      }
    }
    assert bareme[..|bareme|] == bareme;
  }

  /** `calculate`: the exemption short-circuit, the walk over the scale with its
      running total, the clamp of the allowance, the final tax, the rounding
      switch and the net salary. */
  method Calculate(rules: Rules, salaireImposable: real, roundingMethod: RoundingMethod, timestamp: string)
    returns (result: CalculationResult)
    ensures result == CalculationFor(rules, salaireImposable, roundingMethod, timestamp)
  {
    var audit := Audit(timestamp, Version);

    if salaireImposable <= rules.exemptionLimit {
      return CalculationResult(salaireImposable, [], 0.0, 0.0, 0.0, NoLimit, 0.0, 0,
                               roundingMethod, true, salaireImposable, audit);
    }

    var detailedBreakdown, totalTax := WalkScale(rules.bareme, salaireImposable);

    var irgBefore := totalTax;
    var rawAbattement := RawAbattement(irgBefore, rules.abattementRate);

    var monthlyAbattement := rawAbattement;
    var appliedLimit := NoLimit;
    if rawAbattement < rules.abattementMin {
      monthlyAbattement := rules.abattementMin;
      appliedLimit := MinLimit;
    } else if rawAbattement > rules.abattementMax {
      monthlyAbattement := rules.abattementMax;
      appliedLimit := MaxLimit;
    }

    monthlyAbattement := JsMath.Min(monthlyAbattement, irgBefore);
    assert (monthlyAbattement, appliedLimit) == Allowance(rules, irgBefore);

    var irgFinalRaw := JsMath.Max(0.0, irgBefore - monthlyAbattement);
    assert irgFinalRaw == FinalTaxOf(rules, irgBefore);

    var irgFinalRounded := 0;
    match roundingMethod {
      case Floor => irgFinalRounded := JsMath.Floor(irgFinalRaw);
      case Round => irgFinalRounded := JsMath.Round(irgFinalRaw);
      case Ceil => irgFinalRounded := JsMath.Ceil(irgFinalRaw);
    }
    assert irgFinalRounded == RoundBy(roundingMethod, irgFinalRaw);

    result := CalculationResult(salaireImposable, detailedBreakdown, irgBefore, rawAbattement,
                                monthlyAbattement, appliedLimit, irgFinalRaw, irgFinalRounded,
                                roundingMethod, false, salaireImposable - irgFinalRounded as real, audit);
  }
}
