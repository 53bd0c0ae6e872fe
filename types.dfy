/** The records of types.ts, and the shape of the rule table that the
    calculator reads from constants.ts (that file is not part of this model,
    so its values are a parameter). */
module IrgTypes {

  datatype Option<T> = None | Some(value: T)

  /** The three rounding modes; closed, as the enum is. */
  datatype RoundingMethod = Floor | Round | Ceil

  /** Which clamp bound replaced the raw allowance: 'min' | 'max' | 'none'. */
  datatype AppliedLimit = MinLimit | MaxLimit | NoLimit

  /** One bracket (tranche) of the scale; `upper == None` is the unbounded top. */
  datatype Bracket = Bracket(lower: real, upper: Option<real>, rate: real)

  /** The form of a detail's description: "> lower" for the unbounded bracket,
      "lower - upper" otherwise. The locale formatting of the numbers is not modelled. */
  datatype Label = Above(lower: real) | Between(lower: real, upper: real)

  datatype BracketDetail = BracketDetail(
    lower: real,
    upper: Option<real>,
    part: real,
    rate: real,
    tax: real,
    description: Label)

  /** The audit stamp; the timestamp is a clock read and comes in from outside. */
  datatype Audit = Audit(timestamp: string, version: string)

  datatype CalculationResult = CalculationResult(
    salaireImposable: real,
    breakdown: seq<BracketDetail>,
    irgBeforeAbattement: real,
    rawAbattement: real,
    monthlyAbattement: real,
    abattementAppliedLimit: AppliedLimit,
    irgFinalRaw: real,
    irgFinalRounded: int,
    roundingMethod: RoundingMethod,
    exempt: bool,
    netSalary: real,
    audit: Audit)

  /** The configuration constants the calculator imports: the scale (BARÈME),
      ABATTEMENT_RATE, ABATTEMENT_MIN, ABATTEMENT_MAX and EXEMPTION_LIMIT. */
  datatype Rules = Rules(
    bareme: seq<Bracket>,
    abattementRate: real,
    abattementMin: real,
    abattementMax: real,
    exemptionLimit: real)

  /** Lower bounds strictly ascending in table order. */
  predicate LowersAscending(table: seq<Bracket>)
  {
    forall i, j :: 0 <= i < j < |table| ==> table[i].lower < table[j].lower
  }

  /** Every bounded bracket has a non-empty range. */
  predicate BoundedAboveLower(table: seq<Bracket>)
  {
    forall i :: 0 <= i < |table| && table[i].upper.Some? ==> table[i].upper.value > table[i].lower
  }

  predicate RatesNonNegative(table: seq<Bracket>)
  {
    forall i :: 0 <= i < |table| ==> table[i].rate >= 0.0
  }

  /** Only the last bracket is unbounded. */
  predicate OnlyLastUnbounded(table: seq<Bracket>)
  {
    forall i :: 0 <= i < |table| ==> (table[i].upper.None? <==> i == |table| - 1)
  }

  /** The intended shape of the rule table. */
  predicate WellFormed(rules: Rules)
  {
    && |rules.bareme| > 0
    && LowersAscending(rules.bareme)
    && BoundedAboveLower(rules.bareme)
    && OnlyLastUnbounded(rules.bareme)
    && RatesNonNegative(rules.bareme)
    && 0.0 <= rules.abattementMin <= rules.abattementMax
  }

  /** Each bounded bracket ends where the next one begins. */
  predicate Contiguous(table: seq<Bracket>)
  {
    forall i :: 0 <= i < |table| - 1 ==> table[i].upper == Some(table[i + 1].lower)
  }
}
