/** What `calculate` guarantees, stated about its functional statement
    CalculationFor (which the method Calculate is proved to return). */
module IrgProperties {
  import opened IrgTypes
  import JsMath
  import opened IrgCalculator

  // ---------------------------------------------------------------------------
  // Exemption

  /** At or below the exemption limit nothing is computed: the result is exempt,
      with an empty breakdown, zero tax and allowance, and the salary kept whole. */
  lemma ExemptionShortCircuit(rules: Rules, salary: real, mode: RoundingMethod, timestamp: string)
    ensures var r := CalculationFor(rules, salary, mode, timestamp);
      r.exempt <==> salary <= rules.exemptionLimit
    ensures var r := CalculationFor(rules, salary, mode, timestamp);
      salary <= rules.exemptionLimit ==>
        && r.breakdown == []
        && r.irgBeforeAbattement == 0.0 && r.rawAbattement == 0.0 && r.monthlyAbattement == 0.0
        && r.abattementAppliedLimit == NoLimit
        && r.irgFinalRaw == 0.0 && r.irgFinalRounded == 0
        && r.netSalary == salary
  {
  }

  // ---------------------------------------------------------------------------
  // The walk over the scale

  /** One recorded bracket: its slice runs from `lower` to min(salary, upper),
      is strictly positive when the bracket's range is non-empty, and is taxed
      at the bracket's rate. */
  lemma DetailOfTouchedBracket(b: Bracket, salary: real)
    requires salary > b.lower
    requires b.upper.Some? ==> b.upper.value > b.lower
    ensures var d := Detail(b, salary);
      && d.lower == b.lower && d.upper == b.upper && d.rate == b.rate
      && d.part == SliceTop(b, salary) - b.lower
      && 0.0 < d.part <= salary - b.lower
      && (b.upper.Some? ==> d.part <= b.upper.value - b.lower)
      && d.tax == SliceTax(d.part, d.rate)
      && (b.rate >= 0.0 ==> d.tax >= 0.0)
      && d.description == (if b.upper.None? then Above(b.lower) else Between(b.lower, b.upper.value))
  {
  }

  lemma PrefixOfPrefix<T>(s: seq<T>, n: nat)
    requires n < |s|
    ensures s[..n + 1][..n] == s[..n]
  {
  }

  /** With ascending lower bounds, the breakdown lists exactly the brackets whose
      lower bound is below the salary, in table order, and those form a prefix. */
  lemma {:induction false} BreakdownIsTouchedPrefix(table: seq<Bracket>, salary: real)
    requires LowersAscending(table)
    ensures var bd := Breakdown(table, salary);
      && |bd| <= |table|
      && (forall i :: 0 <= i < |bd| ==> bd[i] == Detail(table[i], salary))
      && (forall i :: 0 <= i < |table| ==> (i < |bd| <==> table[i].lower < salary))
  {
    if table != [] {
      var n := |table| - 1;
      var front := table[..n];
      assert LowersAscending(front);
      BreakdownIsTouchedPrefix(front, salary);
      var rest := Breakdown(front, salary);
      if salary > table[n].lower {
        assert forall i :: 0 <= i < n ==> table[i].lower < salary by {
          forall i | 0 <= i < n ensures table[i].lower < salary {
            assert table[i].lower < table[n].lower;
          }
        }
        assert forall i :: 0 <= i < n ==> front[i].lower < salary;
        assert |rest| == n;
      }
    }
  }

  /** Every recorded bracket lies below the salary, has a strictly positive
      slice and a tax equal to slice times rate; with non-negative rates,
      every recorded tax is non-negative. */
  lemma {:induction false} RecordedSlicesPositive(table: seq<Bracket>, salary: real)
    requires BoundedAboveLower(table)
    ensures forall d :: d in Breakdown(table, salary) ==>
      && d.lower < salary
      && d.part > 0.0
      && d.tax == SliceTax(d.part, d.rate)
      && (RatesNonNegative(table) ==> d.tax >= 0.0)
  {
    if table != [] {
      var n := |table| - 1;
      var front := table[..n];
      assert BoundedAboveLower(front);
      assert RatesNonNegative(table) ==> RatesNonNegative(front);
      RecordedSlicesPositive(front, salary);
      var rest := Breakdown(front, salary);
      if salary > table[n].lower {
        var d := Detail(table[n], salary);
        DetailOfTouchedBracket(table[n], salary);
        assert Breakdown(table, salary) == rest + [d];
        assert RatesNonNegative(table) ==> d.tax >= 0.0 by {
          if RatesNonNegative(table) {
            assert table[n].rate >= 0.0;
          }
        }
      } else {
        assert Breakdown(table, salary) == rest;
      }
    }
  }

  // ---------------------------------------------------------------------------
  // The total before the allowance

  lemma SumTaxSnoc(details: seq<BracketDetail>, d: BracketDetail)
    ensures SumTax(details + [d]) == SumTax(details) + d.tax
  {
    assert (details + [d])[..|details|] == details;
  }

  lemma SumPartSnoc(details: seq<BracketDetail>, d: BracketDetail)
    ensures SumPart(details + [d]) == SumPart(details) + d.part
  {
    assert (details + [d])[..|details|] == details;
  }

  /** Scaling by a non-negative factor keeps the order. */
  lemma ScaleMonotone(a: real, b: real, k: real)
    requires a <= b && k >= 0.0
    ensures a * k <= b * k
  {
  }

  /** Scaling two ordered non-negative amounts by a non-negative factor. */
  lemma ScaleOrdered(a: real, b: real, k: real)
    requires 0.0 <= a <= b && k >= 0.0
    ensures 0.0 <= SliceTax(a, k) <= SliceTax(b, k)
  {
    ScaleMonotone(0.0, a, k);
    ScaleMonotone(a, b, k);
  }

  /** The tax a single bracket contributes to the total at a salary. */
  function BracketTax(b: Bracket, salary: real): real
  {
    if salary > b.lower then Detail(b, salary).tax else 0.0
  }

  /** A bracket's contribution never falls as the salary rises. */
  lemma BracketTaxMonotone(b: Bracket, s1: real, s2: real)
    requires b.rate >= 0.0
    requires b.upper.Some? ==> b.upper.value > b.lower
    requires s1 <= s2
    ensures 0.0 <= BracketTax(b, s1) <= BracketTax(b, s2)
  {
    if s1 > b.lower {
      var p1 := SliceTop(b, s1) - b.lower;
      var p2 := SliceTop(b, s2) - b.lower;
      assert 0.0 < p1 <= p2;
      ScaleOrdered(p1, p2, b.rate);
      assert BracketTax(b, s1) == SliceTax(p1, b.rate);
      assert BracketTax(b, s2) == SliceTax(p2, b.rate);
    } else if s2 > b.lower {
      var p2 := SliceTop(b, s2) - b.lower;
      assert p2 > 0.0;
      ScaleOrdered(0.0, p2, b.rate);
      assert BracketTax(b, s2) == SliceTax(p2, b.rate);
    }
  }

  /** With non-negative rates the total before the allowance is non-negative
      and never decreases as the salary rises. */
  lemma {:induction false} TaxBeforeMonotone(table: seq<Bracket>, s1: real, s2: real)
    requires RatesNonNegative(table) && BoundedAboveLower(table)
    requires s1 <= s2
    ensures 0.0 <= SumTax(Breakdown(table, s1)) <= SumTax(Breakdown(table, s2))
  {
    if table != [] {
      var n := |table| - 1;
      var front := table[..n];
      assert RatesNonNegative(front) && BoundedAboveLower(front);
      TaxBeforeMonotone(front, s1, s2);
      BracketTaxMonotone(table[n], s1, s2);
      if s1 > table[n].lower {
        SumTaxSnoc(Breakdown(front, s1), Detail(table[n], s1));
      }
      if s2 > table[n].lower {
        SumTaxSnoc(Breakdown(front, s2), Detail(table[n], s2));
      }
    }
  }

  /** Above the exemption limit the result records the breakdown of the scale,
      its entries are exactly the touched prefix with positive slices, and the
      tax before the allowance is the sum of their taxes, never negative. */
  lemma TaxedBreakdown(rules: Rules, salary: real, mode: RoundingMethod, timestamp: string)
    requires WellFormed(rules)
    requires salary > rules.exemptionLimit
    ensures var r := CalculationFor(rules, salary, mode, timestamp);
      var bd := r.breakdown;
      && !r.exempt
      && |bd| <= |rules.bareme|
      && (forall i :: 0 <= i < |rules.bareme| ==> (i < |bd| <==> rules.bareme[i].lower < salary))
      && (forall i :: 0 <= i < |bd| ==>
            && bd[i] == Detail(rules.bareme[i], salary)
            && bd[i].part > 0.0
            && bd[i].tax == SliceTax(bd[i].part, bd[i].rate))
      && r.irgBeforeAbattement == SumTax(bd)
      && r.irgBeforeAbattement >= 0.0
  {
    var r := CalculationFor(rules, salary, mode, timestamp);
    assert r.breakdown == Breakdown(rules.bareme, salary);
    BreakdownIsTouchedPrefix(rules.bareme, salary);
    RecordedSlicesPositive(rules.bareme, salary);
    TaxBeforeMonotone(rules.bareme, salary, salary);
  }

  /** A salary above the lower bound of the top bracket records every bracket. */
  lemma EveryBracketAboveTop(rules: Rules, salary: real, mode: RoundingMethod, timestamp: string)
    requires WellFormed(rules)
    requires salary > rules.exemptionLimit
    requires salary > rules.bareme[|rules.bareme| - 1].lower
    ensures |CalculationFor(rules, salary, mode, timestamp).breakdown| == |rules.bareme|
  {
    BreakdownIsTouchedPrefix(rules.bareme, salary);
  }

  /** The reported tax before the allowance never decreases as the salary rises,
      across the exemption limit too. */
  lemma ReportedTaxMonotone(rules: Rules, s1: real, s2: real, m1: RoundingMethod, m2: RoundingMethod,
                            t1: string, t2: string)
    requires RatesNonNegative(rules.bareme) && BoundedAboveLower(rules.bareme)
    requires s1 <= s2
    ensures CalculationFor(rules, s1, m1, t1).irgBeforeAbattement
         <= CalculationFor(rules, s2, m2, t2).irgBeforeAbattement
  {
    TaxBeforeMonotone(rules.bareme, s1, s2);
  }

  // ---------------------------------------------------------------------------
  // Contiguous scales tile the salary

  lemma {:induction false} TilePrefix(table: seq<Bracket>, salary: real, n: nat)
    requires LowersAscending(table) && Contiguous(table) && OnlyLastUnbounded(table)
    requires 1 <= n <= |table|
    requires salary > table[0].lower
    ensures n < |table| ==>
      SumPart(Breakdown(table[..n], salary)) == JsMath.Min(salary, table[n].lower) - table[0].lower
    ensures n == |table| ==>
      SumPart(Breakdown(table[..n], salary)) == salary - table[0].lower
  {
    var m := n - 1;
    var b := table[m];
    PrefixOfPrefix(table, m);
    var rest := Breakdown(table[..m], salary);
    var d := Detail(b, salary);
    assert Breakdown(table[..n], salary) == if salary > b.lower then rest + [d] else rest;
    // where bracket m's slice may end: at the next lower bound, or nowhere
    assert n < |table| ==> b.upper == Some(table[n].lower);
    assert n == |table| ==> b.upper.None?;
    if salary > b.lower {
      SumPartSnoc(rest, d);
      if m == 0 {
        assert rest == [];
      } else {
        TilePrefix(table, salary, m);
        assert SumPart(rest) == b.lower - table[0].lower;
      }
    } else {
      assert m > 0;
      TilePrefix(table, salary, m);
      assert SumPart(rest) == salary - table[0].lower;
      if n < |table| {
        assert b.lower < table[n].lower;
      }
    }
  }

  /** On a contiguous scale whose top is unbounded, the recorded slices add up to
      the whole salary above the first lower bound: each amount is taxed once. */
  lemma SlicesTileSalary(table: seq<Bracket>, salary: real)
    requires |table| > 0
    requires LowersAscending(table) && Contiguous(table) && OnlyLastUnbounded(table)
    requires salary > table[0].lower
    ensures SumPart(Breakdown(table, salary)) == salary - table[0].lower
  {
    TilePrefix(table, salary, |table|);
    assert table[..|table|] == table;
  }

  // ---------------------------------------------------------------------------
  // The allowance

  /** The three-way clamp: 'min' exactly below MIN, 'max' exactly at or above MIN
      and above MAX, 'none' otherwise; the kept value follows the tag, and lies
      within [MIN, MAX] when MIN <= MAX. */
  lemma ClampLaws(raw: real, lo: real, hi: real)
    ensures var (v, tag) := Clamp(raw, lo, hi);
      && (tag == MinLimit <==> raw < lo)
      && (tag == MaxLimit <==> raw >= lo && raw > hi)
      && (tag == NoLimit <==> lo <= raw <= hi)
      && v == (match tag case MinLimit => lo case MaxLimit => hi case NoLimit => raw)
      && (lo <= hi ==> lo <= v <= hi)
  {
  }

  /** The reported allowance is the tagged clamp of the raw allowance, capped at
      the tax before the allowance. */
  lemma AllowanceFollowsTag(rules: Rules, salary: real, mode: RoundingMethod, timestamp: string)
    requires salary > rules.exemptionLimit
    ensures var r := CalculationFor(rules, salary, mode, timestamp);
      && r.rawAbattement == RawAbattement(r.irgBeforeAbattement, rules.abattementRate)
      && (r.abattementAppliedLimit == MinLimit <==> r.rawAbattement < rules.abattementMin)
      && (r.abattementAppliedLimit == MaxLimit <==>
            r.rawAbattement >= rules.abattementMin && r.rawAbattement > rules.abattementMax)
      && r.monthlyAbattement == JsMath.Min(
           match r.abattementAppliedLimit
           case MinLimit => rules.abattementMin
           case MaxLimit => rules.abattementMax
           case NoLimit => r.rawAbattement,
           r.irgBeforeAbattement)
  {
    var r := CalculationFor(rules, salary, mode, timestamp);
    ClampLaws(r.rawAbattement, rules.abattementMin, rules.abattementMax);
  }

  /** On a well-formed table the allowance lies in [0, min(MAX, tax)], and falls
      below MIN only where the tax itself is below MIN. */
  lemma AllowanceBounds(rules: Rules, salary: real, mode: RoundingMethod, timestamp: string)
    requires WellFormed(rules)
    ensures var r := CalculationFor(rules, salary, mode, timestamp);
      && 0.0 <= r.monthlyAbattement
      && r.monthlyAbattement <= rules.abattementMax
      && r.monthlyAbattement <= r.irgBeforeAbattement
      && r.monthlyAbattement >= JsMath.Min(rules.abattementMin, r.irgBeforeAbattement)
  {
    var r := CalculationFor(rules, salary, mode, timestamp);
    if salary > rules.exemptionLimit {
      TaxBeforeMonotone(rules.bareme, salary, salary);
      ClampLaws(r.rawAbattement, rules.abattementMin, rules.abattementMax);
    }
  }

  // ---------------------------------------------------------------------------
  // Final tax, rounding and net salary

  /** Because the allowance is capped, the final raw tax is exactly the tax less
      the allowance, and never negative. */
  lemma FinalTaxExact(rules: Rules, salary: real, mode: RoundingMethod, timestamp: string)
    ensures var r := CalculationFor(rules, salary, mode, timestamp);
      && r.irgFinalRaw >= 0.0
      && r.irgFinalRaw == r.irgBeforeAbattement - r.monthlyAbattement
  {
  }

  /** floor <= round <= ceil, each within one of x, and all three agree on integers. */
  lemma RoundingLaws(x: real)
    ensures JsMath.Floor(x) <= JsMath.Round(x) <= JsMath.Ceil(x)
    ensures x - 1.0 < JsMath.Floor(x) as real <= x <= JsMath.Ceil(x) as real < x + 1.0
    ensures x - 0.5 < JsMath.Round(x) as real <= x + 0.5
    ensures x == x.Floor as real ==>
      JsMath.Floor(x) == JsMath.Round(x) == JsMath.Ceil(x) == x.Floor
  {
  }

  /** The rounded tax is the selected rounding of the raw tax: a whole amount
      within one of it, never negative; the net salary is the salary less it. */
  lemma RoundedTaxAndNetSalary(rules: Rules, salary: real, mode: RoundingMethod, timestamp: string)
    ensures var r := CalculationFor(rules, salary, mode, timestamp);
      && r.roundingMethod == mode
      && r.irgFinalRounded == RoundBy(mode, r.irgFinalRaw)
      && r.irgFinalRaw - 1.0 < r.irgFinalRounded as real < r.irgFinalRaw + 1.0
      && r.irgFinalRounded >= 0
      && r.netSalary == salary - r.irgFinalRounded as real
      && r.netSalary <= salary
  {
    var r := CalculationFor(rules, salary, mode, timestamp);
    RoundingLaws(r.irgFinalRaw);
  }

  /** With a rate in [0, 1], the raw allowance rises with the tax, and by no more. */
  lemma AllowanceGrowsSlower(b1: real, b2: real, k: real)
    requires 0.0 <= k <= 1.0 && b1 <= b2
    ensures RawAbattement(b1, k) <= RawAbattement(b2, k)
    ensures RawAbattement(b2, k) - RawAbattement(b1, k) <= b2 - b1
  {
    var gap := b2 - b1;
    ScaleWithin(gap, k);
    var raw1, raw2, rise := b1 * k, b2 * k, gap * k;
    assert raw2 == raw1 + rise by { SplitProduct(b2, b1, k); }
    BoundedRise(raw1, raw2, rise, gap);
  }

  /** The purely linear step of the lemma above, kept apart from the products. */
  lemma BoundedRise(raw1: real, raw2: real, rise: real, gap: real)
    requires raw2 == raw1 + rise && 0.0 <= rise <= gap
    ensures raw1 <= raw2 && raw2 - raw1 <= gap
  {
  }

  lemma SplitProduct(x: real, y: real, k: real)
    ensures x * k == y * k + (x - y) * k
  {
  }

  lemma ScaleWithin(d: real, k: real)
    requires d >= 0.0 && 0.0 <= k <= 1.0
    ensures 0.0 <= d * k <= d
  {
    ScaleMonotone(0.0, d, k);
    ScaleMonotone(k, 1.0, d);
  }

  /** With an allowance rate in [0, 1] and MIN <= MAX, raising the tax before the
      allowance never lowers the final tax: the clamp grows no faster than the tax. */
  lemma FinalOfMonotone(rules: Rules, b1: real, b2: real)
    requires 0.0 <= rules.abattementRate <= 1.0
    requires rules.abattementMin <= rules.abattementMax
    requires b1 <= b2
    ensures FinalTaxOf(rules, b1) <= FinalTaxOf(rules, b2)
  {
    AllowanceGrowsSlower(b1, b2, rules.abattementRate);
  }

  /** The final raw tax, and so the rounded tax for any one rounding mode, never
      decreases as the salary rises, given a well-formed table and an allowance
      rate in [0, 1]. */
  lemma FinalTaxMonotone(rules: Rules, s1: real, s2: real, mode: RoundingMethod, t1: string, t2: string)
    requires WellFormed(rules)
    requires 0.0 <= rules.abattementRate <= 1.0
    requires s1 <= s2
    ensures var r1, r2 := CalculationFor(rules, s1, mode, t1), CalculationFor(rules, s2, mode, t2);
      r1.irgFinalRaw <= r2.irgFinalRaw && r1.irgFinalRounded <= r2.irgFinalRounded
  {
    var r1, r2 := CalculationFor(rules, s1, mode, t1), CalculationFor(rules, s2, mode, t2);
    FinalTaxExact(rules, s2, mode, t2);
    if s1 > rules.exemptionLimit {
      TaxBeforeMonotone(rules.bareme, s1, s2);
      FinalOfMonotone(rules, r1.irgBeforeAbattement, r2.irgBeforeAbattement);
      assert r1.irgFinalRaw == FinalTaxOf(rules, r1.irgBeforeAbattement);
      assert r2.irgFinalRaw == FinalTaxOf(rules, r2.irgBeforeAbattement);
    }
    var x1, x2 := r1.irgFinalRaw, r2.irgFinalRaw;
    assert x1 + 0.5 <= x2 + 0.5 && -x2 <= -x1;
  }

  /** Two calls with the same salary and mode differ only in the time stamp. */
  lemma DeterministicButForTimestamp(rules: Rules, salary: real, mode: RoundingMethod, t1: string, t2: string)
    ensures var r1, r2 := CalculationFor(rules, salary, mode, t1), CalculationFor(rules, salary, mode, t2);
      && r1.(audit := r2.audit) == r2
      && r1.audit == Audit(t1, "1.0.0") && r2.audit == Audit(t2, "1.0.0")
  {
  }
}
