/** Restating money between the two GST bases, and percentages of a contract (executed-value.ts), in whole paise. */
module ExecutedValue {
  import opened Text
  import opened Decimal

  datatype Basis = Inclusive | Exclusive

  const RATE_UNIT: nat := 10000

  /** Division by a positive divisor, rounding half away from zero. */
  function DivideRoundHalfUp(numerator: int, divisor: int): int
    requires divisor > 0
  {
    var rounded := (Abs(numerator) * 2 + divisor) / (divisor * 2);
    if numerator < 0 then -rounded else rounded
  }

  /** 18.00% is 1800 hundredths of a percent, and a factor of 11800 over 10000. */
  function RateFactor(hundredths: nat): nat { RATE_UNIT + hundredths }

  function Convert(paise: int, from: Basis, to: Basis, hundredths: nat): int {
    if from == to then paise
    else if from == Inclusive then DivideRoundHalfUp(paise * RATE_UNIT, RateFactor(hundredths))
    else DivideRoundHalfUp(paise * RateFactor(hundredths), RATE_UNIT)
  }

  // ---- rounding ----------------------------------------------------------------------------

  /** The rounding the money columns assume, stated without division. */
  lemma DivideRoundsTo(numerator: int, divisor: int)
    requires divisor > 0
    ensures RoundsTo(numerator, divisor, DivideRoundHalfUp(numerator, divisor))
  {
    var m := Abs(numerator) * 2 + divisor;
    var q := m / (divisor * 2);
    assert q * (divisor * 2) == 2 * q * divisor;
    assert (q + 1) * (divisor * 2) == 2 * q * divisor + 2 * divisor;
    if numerator < 0 { assert 2 * (-q) * divisor == -(2 * q * divisor); }
  }

  lemma RoundedWithin(n: int, d: int, r: int)
    requires d > 0 && RoundsTo(n, d, r)
    ensures -d <= 2 * (n - r * d) <= d
  {
    assert 2 * r * d == 2 * (r * d);
  }

  /** A figure less than half a unit off, or not off at all, rounds back. */
  lemma RoundsBack(n: int, d: int, r: int)
    requires d > 0 && (-d < 2 * (n - r * d) < d || n == r * d)
    ensures DivideRoundHalfUp(n, d) == r
  {
    assert 2 * r * d == 2 * (r * d);
    assert RoundsTo(n, d, r);
    DivideRoundsTo(n, d);
    RoundsToUnique(n, d, r, DivideRoundHalfUp(n, d));
  }

  // ---- both ways round ------------------------------------------------------------------------

  /** Adding the tax and taking it off again is the identity, at every rate. */
  lemma ExclusiveRoundTrip(paise: int, hundredths: nat)
    ensures Convert(Convert(paise, Exclusive, Inclusive, hundredths), Inclusive, Exclusive, hundredths) == paise
  {
    var f := RateFactor(hundredths);
    var x := Convert(paise, Exclusive, Inclusive, hundredths);
    DivideRoundsTo(paise * f, RATE_UNIT);
    RoundedWithin(paise * f, RATE_UNIT, x);
    if hundredths == 0 {
    }
    RoundsBack(x * RATE_UNIT, f, paise);
  }

  function TakenOffAndAdded(paise: int, hundredths: nat): int {
    Convert(Convert(paise, Inclusive, Exclusive, hundredths), Exclusive, Inclusive, hundredths)
  }

  /** Taking the tax off and adding it again moves a figure by at most one paisa, up to a rate of 200%. */
  lemma InclusiveRoundTrip(paise: int, hundredths: nat)
    requires hundredths <= 20000
    ensures -1 <= TakenOffAndAdded(paise, hundredths) - paise <= 1
  {
    hide DivideRoundHalfUp;
    var f := RateFactor(hundredths);
    var x := DivideRoundHalfUp(paise * RATE_UNIT, f);
    var y := DivideRoundHalfUp(x * f, RATE_UNIT);
    DivideRoundsTo(paise * RATE_UNIT, f);
    RoundedWithin(paise * RATE_UNIT, f, x);
    DivideRoundsTo(x * f, RATE_UNIT);
    RoundedWithin(x * f, RATE_UNIT, y);
    AtMostOne(paise, f, x, x * f, y);
  }

  lemma AtMostOne(paise: int, f: int, x: int, z: int, y: int)
    requires RATE_UNIT <= f <= 30000 && (f == 30000 ==> z == 30000 * x)
    requires -f <= 2 * (paise * RATE_UNIT - z) <= f && -10000 <= 2 * (z - y * RATE_UNIT) <= 10000
    ensures -1 <= y - paise <= 1
  {
    if f < 30000 {
      assert -(f + 10000) <= 20000 * (paise - y) <= f + 10000;
    } else {
      assert -3 <= 2 * (paise - 3 * x) <= 3;
      assert -1 <= 2 * (3 * x - y) <= 1;
    }
  }

  /** A common divisor of two numbers that is also a combination of them. */
  lemma {:induction false} Bezout(a: nat, b: nat) returns (g: nat, i: nat, k: nat, u: int, v: int)
    requires a > 0
    ensures g > 0 && a == g * i && b == g * k && u * a + v * b == g
    decreases b
  {
    if b == 0 {
      g, i, k, u, v := a, 1, 0, 1, 0;
    } else {
      var q, r := a / b, a % b;
      var i', k', u', v';
      g, i', k', u', v' := Bezout(b, r);
      i, k, u, v := q * i' + k', i', v', u' - q * v';
      Distribute(g, q, i', k');
      Combine(u', v', q, b, r);
    }
  }

  lemma Distribute(g: int, q: int, i: int, k: int)
    ensures g * (q * i + k) == q * (g * i) + g * k
  {
  }

  lemma Combine(u: int, v: int, q: int, b: int, r: int)
    ensures v * (q * b + r) + (u - q * v) * b == u * b + v * r
  {
    assert v * (q * b + r) == q * v * b + v * r;
    assert (u - q * v) * b == u * b - q * v * b;
  }

  /** Above 200% some exclusive amount, taxed, stands at least one and a half paise above an inclusive one. */
  lemma TwoApart(f: nat) returns (x: nat, p: nat, d: nat)
    requires f > 30000
    ensures x * f - p * RATE_UNIT == d && 30000 <= 2 * d <= f
  {
    var g, i, k, u, v := Bezout(f, RATE_UNIT);
    var m := (3 * k + 1) / 2;
    d := g * m;
    Halfway(g, k, m, f, i);
    Scaled(m, u, v, f, g);
    x, p := NotNegative(m * u, -(m * v), f);
  }

  /** A difference of multiples is one of natural multiples. */
  lemma NotNegative(x0: int, p0: int, f: nat) returns (x: nat, p: nat)
    requires f > 0
    ensures x * f - p * RATE_UNIT == x0 * f - p0 * RATE_UNIT
  {
    var t := Abs(x0) + Abs(p0);
    Shifted(x0, p0, f, t);
    x, p := x0 + RATE_UNIT * t, p0 + f * t;
  }

  lemma Halfway(g: nat, k: nat, m: nat, f: nat, i: nat)
    requires g > 0 && g * k == RATE_UNIT && f == g * i && f > 30000 && m == (3 * k + 1) / 2
    ensures 30000 <= 2 * (g * m) <= f
  {
    assert 3 * k <= 2 * m <= 3 * k + 1;
    assert i <= 3 * k ==> g * i <= g * (3 * k);
    assert g * (3 * k) <= g * (2 * m) <= g * i;
  }

  lemma Scaled(m: int, u: int, v: int, f: int, g: int)
    requires u * f + v * RATE_UNIT == g
    ensures (m * u) * f - (-(m * v)) * RATE_UNIT == g * m
  {
    assert m * (u * f) == (m * u) * f;
    assert m * (u * f + v * RATE_UNIT) == m * (u * f) + m * v * RATE_UNIT;
  }

  lemma Shifted(x0: int, p0: int, f: nat, t: nat)
    requires t == Abs(x0) + Abs(p0) && f > 0
    ensures x0 + RATE_UNIT * t >= 0 && p0 + f * t >= 0
    ensures (x0 + RATE_UNIT * t) * f - (p0 + f * t) * RATE_UNIT == x0 * f - p0 * RATE_UNIT
  {
    assert f * t >= t;
    assert (RATE_UNIT * t) * f == (f * t) * RATE_UNIT;
    assert (x0 + RATE_UNIT * t) * f == x0 * f + (RATE_UNIT * t) * f;
  }

  /** Above 200% some amount moves two paise or more. */
  lemma DriftAboveTwiceTheBase(hundredths: nat) returns (paise: nat)
    requires hundredths > 20000
    ensures TakenOffAndAdded(paise, hundredths) - paise >= 2
  {
    var f := RateFactor(hundredths);
    var x, d;
    x, paise, d := TwoApart(f);
    TakesOff(paise, f, x, d);
    AddsBack(paise, f, x, d);
  }

  lemma TakesOff(paise: nat, f: nat, x: nat, d: nat)
    requires x * f - paise * RATE_UNIT == d && 0 < 2 * d <= f
    ensures DivideRoundHalfUp(paise * RATE_UNIT, f) == x
  {
    assert RoundsTo(paise * RATE_UNIT, f, x) by { assert 2 * x * f == 2 * (x * f); }
    DivideRoundsTo(paise * RATE_UNIT, f);
    RoundsToUnique(paise * RATE_UNIT, f, x, DivideRoundHalfUp(paise * RATE_UNIT, f));
  }

  lemma AddsBack(paise: nat, f: nat, x: nat, d: nat)
    requires x * f - paise * RATE_UNIT == d && 2 * d >= 30000
    ensures DivideRoundHalfUp(x * f, RATE_UNIT) >= paise + 2
  {
    DivideRoundsTo(x * f, RATE_UNIT);
  }

  /** Nothing moves more than one paisa exactly at the rates up to 200%. */
  lemma InclusiveExactlyWhen(hundredths: nat)
    ensures (forall paise :: -1 <= TakenOffAndAdded(paise, hundredths) - paise <= 1) <==> hundredths <= 20000
  {
    hide TakenOffAndAdded;
    if hundredths <= 20000 {
      forall paise ensures -1 <= TakenOffAndAdded(paise, hundredths) - paise <= 1 {
        InclusiveRoundTrip(paise, hundredths);
      }
    } else {
      var paise := DriftAboveTwiceTheBase(hundredths);
    }
  }

  lemma ConvertMonotone(p: int, q: int, from: Basis, to: Basis, hundredths: nat)
    requires p <= q
    ensures Convert(p, from, to, hundredths) <= Convert(q, from, to, hundredths)
  {
    var f := RateFactor(hundredths);
    DivideMonotone(p * RATE_UNIT, q * RATE_UNIT, f);
    assert p * f <= q * f;
    DivideMonotone(p * f, q * f, RATE_UNIT);
  }

  lemma DivideMonotone(m: int, n: int, d: nat)
    requires d > 0 && m <= n
    ensures DivideRoundHalfUp(m, d) <= DivideRoundHalfUp(n, d)
  {
    DivideRoundsTo(m, d);
    DivideRoundsTo(n, d);
    RoundsToOrdered(m, n, d, DivideRoundHalfUp(m, d), DivideRoundHalfUp(n, d));
  }

  /** A credit note is restated exactly as the invoice it reverses. */
  lemma ConvertSymmetric(paise: int, from: Basis, to: Basis, hundredths: nat)
    ensures Convert(-paise, from, to, hundredths) == -Convert(paise, from, to, hundredths)
  {
    var f := RateFactor(hundredths);
    assert (-paise) * f == -(paise * f);
  }

  // ---- percentages --------------------------------------------------------------------------------

  const PERCENT_UNITS: nat := 1000000

  datatype Work = Work(contractPaise: int, numeratorPaise: int, numeratorBasis: Basis, basis: Basis, hundredths: nat)

  function TaxableContract(w: Work): int { Convert(w.contractPaise, w.basis, Exclusive, w.hundredths) }

  function TaxableNumerator(w: Work): int { Convert(w.numeratorPaise, w.numeratorBasis, Exclusive, w.hundredths) }

  /** Executed value over one contract, in ten-thousandths of a percent; None over a contract of nothing. */
  function ExecutedPercent(w: Work): Option<int>
    requires w.contractPaise >= 0
  {
    if w.contractPaise == 0 then None
    else
      var comparable := Convert(w.numeratorPaise, w.numeratorBasis, w.basis, w.hundredths);
      Some(DivideRoundHalfUp(comparable * PERCENT_UNITS, w.contractPaise))
  }

  /** More executed never reads as a smaller percentage. */
  lemma ExecutedMonotone(less: Work, more: Work)
    requires less.contractPaise > 0 && less.numeratorPaise <= more.numeratorPaise
    requires more == less.(numeratorPaise := more.numeratorPaise)
    ensures ExecutedPercent(less).value <= ExecutedPercent(more).value
  {
    hide Convert, DivideRoundHalfUp;
    var w := less;
    ConvertMonotone(w.numeratorPaise, more.numeratorPaise, w.numeratorBasis, w.basis, w.hundredths);
    DivideMonotone(
      Convert(w.numeratorPaise, w.numeratorBasis, w.basis, w.hundredths) * PERCENT_UNITS,
      Convert(more.numeratorPaise, w.numeratorBasis, w.basis, w.hundredths) * PERCENT_UNITS, w.contractPaise);
  }

  /**
   * A contract wholly executed reads 100.0000% whichever basis the executed figure is stated on: the paisa the
   * restatement may move is below the last digit from 20,000 rupees up.
   */
  lemma FullyExecuted(w: Work)
    requires w.hundredths <= 20000 && w.contractPaise > 2 * PERCENT_UNITS
    requires w.numeratorPaise == Convert(w.contractPaise, w.basis, w.numeratorBasis, w.hundredths)
    ensures ExecutedPercent(w) == Some(PERCENT_UNITS)
  {
    hide Convert, DivideRoundHalfUp;
    var comparable := Convert(w.numeratorPaise, w.numeratorBasis, w.basis, w.hundredths);
    assert -1 <= comparable - w.contractPaise <= 1 by {
      RestatedBack(w.contractPaise, w.basis, w.numeratorBasis, w.hundredths);
    }
    RoundsBack(comparable * PERCENT_UNITS, w.contractPaise, PERCENT_UNITS);
  }

  lemma RestatedBack(paise: int, from: Basis, to: Basis, hundredths: nat)
    requires hundredths <= 20000
    ensures -1 <= Convert(Convert(paise, from, to, hundredths), to, from, hundredths) - paise <= 1
  {
    hide DivideRoundHalfUp;
    ExclusiveRoundTrip(paise, hundredths);
    InclusiveRoundTrip(paise, hundredths);
  }

  function ContractTotal(works: seq<Work>): int {
    if works == [] then 0 else ContractTotal(works[..|works| - 1]) + TaxableContract(works[|works| - 1])
  }

  /** The executed side, over the works whose taxable contract is not nothing. */
  function ExecutedTotal(works: seq<Work>): int {
    if works == [] then 0
    else
      var before, w := ExecutedTotal(works[..|works| - 1]), works[|works| - 1];
      if TaxableContract(w) == 0 then before else before + TaxableNumerator(w)
  }

  predicate NoNegativeContracts(works: seq<Work>) { forall w :: w in works ==> w.contractPaise >= 0 }

  lemma {:induction false} TotalsNotNegative(works: seq<Work>)
    requires NoNegativeContracts(works)
    ensures ContractTotal(works) >= 0
    ensures ContractTotal(works) == 0 <==> forall w :: w in works ==> TaxableContract(w) == 0
    decreases |works|
  {
    hide Convert;
    if works != [] {
      var init, w := works[..|works| - 1], works[|works| - 1];
      assert w in works && forall x :: x in init ==> x in works;
      TotalsNotNegative(init);
      TaxableNotNegative(w);
      assert forall x :: x in works <==> x in init || x == w;
    }
  }

  lemma TaxableNotNegative(w: Work)
    requires w.contractPaise >= 0
    ensures TaxableContract(w) >= 0
  {
    ConvertMonotone(0, w.contractPaise, w.basis, Exclusive, w.hundredths);
    RoundsBack(0, RateFactor(w.hundredths), 0);
  }

  function PortfolioPercent(works: seq<Work>): Option<int>
    requires NoNegativeContracts(works)
  {
    TotalsNotNegative(works);
    if ContractTotal(works) == 0 then None
    else Some(DivideRoundHalfUp(ExecutedTotal(works) * PERCENT_UNITS, ContractTotal(works)))
  }

  method PortfolioExecutedPercent(works: seq<Work>) returns (percent: Option<int>)
    requires NoNegativeContracts(works)
    ensures percent == PortfolioPercent(works)
  {
    hide Convert;
    var numerator, denominator := 0, 0;
    for i := 0 to |works|
      invariant numerator == ExecutedTotal(works[..i]) && denominator == ContractTotal(works[..i])
    {
      assert works[..i + 1][..i] == works[..i];
      var contract := TaxableContract(works[i]);
      if contract == 0 { continue; }
      denominator, numerator := denominator + contract, numerator + TaxableNumerator(works[i]);
    }
    assert works[..|works|] == works;
    TotalsNotNegative(works);
    if denominator == 0 { return None; }
    percent := Some(DivideRoundHalfUp(numerator * PERCENT_UNITS, denominator));
  }

  lemma {:induction false} TotalsConcat(a: seq<Work>, b: seq<Work>)
    ensures ContractTotal(a + b) == ContractTotal(a) + ContractTotal(b)
    ensures ExecutedTotal(a + b) == ExecutedTotal(a) + ExecutedTotal(b)
    decreases |b|
  {
    hide Convert;
    if b == [] {
      assert a + b == a;
    } else {
      assert (a + b)[..|a + b| - 1] == a + b[..|b| - 1];
      TotalsConcat(a, b[..|b| - 1]);
    }
  }

  /** The ratio does not depend on the order of the works. */
  lemma PortfolioOrder(a: seq<Work>, b: seq<Work>)
    requires NoNegativeContracts(a) && multiset(a) == multiset(b)
    ensures NoNegativeContracts(b) && PortfolioPercent(a) == PortfolioPercent(b)
  {
    hide DivideRoundHalfUp;
    assert forall w :: w in b ==> w in multiset(b);
    TotalsOfSame(a, b);
  }

  lemma {:induction false} TotalsOfSame(a: seq<Work>, b: seq<Work>)
    requires multiset(a) == multiset(b)
    ensures ContractTotal(a) == ContractTotal(b) && ExecutedTotal(a) == ExecutedTotal(b)
    decreases |a|
  {
    hide Convert, ContractTotal, ExecutedTotal;
    if a == [] {
      assert |multiset(b)| == 0;
    } else {
      var init, last := a[..|a| - 1], a[|a| - 1];
      var before, after := Found(a, b);
      TotalsOfSame(init, before + after);
      TotalsConcat(init, [last]);
      assert a == init + [last];
      WithoutOne(before, last, after);
    }
  }

  /** The last of one sequence stands in another of the same elements; without it they still hold the same. */
  lemma Found<T>(a: seq<T>, b: seq<T>) returns (before: seq<T>, after: seq<T>)
    requires a != [] && multiset(a) == multiset(b)
    ensures b == before + [a[|a| - 1]] + after && multiset(before + after) == multiset(a[..|a| - 1])
  {
    var init, last := a[..|a| - 1], a[|a| - 1];
    assert a == init + [last];
    assert last in multiset(b);
    var k :| 0 <= k < |b| && b[k] == last;
    before, after := b[..k], b[k + 1..];
    assert b == before + [last] + after;
    TakenOut(before, last, after);
    TakenOut(init, last, []);
    assert init + [] == init && init + [last] + [] == a;
  }

  lemma TakenOut<T>(before: seq<T>, x: T, after: seq<T>)
    ensures multiset(before + after) == multiset(before + [x] + after) - multiset{x}
  {
  }

  lemma WithoutOne(before: seq<Work>, w: Work, after: seq<Work>)
    ensures ContractTotal(before + [w] + after) == ContractTotal(before + after) + ContractTotal([w])
    ensures ExecutedTotal(before + [w] + after) == ExecutedTotal(before + after) + ExecutedTotal([w])
  {
    TotalsConcat(before + [w], after);
    TotalsConcat(before, [w]);
    TotalsConcat(before, after);
  }

  /** A work whose taxable contract is nothing changes nothing, wherever it stands. */
  lemma NothingContracted(before: seq<Work>, w: Work, after: seq<Work>)
    requires NoNegativeContracts(before + [w] + after) && TaxableContract(w) == 0
    ensures NoNegativeContracts(before + after)
    ensures PortfolioPercent(before + after) == PortfolioPercent(before + [w] + after)
  {
    hide Convert, DivideRoundHalfUp;
    assert forall x :: x in before + after ==> x in before + [w] + after;
    WithoutOne(before, w, after);
    assert [w][..0] == [];
  }

  /** A portfolio percentage is within half of its last printed digit of the exact ratio. */
  lemma PortfolioError(works: seq<Work>)
    requires NoNegativeContracts(works) && PortfolioPercent(works).Some?
    ensures var stated := PortfolioPercent(works).value * ContractTotal(works);
      var gap := 2 * (ExecutedTotal(works) * PERCENT_UNITS - stated);
      -ContractTotal(works) <= gap <= ContractTotal(works)
  {
    hide DivideRoundHalfUp, ContractTotal, ExecutedTotal;
    TotalsNotNegative(works);
    DivideRoundsTo(ExecutedTotal(works) * PERCENT_UNITS, ContractTotal(works));
    RoundedWithin(ExecutedTotal(works) * PERCENT_UNITS, ContractTotal(works), PortfolioPercent(works).value);
  }

  // ---- the ratio, in literal units -----------------------------------------------------------------------

  /** An amount without its tax, to the paisa: 18.00% is 1800 hundredths, a factor of 1.18. */
  ghost predicate IsTaxable(paise: int, basis: Basis, hundredths: nat, taxable: int) {
    if basis == Exclusive then taxable == paise
    else -(10000 + hundredths) <= 2 * (taxable * (10000 + hundredths) - paise * 10000) <= 10000 + hundredths
  }

  lemma ExecutedIsTaxable(w: Work)
    ensures IsTaxable(w.contractPaise, w.basis, w.hundredths, TaxableContract(w))
    ensures IsTaxable(w.numeratorPaise, w.numeratorBasis, w.hundredths, TaxableNumerator(w))
  {
    hide DivideRoundHalfUp;
    var f := 10000 + w.hundredths;
    DivideRoundsTo(w.contractPaise * 10000, f);
    RoundedWithin(w.contractPaise * 10000, f, DivideRoundHalfUp(w.contractPaise * 10000, f));
    DivideRoundsTo(w.numeratorPaise * 10000, f);
    RoundedWithin(w.numeratorPaise * 10000, f, DivideRoundHalfUp(w.numeratorPaise * 10000, f));
  }

  /** The figures of some works without their tax, one for each. */
  ghost predicate Restated(works: seq<Work>, contracts: seq<int>, executed: seq<int>) {
    && |contracts| == |works| == |executed|
    && forall i :: 0 <= i < |works| ==>
         && IsTaxable(works[i].contractPaise, works[i].basis, works[i].hundredths, contracts[i])
         && IsTaxable(works[i].numeratorPaise, works[i].numeratorBasis, works[i].hundredths, executed[i])
  }

  function Sum(figures: seq<int>): int {
    if figures == [] then 0 else Sum(figures[..|figures| - 1]) + figures[|figures| - 1]
  }

  /** What is executed of the works whose contract comes to something. */
  function SumContracted(contracts: seq<int>, executed: seq<int>): int
    requires |contracts| == |executed|
  {
    if contracts == [] then 0
    else
      var n := |contracts| - 1;
      SumContracted(contracts[..n], executed[..n]) + if contracts[n] == 0 then 0 else executed[n]
  }

  lemma {:induction false} TotalsRestated(works: seq<Work>) returns (contracts: seq<int>, executed: seq<int>)
    ensures Restated(works, contracts, executed)
    ensures ContractTotal(works) == Sum(contracts) && ExecutedTotal(works) == SumContracted(contracts, executed)
    decreases |works|
  {
    hide IsTaxable, TaxableContract, TaxableNumerator;
    contracts, executed := [], [];
    if works != [] {
      var n := |works| - 1;
      var w := works[n];
      var before, done := TotalsRestated(works[..n]);
      ExecutedIsTaxable(w);
      contracts, executed := before + [TaxableContract(w)], done + [TaxableNumerator(w)];
      assert contracts[..n] == before && executed[..n] == done;
    }
  }

  /**
   * The portfolio percentage, in ten-thousandths of a percent, is a million times the sum executed over the sum
   * contracted, to the nearest, both without tax; there is none where the contracts come to nothing.
   */
  lemma PortfolioIsRatio(works: seq<Work>) returns (contracts: seq<int>, executed: seq<int>)
    requires NoNegativeContracts(works)
    ensures Restated(works, contracts, executed)
    ensures PortfolioPercent(works) == None <==> Sum(contracts) == 0
    ensures PortfolioPercent(works).Some? ==>
      var stated, exact := PortfolioPercent(works).value * Sum(contracts), SumContracted(contracts, executed) * 1000000;
      -Sum(contracts) <= 2 * (stated - exact) <= Sum(contracts)
  {
    hide DivideRoundHalfUp, Restated;
    contracts, executed := TotalsRestated(works);
    TotalsNotNegative(works);
    if PortfolioPercent(works).Some? { PortfolioError(works); }
  }

  /** One work's percentage, on the basis its contract is quoted on. */
  lemma ExecutedIsRatio(w: Work)
    requires w.contractPaise > 0
    ensures var comparable := Convert(w.numeratorPaise, w.numeratorBasis, w.basis, w.hundredths);
      -w.contractPaise <= 2 * (ExecutedPercent(w).value * w.contractPaise - comparable * 1000000) <= w.contractPaise
  {
    hide Convert, DivideRoundHalfUp;
    var comparable := Convert(w.numeratorPaise, w.numeratorBasis, w.basis, w.hundredths);
    DivideRoundsTo(comparable * 1000000, w.contractPaise);
    RoundedWithin(comparable * 1000000, w.contractPaise, ExecutedPercent(w).value);
  }
}
