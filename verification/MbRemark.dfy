/**
 * The contractual wording of a Measurement Book line and the pricing of its stages (mb-remark.ts).
 * Quantities, rates and percentages are exact decimals; money is whole paise.
 */
module MbRemark {
  import opened Text
  import opened Decimal

  datatype Stage = Supply | Installation | Pac | FinalBill

  // ---- pricing --------------------------------------------------------------

  /** delta x rate x percent / 100; the division by 100 only moves the point. */
  function StageProduct(rate: Dec, percent: Dec, delta: Dec): Dec {
    Dec(delta.units * rate.units * percent.units, delta.scale + rate.scale + percent.scale + 2)
  }

  /** One stage's amount in paise, rounded half away from zero. */
  function StagePaise(rate: Dec, percent: Dec, delta: Dec): int {
    RoundScaled(StageProduct(rate, percent, delta), 2)
  }

  datatype StageQuantity = StageQuantity(stage: Stage, percent: Dec, delta: Dec)

  function SumPaise(amounts: seq<int>): int {
    if amounts == [] then 0 else SumPaise(amounts[..|amounts| - 1]) + amounts[|amounts| - 1]
  }

  /** Each stage rounded on its own, and the total of the rounded amounts. */
  method ComputeStageAmounts(rate: Dec, stages: seq<StageQuantity>) returns (perStage: seq<int>, total: int)
    ensures |perStage| == |stages|
    ensures forall i :: 0 <= i < |stages| ==> perStage[i] == StagePaise(rate, stages[i].percent, stages[i].delta)
    ensures total == SumPaise(perStage)
  {
    perStage, total := [], 0;
    for i := 0 to |stages|
      invariant |perStage| == i
      invariant forall k :: 0 <= k < i ==> perStage[k] == StagePaise(rate, stages[k].percent, stages[k].delta)
      invariant total == SumPaise(perStage)
    {
      var paise := StagePaise(rate, stages[i].percent, stages[i].delta);
      assert (perStage + [paise])[..i] == perStage;
      perStage, total := perStage + [paise], total + paise;
    }
  }

  lemma StageProductVal(rate: Dec, percent: Dec, delta: Dec)
    ensures Val(StageProduct(rate, percent, delta)) * 100.0 == Val(delta) * Val(rate) * Val(percent)
  {
    MulVal(delta, rate);
    MulVal(Mul(delta, rate), percent);
    var exact := Mul(Mul(delta, rate), percent);
    assert StageProduct(rate, percent, delta) == Dec(exact.units, exact.scale + 2);
  }

  /** A stage amount is within half a paisa of quantity x rate x percent (rupees x percent = paise). */
  lemma StageAmountError(rate: Dec, percent: Dec, delta: Dec)
    ensures -0.5 <= StagePaise(rate, percent, delta) as real - Val(delta) * Val(rate) * Val(percent) <= 0.5
  {
    hide Val, StageProduct, RoundScaled;
    StageProductVal(rate, percent, delta);
    RoundError(StageProduct(rate, percent, delta), 2);
    assert Pow10(2) == 100;
  }

  /** More quantity at a rate and percentage that are not negative never prices lower. */
  lemma StageAmountMonotone(rate: Dec, percent: Dec, less: Dec, more: Dec)
    requires !IsNegative(rate) && !IsNegative(percent) && Val(less) <= Val(more)
    ensures StagePaise(rate, percent, less) <= StagePaise(rate, percent, more)
  {
    hide Val, StageProduct, RoundScaled;
    SignVal(rate);
    SignVal(percent);
    StageProductVal(rate, percent, less);
    StageProductVal(rate, percent, more);
    RoundMonotone(StageProduct(rate, percent, less), StageProduct(rate, percent, more), 2);
  }

  lemma NothingCostsNothing(rate: Dec, percent: Dec, delta: Dec)
    requires delta.units == 0
    ensures StagePaise(rate, percent, delta) == 0
  {
    assert StageProduct(rate, percent, delta).units == 0;
  }

  // ---- the final bill's base -----------------------------------------------------

  datatype Category =
    | SupplyOnly | SupplyAndInstallation | PureInstallation | SpareSupply | Amc | Uncategorised

  datatype Branch = Delivered | Installed | Certified

  /** Which lifetime quantity earns the final-bill percentage. */
  function FinalBillBranch(category: Option<Category>, description: string): Branch {
    match category
    case Some(SupplyOnly) => Delivered
    case Some(SpareSupply) => Delivered
    case Some(SupplyAndInstallation) => Installed
    case Some(PureInstallation) => Installed
    case Some(Amc) => Certified
    case Some(Uncategorised) => DescribedBranch(description)
    case None => DescribedBranch(description)
  }

  function DescribedBranch(description: string): Branch {
    if Contains(Lower(description), "installation") then Installed else Delivered
  }

  // ---- the remark ------------------------------------------------------------------

  datatype StageLine = StageLine(stage: Stage, percent: Dec, prior: Dec, delta: Dec)

  datatype AmcCycle = AmcCycle(totalQuantity: Dec, billingPeriods: int, cycleNoun: string)

  /** quantity x M / Q in hundredths of a period, rounded to the nearest. */
  function Hundredths(quantity: Dec, cycle: AmcCycle): int
    requires cycle.totalQuantity.units > 0
  {
    var scale := Max(quantity.scale, cycle.totalQuantity.scale);
    var numerator := Rescale(quantity, scale).units * cycle.billingPeriods * Pow10(2);
    var denominator := Rescale(cycle.totalQuantity, scale).units;
    TruncDiv(numerator * 2 + denominator, denominator * 2)
  }

  /** A period count, whole within a hundredth; None sends the caller back to the quantity. */
  function PeriodsOf(quantity: Dec, cycle: AmcCycle): Option<string> {
    if cycle.totalQuantity.units <= 0 || quantity.units <= 0 || Hundredths(quantity, cycle) <= 0 then None
    else
      var hundredths := Hundredths(quantity, cycle);
      var remainder := hundredths % 100;
      if remainder <= 1 then Some(NatText(hundredths / 100))
      else if 100 - remainder <= 1 then Some(NatText(hundredths / 100 + 1))
      else Some(Render(Dec(hundredths, 2)))
  }

  function QuantityFragment(percent: Dec, quantity: Dec, unit_: string): string {
    Render(percent) + "% for " + Render(quantity) + " " + unit_
  }

  /** "<percent>% for <quantity> <unit>", or periods on the certificate stage of an AMC cadence. */
  function StageFragment(stage: Stage, percent: Dec, quantity: Dec, unit_: string, cycle: Option<AmcCycle>): string {
    if cycle.Some? && stage == Pac && PeriodsOf(quantity, cycle.value).Some? then
      var periods := PeriodsOf(quantity, cycle.value).value;
      var noun := if periods == "1" then cycle.value.cycleNoun else cycle.value.cycleNoun + "s";
      Render(percent) + "% for " + periods + " " + noun
    else QuantityFragment(percent, quantity, unit_)
  }

  function PrepaidFragments(lines: seq<StageLine>, unit_: string, cycle: Option<AmcCycle>): seq<string> {
    if lines == [] then []
    else
      var s, rest := lines[0], PrepaidFragments(lines[1..], unit_, cycle);
      if IsPositive(s.percent) && IsPositive(s.prior) then
        [StageFragment(s.stage, s.percent, s.prior, unit_, cycle)] + rest
      else rest
  }

  function NowFragments(lines: seq<StageLine>, unit_: string, cycle: Option<AmcCycle>): seq<string> {
    if lines == [] then []
    else
      var s, rest := lines[0], NowFragments(lines[1..], unit_, cycle);
      if IsPositive(s.delta) then [StageFragment(s.stage, s.percent, s.delta, unit_, cycle)] + rest else rest
  }

  /** The whole remark for stages already in contractual order. */
  function OrderedRemark(lines: seq<StageLine>, unit_: string, cycle: Option<AmcCycle>): string {
    var prepaid, now := PrepaidFragments(lines, unit_, cycle), NowFragments(lines, unit_, cycle);
    var toPay := if now == [] then "Now to pay nill." else "Now to pay " + JoinWith(now, " and ") + ".";
    if prepaid == [] then toPay else "Prepaid " + JoinWith(prepaid, " and ") + "." + " " + toPay
  }

  function ForStage(lines: seq<StageLine>, stage: Stage): seq<StageLine> {
    if lines == [] then []
    else if lines[0].stage == stage then [lines[0]] + ForStage(lines[1..], stage)
    else ForStage(lines[1..], stage)
  }

  /** Supply, installation, certificate, final bill, whatever order the caller used. */
  function InRenderOrder(lines: seq<StageLine>): seq<StageLine> {
    ForStage(lines, Supply) + ForStage(lines, Installation) + ForStage(lines, Pac) + ForStage(lines, FinalBill)
  }

  predicate NoDuplicateStage(lines: seq<StageLine>) {
    forall i, j :: 0 <= i < j < |lines| ==> lines[i].stage != lines[j].stage
  }

  /** None when a stage is given twice, which is refused. */
  function ComputeRemark(lines: seq<StageLine>, unit_: string, cycle: Option<AmcCycle>): Option<string> {
    if NoDuplicateStage(lines) then Some(OrderedRemark(InRenderOrder(lines), unit_, cycle)) else None
  }

  lemma RenderZero(hundredths: nat)
    requires hundredths > 0
    ensures Render(Dec(hundredths, 2)) != "0"
  {
    RenderInjective(Dec(hundredths, 2), ZERO);
    SignVal(Dec(hundredths, 2));
    ValZero();
    assert Render(ZERO) == "0";
  }

  /** A count that rounds to a single hundredth of a period, and no other, prints as zero periods. */
  lemma ZeroPeriodsPrinted(quantity: Dec, cycle: AmcCycle)
    requires cycle.totalQuantity.units > 0 && quantity.units > 0
    ensures PeriodsOf(quantity, cycle) == Some("0") <==> Hundredths(quantity, cycle) == 1
  {
    var h := Hundredths(quantity, cycle);
    if h > 0 {
      RenderZero(h);
      NatTextDigits(h / 100);
      NatTextDigits(h / 100 + 1);
      assert NatText(0) == "0";
    }
  }

  /** A tenth of a unit under ten units a period prints as "0" periods. */
  lemma TenthOfAUnit(noun: string)
    ensures PeriodsOf(Dec(1, 1), AmcCycle(Dec(10, 0), 1, noun)) == Some("0")
  {
    assert Pow10(1) == 10 && Pow10(2) == 100;
    assert Hundredths(Dec(1, 1), AmcCycle(Dec(10, 0), 1, noun)) == 1;
    ZeroPeriodsPrinted(Dec(1, 1), AmcCycle(Dec(10, 0), 1, noun));
  }

  // ---- what a period count means ---------------------------------------------------------------------

  /** The hundredths printed are the share of the cadence, to the nearest. */
  lemma HundredthsNearest(quantity: Dec, cycle: AmcCycle)
    requires cycle.totalQuantity.units > 0 && quantity.units >= 0 && cycle.billingPeriods >= 0
    ensures var share := 100.0 * Val(quantity) * cycle.billingPeriods as real;
      -Val(cycle.totalQuantity) <= 2.0 * (Hundredths(quantity, cycle) as real * Val(cycle.totalQuantity) - share)
        <= Val(cycle.totalQuantity)
  {
    hide Val, Hundredths, Rescale, Pow10;
    var scale := Max(quantity.scale, cycle.totalQuantity.scale);
    var q, d := Rescale(quantity, scale), Rescale(cycle.totalQuantity, scale);
    RescaledPositive(quantity, cycle.totalQuantity, scale);
    HundredthsOf(quantity, cycle, q, d);
    NearestShare(q.units, cycle.billingPeriods, d.units);
    RescaledVal(quantity, scale);
    RescaledVal(cycle.totalQuantity, scale);
    ShareScaled(Val(quantity), Val(cycle.totalQuantity), Pow10(scale), q.units, d.units, cycle.billingPeriods,
                Hundredths(quantity, cycle));
  }

  lemma RescaledVal(d: Dec, scale: nat)
    requires scale >= d.scale
    ensures Val(d) * Pow10(scale) as real == Rescale(d, scale).units as real
  {
    hide Val, Pow10;
    RescaleVal(d, scale);
    ValTimesPower(Rescale(d, scale).units, scale);
  }

  lemma HundredthsOf(quantity: Dec, cycle: AmcCycle, q: Dec, d: Dec)
    requires cycle.totalQuantity.units > 0
    requires q == Rescale(quantity, Max(quantity.scale, cycle.totalQuantity.scale))
    requires d == Rescale(cycle.totalQuantity, Max(quantity.scale, cycle.totalQuantity.scale)) && d.units > 0
    ensures Hundredths(quantity, cycle)
         == TruncDiv(q.units * cycle.billingPeriods * 100 * 2 + d.units, d.units * 2)
  {
    hide TruncDiv, Rescale;
    assert Pow10(2) == 100;
  }

  lemma RescaledPositive(quantity: Dec, total: Dec, scale: nat)
    requires scale >= quantity.scale && scale >= total.scale && quantity.units >= 0 && total.units > 0
    ensures Rescale(quantity, scale).units >= 0 && Rescale(total, scale).units > 0
  {
    assert total.units * Pow10(scale - total.scale) >= total.units;
  }

  lemma NearestShare(q: int, periods: int, d: int)
    requires q >= 0 && periods >= 0 && d > 0
    ensures var n := q * periods * 100;
      var h := TruncDiv(n * 2 + d, d * 2); -d <= 2 * (h * d - q * periods * 100) <= d
  {
    assert q * periods >= 0;
    var n := q * periods * 100;
    var h := (n * 2 + d) / (d * 2);
    assert h * (d * 2) <= n * 2 + d < (h + 1) * (d * 2);
    assert (h + 1) * (d * 2) == h * (d * 2) + 2 * d && h * (d * 2) == 2 * (h * d);
  }

  lemma ShareScaled(x: real, y: real, p: nat, q: int, d: int, periods: int, h: int)
    requires p >= 1 && x * p as real == q as real && y * p as real == d as real
    requires -d <= 2 * (h * d - q * periods * 100) <= d
    ensures -y <= 2.0 * (h as real * y - 100.0 * x * periods as real) <= y
  {
    var r := p as real;
    var gap := 2.0 * (h as real * y - 100.0 * x * periods as real);
    assert gap * r == 2.0 * (h as real * (y * r) - 100.0 * (x * r) * periods as real);
    assert (h * d) as real == h as real * d as real;
    assert (q * periods * 100) as real == 100.0 * q as real * periods as real;
    assert gap * r == (2 * (h * d - q * periods * 100)) as real;
    assert -(y * r) <= gap * r <= y * r;
    RealOrder(gap, y, r);
  }

  lemma RealOrder(gap: real, y: real, r: real)
    requires r >= 1.0 && -(y * r) <= gap * r <= y * r
    ensures -y <= gap <= y
  {
    assert gap > y ==> (gap - y) * r > 0.0;
    assert gap < -y ==> (-y - gap) * r > 0.0;
  }

  /** A count of periods prints as the whole number it is within a hundredth of, else in hundredths; else not at all. */
  lemma PeriodsExactlyWhen(quantity: Dec, cycle: AmcCycle, whole: nat)
    ensures PeriodsOf(quantity, cycle) == None <==>
      cycle.totalQuantity.units <= 0 || quantity.units <= 0 || Hundredths(quantity, cycle) <= 0
    ensures PeriodsOf(quantity, cycle).Some? && -1 <= Hundredths(quantity, cycle) - 100 * whole <= 1 ==>
      PeriodsOf(quantity, cycle) == Some(NatText(whole))
    ensures PeriodsOf(quantity, cycle).Some? && 2 <= Hundredths(quantity, cycle) % 100 <= 98 ==>
      PeriodsOf(quantity, cycle) == Some(Render(Dec(Hundredths(quantity, cycle), 2)))
  {
    hide Render, NatText, Hundredths;
    if PeriodsOf(quantity, cycle).Some? {
      var h := Hundredths(quantity, cycle);
      assert h == 100 * (h / 100) + h % 100;
      if -1 <= h - 100 * whole <= 1 { WholeWithin(h, whole); }
    }
  }

  lemma WholeWithin(h: nat, whole: nat)
    requires -1 <= h - 100 * whole <= 1
    ensures (h % 100 <= 1 && h / 100 == whole) || (h % 100 == 99 && h / 100 + 1 == whole)
  {
  }

  // ---- the wording ------------------------------------------------------------------------------------

  /** One stage, paid before and paid now. */
  lemma OneStageWording(l: StageLine, unit_: string)
    requires l.percent.units > 0
    ensures var now := "Now to pay " + Render(l.percent) + "% for " + Render(l.delta) + " " + unit_ + ".";
      var prepaid := "Prepaid " + Render(l.percent) + "% for " + Render(l.prior) + " " + unit_ + ". ";
      && (l.prior.units > 0 && l.delta.units > 0 ==> OrderedRemark([l], unit_, None) == prepaid + now)
      && (l.prior.units <= 0 && l.delta.units > 0 ==> OrderedRemark([l], unit_, None) == now)
      && (l.prior.units > 0 && l.delta.units <= 0 ==> OrderedRemark([l], unit_, None) == prepaid + "Now to pay nill.")
  {
    hide Render;
    assert [l][1..] == [];
    var p, d := QuantityFragment(l.percent, l.prior, unit_), QuantityFragment(l.percent, l.delta, unit_);
    assert PrepaidFragments([l], unit_, None) == if IsPositive(l.prior) then [p] else [];
    assert NowFragments([l], unit_, None) == if IsPositive(l.delta) then [d] else [];
    assert "Prepaid " + p + "." + " "
        == "Prepaid " + Render(l.percent) + "% for " + Render(l.prior) + " " + unit_ + ". ";
    assert "Now to pay " + d + "."
        == "Now to pay " + Render(l.percent) + "% for " + Render(l.delta) + " " + unit_ + ".";
    assert forall t: string :: "Prepaid " + p + "." + " " + t == ("Prepaid " + p + "." + " ") + t;
  }

  lemma FirstFragments(l: StageLine, rest: seq<StageLine>, unit_: string)
    ensures l.prior.units <= 0 ==> PrepaidFragments([l] + rest, unit_, None) == PrepaidFragments(rest, unit_, None)
    ensures l.delta.units > 0 ==>
      NowFragments([l] + rest, unit_, None) ==
        [QuantityFragment(l.percent, l.delta, unit_)] + NowFragments(rest, unit_, None)
    ensures rest == [] ==> PrepaidFragments(rest, unit_, None) == NowFragments(rest, unit_, None) == []
  {
    hide QuantityFragment;
    assert ([l] + rest)[1..] == rest;
  }

  /** Two stages paid now are joined by "and". */
  lemma TwoStagesWording(a: StageLine, b: StageLine, unit_: string)
    requires a.prior.units <= 0 && b.prior.units <= 0 && a.delta.units > 0 && b.delta.units > 0
    ensures OrderedRemark([a, b], unit_, None) ==
      "Now to pay " + QuantityFragment(a.percent, a.delta, unit_) + " and "
      + QuantityFragment(b.percent, b.delta, unit_) + "."
  {
    hide QuantityFragment, PrepaidFragments, NowFragments;
    FirstFragments(a, [b], unit_);
    FirstFragments(b, [], unit_);
    assert [a] + [b] == [a, b] && [b] + [] == [b];
    var x, y := QuantityFragment(a.percent, a.delta, unit_), QuantityFragment(b.percent, b.delta, unit_);
    assert NowFragments([a, b], unit_, None) == [x, y];
    assert [x, y][1..] == [y] && JoinWith([x, y], " and ") == x + " and " + y;
    assert "Now to pay " + (x + " and " + y) + "." == "Now to pay " + x + " and " + y + ".";
  }

  /** On the certificate stage of a cadence, periods stand in for the quantity. */
  lemma PeriodWording(percent: Dec, quantity: Dec, unit_: string, cycle: AmcCycle)
    requires PeriodsOf(quantity, cycle).Some?
    ensures var periods := PeriodsOf(quantity, cycle).value;
      StageFragment(Pac, percent, quantity, unit_, Some(cycle)) ==
        Render(percent) + "% for " + periods + " " + cycle.cycleNoun + if periods == "1" then "" else "s"
    ensures forall stage :: stage != Pac ==>
      StageFragment(stage, percent, quantity, unit_, Some(cycle))
        == Render(percent) + "% for " + Render(quantity) + " " + unit_
  {
    hide Render, PeriodsOf;
    var noun := cycle.cycleNoun;
    assert noun + "" == noun;
    var head := Render(percent) + "% for " + PeriodsOf(quantity, cycle).value + " ";
    assert head + noun + "s" == head + (noun + "s");
  }

  // ---- the contractual order -----------------------------------------------------------------------------

  function Rank(stage: Stage): nat {
    match stage case Supply => 1 case Installation => 2 case Pac => 3 case FinalBill => 4
  }

  lemma {:induction false} StagePicked(lines: seq<StageLine>, stage: Stage)
    ensures forall l :: l in ForStage(lines, stage) ==> l.stage == stage
    ensures forall l :: multiset(ForStage(lines, stage))[l] == if l.stage == stage then multiset(lines)[l] else 0
    decreases |lines|
  {
    if lines != [] {
      StagePicked(lines[1..], stage);
      assert lines == [lines[0]] + lines[1..];
    }
  }

  /** The lines are printed supply first, then installation, certificate and final bill, none lost and none twice. */
  lemma RenderOrder(lines: seq<StageLine>)
    ensures multiset(InRenderOrder(lines)) == multiset(lines)
    ensures forall i, j :: 0 <= i < j < |InRenderOrder(lines)| ==>
      var a, b := InRenderOrder(lines)[i].stage, InRenderOrder(lines)[j].stage; a == b || Rank(a) < Rank(b)
  {
    hide ForStage;
    StagePicked(lines, Supply);
    StagePicked(lines, Installation);
    StagePicked(lines, Pac);
    StagePicked(lines, FinalBill);
    var a: seq<StageLine>, b: seq<StageLine> := ForStage(lines, Supply), ForStage(lines, Installation);
    var c: seq<StageLine>, d: seq<StageLine> := ForStage(lines, Pac), ForStage(lines, FinalBill);
    assert multiset(a + b + c + d) == multiset(a) + multiset(b) + multiset(c) + multiset(d);
    forall i | 0 <= i < |a + b + c + d|
      ensures (a + b + c + d)[i].stage == if i < |a| then Supply else if i < |a + b| then Installation
                                          else if i < |a + b + c| then Pac else FinalBill
    {
      assert (a + b + c + d)[i] in if i < |a| then a else if i < |a + b| then b else if i < |a + b + c| then c else d;
    }
  }

  /** A remark is refused exactly when two of its lines are of one stage. */
  lemma RemarkExactlyWhen(lines: seq<StageLine>, unit_: string, cycle: Option<AmcCycle>)
    ensures ComputeRemark(lines, unit_, cycle) == None <==>
      exists i, j :: 0 <= i < |lines| && 0 <= j < |lines| && i != j && lines[i].stage == lines[j].stage
    ensures ComputeRemark(lines, unit_, cycle).Some? ==>
      ComputeRemark(lines, unit_, cycle).value == OrderedRemark(InRenderOrder(lines), unit_, cycle)
  {
    hide OrderedRemark, InRenderOrder;
  }
}
