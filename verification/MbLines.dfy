/**
 * What a Measurement Book states of its items (mb-compute.ts, mb-remark.ts): which items are on it, the quantity each
 * stage bills as a number, what that is priced at, and the claims its remark makes.
 */
module MbLines {
  import opened Text
  import opened Decimal
  import opened MbRemark
  import opened MbCompute
  import opened RemarkClaims

  // ---- the billed quantities, as numbers -------------------------------------------------------

  /** The lesser of the operator's adjustment and what the sources measure. */
  ghost function Reduced(measured: Dec, adjustment: Option<Dec>): real {
    if adjustment.Some? then Least(Val(adjustment.value), Val(measured)) else Val(measured)
  }

  /** As much of a measurement as the sanction leaves room for behind what was billed before. */
  ghost function Roomed(measured: real, prior: Dec, sanctioned: Dec): real {
    if Val(prior) > Val(sanctioned) then 0.0 else Least(measured, Val(sanctioned) - Val(prior))
  }

  ghost function SupplyBilled(item: Item): real { Reduced(item.deltaSupplied, item.measuredSupplied) }

  ghost function InstallationBilled(item: Item): real {
    Roomed(Reduced(item.deltaInstalled, item.measuredInstalled), item.priorInstalled, item.sanctioned)
  }

  ghost function CertificateBilled(item: Item): real { Roomed(Val(item.deltaPac), item.priorPac, item.sanctioned) }

  /** An item with no category of its own, or the residual one, is read off its description. */
  ghost predicate MentionsInstallation(item: Item) { Holds(Lower(item.description), "installation") }

  /** The lifetime quantity the final bill is earned on, category by category. */
  ghost function FinalBase(item: Item): real {
    match item.category
    case Some(SupplyOnly) => Val(item.cumulativeDelivered)
    case Some(SpareSupply) => Val(item.cumulativeDelivered)
    case Some(SupplyAndInstallation) => Least(Val(item.cumulativeInstalled), Val(item.sanctioned))
    case Some(PureInstallation) => Least(Val(item.cumulativeInstalled), Val(item.sanctioned))
    case Some(Amc) => Least(Val(item.cumulativeAmcCertified), Val(item.sanctioned))
    case Some(Uncategorised) => UndecidedBase(item)
    case None => UndecidedBase(item)
  }

  ghost function UndecidedBase(item: Item): real {
    if MentionsInstallation(item) then Least(Val(item.cumulativeInstalled), Val(item.sanctioned))
    else Val(item.cumulativeDelivered)
  }

  /** Nothing before the final book, and on it what the base exceeds the bills so far by. */
  ghost function FinalBilled(item: Item, isFinal: bool): real {
    if isFinal && FinalBase(item) > Val(item.priorFinalBill) then FinalBase(item) - Val(item.priorFinalBill) else 0.0
  }

  lemma BaseVal(item: Item)
    ensures Val(FinalBillBase(item)) == FinalBase(item)
  {
    hide Val, Contains, Holds, Lower;
    MinVal(item.cumulativeInstalled, item.sanctioned);
    MinVal(item.cumulativeAmcCertified, item.sanctioned);
    ContainsExactlyWhen(Lower(item.description), "installation");
  }

  lemma BilledVal(item: Item, isFinal: bool)
    ensures var q := Billed(item, isFinal);
      && Val(q.supply) == SupplyBilled(item) && Val(q.installation) == InstallationBilled(item)
      && Val(q.pac) == CertificateBilled(item) && Val(q.finalBill) == FinalBilled(item, isFinal)
  {
    hide Val, FinalBillBase, FinalBase, ApplyMeasuredOverride, ClampToSanctioned, ComputeFinalBillDelta;
    OverrideVal(item.deltaSupplied, item.measuredSupplied);
    OverrideVal(item.deltaInstalled, item.measuredInstalled);
    NoOverride(item);
    ClampVal(item.priorInstalled, ApplyMeasuredOverride(item.deltaInstalled, item.measuredInstalled), item.sanctioned);
    ClampVal(item.priorPac, item.deltaPac, item.sanctioned);
    FinalBillReachesBase(item);
    BaseVal(item);
    ValZero();
  }

  lemma NoOverride(item: Item)
    ensures item.measuredSupplied == None ==>
      ApplyMeasuredOverride(item.deltaSupplied, item.measuredSupplied) == item.deltaSupplied
    ensures item.measuredInstalled == None ==>
      ApplyMeasuredOverride(item.deltaInstalled, item.measuredInstalled) == item.deltaInstalled
  {
  }

  // ---- which items are on the book ------------------------------------------------------------------

  /** Some stage bills something, or the operator adjusted the item. */
  ghost predicate Earns(item: Item, isFinal: bool) {
    || SupplyBilled(item) > 0.0 || InstallationBilled(item) > 0.0 || CertificateBilled(item) > 0.0
    || FinalBilled(item, isFinal) > 0.0 || item.measuredSupplied != None || item.measuredInstalled != None
  }

  lemma EarnsExactlyWhen(item: Item, isFinal: bool)
    ensures OnBook(item, isFinal) <==> Earns(item, isFinal)
  {
    hide Val, Billed, SupplyBilled, InstallationBilled, CertificateBilled, FinalBilled;
    var q := Billed(item, isFinal);
    BilledVal(item, isFinal);
    SignVal(q.supply);
    SignVal(q.installation);
    SignVal(q.pac);
    SignVal(q.finalBill);
  }

  ghost predicate HasRow(matrix: seq<MatrixRow>, item: Item) {
    exists r :: r in matrix && item.category == Some(r.category)
  }

  /** The items that earn a line, in their order: those whose category has a row, or those whose category has none. */
  ghost function Earning(matrix: seq<MatrixRow>, isFinal: bool, items: seq<Item>, rowed: bool): seq<Item> {
    if items == [] then []
    else
      var before, item := Earning(matrix, isFinal, items[..|items| - 1], rowed), items[|items| - 1];
      if Earns(item, isFinal) && (HasRow(matrix, item) <==> rowed) then before + [item] else before
  }

  function LineItems(lines: seq<Line>): seq<Item> {
    if lines == [] then [] else LineItems(lines[..|lines| - 1]) + [lines[|lines| - 1].item]
  }

  ghost function Complaints(items: seq<Item>): seq<Unresolved> {
    if items == [] then []
    else
      var item := items[|items| - 1];
      Complaints(items[..|items| - 1]) + [Unresolved(item.workItemId, item.itemNumber, item.category)]
  }

  lemma LineItemsSnoc(lines: seq<Line>, l: Line)
    ensures LineItems(lines + [l]) == LineItems(lines) + [l.item]
  {
    assert (lines + [l])[..|lines|] == lines;
  }

  lemma ComplaintsSnoc(items: seq<Item>, item: Item)
    ensures Complaints(items + [item])
         == Complaints(items) + [Unresolved(item.workItemId, item.itemNumber, item.category)]
  {
    assert (items + [item])[..|items|] == items;
  }

  /**
   * The book has one line for each item that earns one and whose category has a row, in their order, and names every
   * other item that earns one as unresolved.
   */
  lemma {:induction false} BookListsEarners(matrix: seq<MatrixRow>, isFinal: bool, items: seq<Item>)
    ensures LineItems(BookOf(matrix, isFinal, items).lines) == Earning(matrix, isFinal, items, true)
    ensures BookOf(matrix, isFinal, items).unresolved == Complaints(Earning(matrix, isFinal, items, false))
    decreases |items|
  {
    hide OnBook, Earns, HasRow, LineItems, Complaints, AdjustedAway;
    if items == [] {
      NoLines();
    } else {
      var init, item := items[..|items| - 1], items[|items| - 1];
      BookListsEarners(matrix, isFinal, init);
      EarnsExactlyWhen(item, isFinal);
      RowExactlyWhen(matrix, item);
      ComplaintsSnoc(Earning(matrix, isFinal, init, false), item);
      var p := ResolvePercentages(matrix, item.category);
      if p.Some? { OneMoreLine(BookOf(matrix, isFinal, init).lines, item, isFinal, p.value); }
    }
  }

  lemma OneMoreLine(lines: seq<Line>, item: Item, isFinal: bool, p: Percentages)
    ensures LineItems(lines + [LineOf(item, isFinal, p)]) == LineItems(lines) + [item]
  {
    hide LineItems, Billed, PricedAt, OrderedRemark;
    LineItemsSnoc(lines, LineOf(item, isFinal, p));
  }

  lemma NoLines()
    ensures LineItems([]) == [] && Complaints([]) == []
  {
  }

  lemma RowExactlyWhen(matrix: seq<MatrixRow>, item: Item)
    ensures ResolvePercentages(matrix, item.category).Some? <==> HasRow(matrix, item)
  {
    NeverAnotherRow(matrix, item.category);
  }

  // ---- what a line states ----------------------------------------------------------------------------

  /** Within half a paisa of quantity x rate x percent. */
  ghost predicate Prices(amount: int, quantity: real, rate: Dec, percent: Dec) {
    -0.5 <= amount as real - quantity * Val(rate) * Val(percent) <= 0.5
  }

  /** A line's quantities, amounts and total, at the percentages of the first row for its item's category. */
  ghost predicate StatesItem(matrix: seq<MatrixRow>, isFinal: bool, l: Line) {
    && Val(l.billed.supply) == SupplyBilled(l.item) && Val(l.billed.installation) == InstallationBilled(l.item)
    && Val(l.billed.pac) == CertificateBilled(l.item) && Val(l.billed.finalBill) == FinalBilled(l.item, isFinal)
    && l.item.category.Some?
    && (exists i: nat :: FirstRowFor(matrix, l.item.category.value, i) && l.percentages == matrix[i].percentages)
    && Prices(l.amounts.supply, SupplyBilled(l.item), l.item.rate, l.percentages.supply)
    && Prices(l.amounts.installation, InstallationBilled(l.item), l.item.rate, l.percentages.installation)
    && Prices(l.amounts.pac, CertificateBilled(l.item), l.item.rate, l.percentages.pac)
    && Prices(l.amounts.finalBill, FinalBilled(l.item, isFinal), l.item.rate, l.percentages.finalBill)
    && l.total == l.amounts.supply + l.amounts.installation + l.amounts.pac + l.amounts.finalBill
  }

  /** Every line bills what its item's measurements, adjustments, sanction and category come to. */
  lemma LinesStateItems(matrix: seq<MatrixRow>, isFinal: bool, items: seq<Item>)
    ensures forall l :: l in BookOf(matrix, isFinal, items).lines ==> l.item in items && StatesItem(matrix, isFinal, l)
  {
    hide BookOf, LineOf, StatesItem;
    TotalIsLineAmounts(matrix, isFinal, items);
    forall l | l in BookOf(matrix, isFinal, items).lines ensures StatesItem(matrix, isFinal, l) {
      LineStates(matrix, isFinal, l);
    }
  }

  lemma LineStates(matrix: seq<MatrixRow>, isFinal: bool, l: Line)
    requires l == LineOf(l.item, isFinal, l.percentages)
    requires ResolvePercentages(matrix, l.item.category) == Some(l.percentages)
    ensures StatesItem(matrix, isFinal, l)
  {
    hide Val, Billed, StagePaise, OrderedRemark, StageLines, ResolvePercentages;
    hide SupplyBilled, InstallationBilled, CertificateBilled, FinalBilled, Prices;
    var item, p, q := l.item, l.percentages, l.billed;
    BilledVal(item, isFinal);
    NeverAnotherRow(matrix, item.category);
    StagePriced(item.rate, p.supply, q.supply);
    StagePriced(item.rate, p.installation, q.installation);
    StagePriced(item.rate, p.pac, q.pac);
    StagePriced(item.rate, p.finalBill, q.finalBill);
  }

  lemma StagePriced(rate: Dec, percent: Dec, quantity: Dec)
    ensures Prices(StagePaise(rate, percent, quantity), Val(quantity), rate, percent)
  {
    hide Val, StagePaise;
    StageAmountError(rate, percent, quantity);
  }

  // ---- what its remark claims ---------------------------------------------------------------------------

  function ClaimWhen(stated: bool, percent: Dec, quantity: Dec): seq<Claim> {
    if stated then [Claim(Render(percent), Render(quantity))] else []
  }

  /** Each stage billed before, at a percentage, in contractual order. */
  function PrepaidClaims(item: Item, p: Percentages): seq<Claim> {
    ClaimWhen(p.supply.units > 0 && item.priorSupplied.units > 0, p.supply, item.priorSupplied)
    + ClaimWhen(p.installation.units > 0 && item.priorInstalled.units > 0, p.installation, item.priorInstalled)
    + ClaimWhen(p.pac.units > 0 && item.priorPac.units > 0, p.pac, item.priorPac)
    + ClaimWhen(p.finalBill.units > 0 && item.priorFinalBill.units > 0, p.finalBill, item.priorFinalBill)
  }

  /** Each stage this book bills, in contractual order. */
  function NowClaims(q: Quantities, p: Percentages): seq<Claim> {
    ClaimWhen(q.supply.units > 0, p.supply, q.supply)
    + ClaimWhen(q.installation.units > 0, p.installation, q.installation)
    + ClaimWhen(q.pac.units > 0, p.pac, q.pac)
    + ClaimWhen(q.finalBill.units > 0, p.finalBill, q.finalBill)
  }

  predicate PercentagesNotNegative(p: Percentages) {
    p.supply.units >= 0 && p.installation.units >= 0 && p.pac.units >= 0 && p.finalBill.units >= 0
  }

  predicate PriorsNotNegative(item: Item) {
    && item.priorSupplied.units >= 0 && item.priorInstalled.units >= 0 && item.priorPac.units >= 0
    && item.priorFinalBill.units >= 0
  }

  predicate AdjustmentsNotNegative(item: Item) {
    && (item.measuredSupplied.Some? ==> item.measuredSupplied.value.units >= 0)
    && (item.measuredInstalled.Some? ==> item.measuredInstalled.value.units >= 0)
  }

  lemma BilledNotNegative(item: Item, isFinal: bool)
    requires Measured(item) && AdjustmentsNotNegative(item)
    ensures var q := Billed(item, isFinal);
      q.supply.units >= 0 && q.installation.units >= 0 && q.pac.units >= 0 && q.finalBill.units >= 0
  {
    hide Val, Billed, FinalBase;
    var q := Billed(item, isFinal);
    BilledVal(item, isFinal);
    SignVal(item.deltaSupplied);
    SignVal(item.deltaInstalled);
    SignVal(item.deltaPac);
    if item.measuredSupplied.Some? { SignVal(item.measuredSupplied.value); }
    if item.measuredInstalled.Some? { SignVal(item.measuredInstalled.value); }
    SignVal(q.supply);
    SignVal(q.installation);
    SignVal(q.pac);
    SignVal(q.finalBill);
  }

  lemma FourStages(a: StageLine, b: StageLine, c: StageLine, d: StageLine)
    ensures ClaimsFor(PrepaidOf([a, b, c, d])) ==
      ClaimWhen(IsPositive(a.percent) && IsPositive(a.prior), a.percent, a.prior)
      + ClaimWhen(IsPositive(b.percent) && IsPositive(b.prior), b.percent, b.prior)
      + ClaimWhen(IsPositive(c.percent) && IsPositive(c.prior), c.percent, c.prior)
      + ClaimWhen(IsPositive(d.percent) && IsPositive(d.prior), d.percent, d.prior)
    ensures ClaimsFor(NowOf([a, b, c, d])) ==
      ClaimWhen(IsPositive(a.delta), a.percent, a.delta) + ClaimWhen(IsPositive(b.delta), b.percent, b.delta)
      + ClaimWhen(IsPositive(c.delta), c.percent, c.delta) + ClaimWhen(IsPositive(d.delta), d.percent, d.delta)
  {
    hide Render, ClaimWhen, ClaimsFor, PrepaidOf, NowOf;
    assert [a, b, c, d] == [a] + [b, c, d] && [b, c, d] == [b] + [c, d] && [c, d] == [c] + [d] && [d] == [d] + [];
    OneStage(a, [b, c, d]);
    OneStage(b, [c, d]);
    OneStage(c, [d]);
    OneStage(d, []);
  }

  lemma OneStage(l: StageLine, rest: seq<StageLine>)
    ensures ClaimsFor(PrepaidOf([l] + rest)) ==
      ClaimWhen(IsPositive(l.percent) && IsPositive(l.prior), l.percent, l.prior) + ClaimsFor(PrepaidOf(rest))
    ensures ClaimsFor(NowOf([l] + rest)) == ClaimWhen(IsPositive(l.delta), l.percent, l.delta) + ClaimsFor(NowOf(rest))
    ensures rest == [] ==> ClaimsFor(PrepaidOf(rest)) == [] && ClaimsFor(NowOf(rest)) == []
  {
    hide Render;
    assert ([l] + rest)[1..] == rest;
  }

  /** A line's remark claims exactly what was billed before and what this book bills, stage by stage. */
  lemma LineRemark(matrix: seq<MatrixRow>, isFinal: bool, items: seq<Item>, l: Line)
    requires l in BookOf(matrix, isFinal, items).lines && '%' !in l.item.unitCode
    requires l.item.category != Some(Amc) || l.item.amcBillingPeriods == None || l.item.amcCycleNoun == None
    requires Measured(l.item) && AdjustmentsNotNegative(l.item)
    requires PriorsNotNegative(l.item) && PercentagesNotNegative(l.percentages)
    ensures FindClaims(l.remark) == PrepaidClaims(l.item, l.percentages) + NowClaims(l.billed, l.percentages)
  {
    hide BookOf, Billed, FindClaims, PricedAt, OrderedRemark, ClaimsFor, PrepaidOf, NowOf, ClaimWhen;
    TotalIsLineAmounts(matrix, isFinal, items);
    BilledNotNegative(l.item, isFinal);
    var stages := StageLines(l.item, l.percentages, l.billed);
    RemarkIsRead(stages, l.item.unitCode);
    FourStages(stages[0], stages[1], stages[2], stages[3]);
    assert stages == [stages[0], stages[1], stages[2], stages[3]];
  }

  /** Only on a maintenance item whose schedule states a cadence does the remark count periods, out of the sanction. */
  lemma CadenceRemark(matrix: seq<MatrixRow>, isFinal: bool, items: seq<Item>, l: Line)
    requires l in BookOf(matrix, isFinal, items).lines
    requires l.item.category == Some(Amc) && l.item.amcBillingPeriods.Some? && l.item.amcCycleNoun.Some?
    ensures l.remark == OrderedRemark(
      [StageLine(Supply, l.percentages.supply, l.item.priorSupplied, l.billed.supply),
       StageLine(Installation, l.percentages.installation, l.item.priorInstalled, l.billed.installation),
       StageLine(Pac, l.percentages.pac, l.item.priorPac, l.billed.pac),
       StageLine(FinalBill, l.percentages.finalBill, l.item.priorFinalBill, l.billed.finalBill)],
      l.item.unitCode,
      Some(AmcCycle(l.item.sanctioned, l.item.amcBillingPeriods.value, l.item.amcCycleNoun.value)))
  {
    hide BookOf, Billed, PricedAt, OrderedRemark;
    TotalIsLineAmounts(matrix, isFinal, items);
  }
}
