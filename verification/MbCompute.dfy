/** The Measurement Book money engine (mb-compute.ts): overrides, the sanction clamp, and the priced lines. */
module MbCompute {
  import opened Text
  import opened Decimal
  import opened MbRemark

  datatype Percentages = Percentages(supply: Dec, installation: Dec, pac: Dec, finalBill: Dec)

  datatype MatrixRow = MatrixRow(category: Category, percentages: Percentages)

  /** One Work item's live state.  `measured...` are the operator's downward adjustments. */
  datatype Item = Item(
    workItemId: string, itemNumber: string, description: string, unitCode: string, category: Option<Category>,
    rate: Dec,
    deltaSupplied: Dec, deltaInstalled: Dec, deltaPac: Dec,
    priorSupplied: Dec, priorInstalled: Dec, priorPac: Dec, priorFinalBill: Dec,
    cumulativeDelivered: Dec, cumulativeInstalled: Dec, cumulativeAmcCertified: Dec,
    sanctioned: Dec, measuredSupplied: Option<Dec>, measuredInstalled: Option<Dec>,
    amcBillingPeriods: Option<int>, amcCycleNoun: Option<string>)

  datatype Quantities = Quantities(supply: Dec, installation: Dec, pac: Dec, finalBill: Dec)

  datatype Amounts = Amounts(supply: int, installation: int, pac: int, finalBill: int)

  datatype Line = Line(
    item: Item, percentages: Percentages, billed: Quantities, amounts: Amounts, total: int, remark: string)

  /** Why an item that belongs on the book has no line: the row its category lacks, or no category at all. */
  datatype Unresolved = Unresolved(workItemId: string, itemNumber: string, missing: Option<Category>)

  // ---- quantities ----------------------------------------------------------------

  /** An adjustment can only reduce what the sources measure. */
  function ApplyMeasuredOverride(measured: Dec, override_: Option<Dec>): Dec {
    match override_ case None => measured case Some(o) => Min(o, measured)
  }

  /** What this book may bill of its measurement: never past the room left under the sanction. */
  function ClampToSanctioned(prior: Dec, delta: Dec, sanctioned: Dec): Dec {
    var room := Sub(sanctioned, prior);
    if IsNegative(room) then ZERO else Min(delta, room)
  }

  function FinalBillBase(item: Item): Dec {
    match FinalBillBranch(item.category, item.description)
    case Delivered => item.cumulativeDelivered
    case Installed => Min(item.cumulativeInstalled, item.sanctioned)
    case Certified => Min(item.cumulativeAmcCertified, item.sanctioned)
  }

  function ComputeFinalBillDelta(item: Item): Dec {
    var delta := Sub(FinalBillBase(item), item.priorFinalBill);
    if IsNegative(delta) then ZERO else delta
  }

  ghost function Least(x: real, y: real): real { if x <= y then x else y }

  ghost function Greatest(x: real, y: real): real { if x >= y then x else y }

  lemma OverrideVal(measured: Dec, override_: Option<Dec>)
    ensures Val(ApplyMeasuredOverride(measured, override_)) <= Val(measured)
    ensures override_.Some? ==>
      Val(ApplyMeasuredOverride(measured, override_)) == Least(Val(override_.value), Val(measured))
  {
    if override_.Some? { MinVal(override_.value, measured); }
  }

  /** The clamp bills the smaller of the measurement and the room, or nothing when the room is gone. */
  lemma ClampVal(prior: Dec, delta: Dec, sanctioned: Dec)
    ensures Val(ClampToSanctioned(prior, delta, sanctioned))
         == if Val(sanctioned) < Val(prior) then 0.0 else Least(Val(delta), Val(sanctioned) - Val(prior))
  {
    hide Val;
    SubVal(sanctioned, prior);
    SignVal(Sub(sanctioned, prior));
    MinVal(delta, Sub(sanctioned, prior));
    ValZero();
  }

  lemma ClampMonotone(prior: Dec, less: Dec, more: Dec, sanctioned: Dec)
    requires Val(less) <= Val(more)
    ensures Val(ClampToSanctioned(prior, less, sanctioned)) <= Val(ClampToSanctioned(prior, more, sanctioned))
  {
    hide Val, ClampToSanctioned;
    ClampVal(prior, less, sanctioned);
    ClampVal(prior, more, sanctioned);
  }

  /** After the final book the final-bill stage stands at its base, or where it already stood if that was higher. */
  lemma FinalBillReachesBase(item: Item)
    ensures Val(item.priorFinalBill) + Val(ComputeFinalBillDelta(item))
         == Greatest(Val(item.priorFinalBill), Val(FinalBillBase(item)))
    ensures FinalBillBranch(item.category, item.description) != Delivered ==>
      Val(item.priorFinalBill) + Val(ComputeFinalBillDelta(item))
        <= Greatest(Val(item.priorFinalBill), Val(item.sanctioned))
  {
    SubVal(FinalBillBase(item), item.priorFinalBill);
    SignVal(Sub(FinalBillBase(item), item.priorFinalBill));
    MinVal(item.cumulativeInstalled, item.sanctioned);
    MinVal(item.cumulativeAmcCertified, item.sanctioned);
    ValZero();
  }

  /** The adjustment states what was measured; the clamp then decides how much of it is billed. */
  function Billed(item: Item, isFinal: bool): Quantities {
    var installed := ApplyMeasuredOverride(item.deltaInstalled, item.measuredInstalled);
    Quantities(
      ApplyMeasuredOverride(item.deltaSupplied, item.measuredSupplied),
      ClampToSanctioned(item.priorInstalled, installed, item.sanctioned),
      ClampToSanctioned(item.priorPac, item.deltaPac, item.sanctioned),
      if isFinal then ComputeFinalBillDelta(item) else ZERO)
  }

  predicate HasQuantity(q: Quantities) {
    IsPositive(q.supply) || IsPositive(q.installation) || IsPositive(q.pac) || IsPositive(q.finalBill)
  }

  predicate IsAdjusted(item: Item) { item.measuredSupplied.Some? || item.measuredInstalled.Some? }

  /** A line appears for a positive delta, or because somebody adjusted it. */
  predicate OnBook(item: Item, isFinal: bool) { HasQuantity(Billed(item, isFinal)) || IsAdjusted(item) }

  // ---- percentages -----------------------------------------------------------------

  /** The first matrix row of the item's own category; an item without one resolves through nothing. */
  function ResolvePercentages(matrix: seq<MatrixRow>, category: Option<Category>): Option<Percentages> {
    if category.None? || matrix == [] then None
    else if matrix[0].category == category.value then Some(matrix[0].percentages)
    else ResolvePercentages(matrix[1..], category)
  }

  /** The matrix's row for the category, and no earlier one for it. */
  predicate FirstRowFor(matrix: seq<MatrixRow>, category: Category, i: nat) {
    i < |matrix| && matrix[i].category == category && forall k :: 0 <= k < i ==> matrix[k].category != category
  }

  lemma {:induction false} NeverAnotherRow(matrix: seq<MatrixRow>, category: Option<Category>)
    ensures ResolvePercentages(matrix, category).Some? <==>
      category.Some? && exists r :: r in matrix && r.category == category.value
    ensures ResolvePercentages(matrix, category).Some? ==>
      exists i: nat ::
        FirstRowFor(matrix, category.value, i) && ResolvePercentages(matrix, category) == Some(matrix[i].percentages)
  {
    if category.Some? && matrix != [] {
      if matrix[0].category == category.value {
        assert FirstRowFor(matrix, category.value, 0);
      } else {
        NeverAnotherRow(matrix[1..], category);
        assert matrix == [matrix[0]] + matrix[1..];
        if ResolvePercentages(matrix, category).Some? {
          var i: nat :| FirstRowFor(matrix[1..], category.value, i)
            && ResolvePercentages(matrix[1..], category) == Some(matrix[1..][i].percentages);
          assert FirstRowFor(matrix, category.value, i + 1);
        }
      }
    }
  }

  // ---- lines -------------------------------------------------------------------------

  function PricedAt(item: Item, p: Percentages, q: Quantities): Amounts {
    Amounts(StagePaise(item.rate, p.supply, q.supply), StagePaise(item.rate, p.installation, q.installation),
            StagePaise(item.rate, p.pac, q.pac), StagePaise(item.rate, p.finalBill, q.finalBill))
  }

  function Total(a: Amounts): int { a.supply + a.installation + a.pac + a.finalBill }

  /** Period wording only for an AMC item whose schedule states a cadence. */
  function CycleOf(item: Item): Option<AmcCycle> {
    if item.category == Some(Amc) && item.amcBillingPeriods.Some? && item.amcCycleNoun.Some? then
      Some(AmcCycle(item.sanctioned, item.amcBillingPeriods.value, item.amcCycleNoun.value))
    else None
  }

  function StageLines(item: Item, p: Percentages, q: Quantities): seq<StageLine> {
    [StageLine(Supply, p.supply, item.priorSupplied, q.supply),
     StageLine(Installation, p.installation, item.priorInstalled, q.installation),
     StageLine(Pac, p.pac, item.priorPac, q.pac),
     StageLine(FinalBill, p.finalBill, item.priorFinalBill, q.finalBill)]
  }

  function LineOf(item: Item, isFinal: bool, p: Percentages): Line {
    var q := Billed(item, isFinal);
    var amounts := PricedAt(item, p, q);
    Line(item, p, q, amounts, Total(amounts), OrderedRemark(StageLines(item, p, q), item.unitCode, CycleOf(item)))
  }

  /** What the adjustments left out of one line, in paise. */
  function AdjustedAway(item: Item, isFinal: bool, p: Percentages): int {
    if !IsAdjusted(item) then 0
    else
      var q := Billed(item, isFinal);
      var installed := ClampToSanctioned(item.priorInstalled, item.deltaInstalled, item.sanctioned);
      StagePaise(item.rate, p.supply, item.deltaSupplied) + StagePaise(item.rate, p.installation, installed)
      - (StagePaise(item.rate, p.supply, q.supply) + StagePaise(item.rate, p.installation, q.installation))
  }

  // ---- the book ------------------------------------------------------------------------

  datatype Book = Book(lines: seq<Line>, totalAmount: int, unresolved: seq<Unresolved>, adjustedAwayAmount: int)

  const EMPTY_BOOK := Book([], 0, [], 0)

  function AddItem(book: Book, matrix: seq<MatrixRow>, isFinal: bool, item: Item): Book {
    if !OnBook(item, isFinal) then book
    else
      match ResolvePercentages(matrix, item.category)
      case None => book.(unresolved := book.unresolved + [Unresolved(item.workItemId, item.itemNumber, item.category)])
      case Some(p) =>
        var line := LineOf(item, isFinal, p);
        book.(lines := book.lines + [line], totalAmount := book.totalAmount + line.total,
              adjustedAwayAmount := book.adjustedAwayAmount + AdjustedAway(item, isFinal, p))
  }

  /** The book of items already in item-number order. */
  function BookOf(matrix: seq<MatrixRow>, isFinal: bool, items: seq<Item>): Book {
    if items == [] then EMPTY_BOOK
    else AddItem(BookOf(matrix, isFinal, items[..|items| - 1]), matrix, isFinal, items[|items| - 1])
  }

  /** The loop over the items the caller has put in item-number order. */
  method ComputeMeasurementBook(matrix: seq<MatrixRow>, isFinal: bool, ordered: seq<Item>) returns (book: Book)
    ensures book == BookOf(matrix, isFinal, ordered)
  {
    book := EMPTY_BOOK;
    for i := 0 to |ordered|
      invariant book == BookOf(matrix, isFinal, ordered[..i])
    {
      assert ordered[..i + 1] == ordered[..i] + [ordered[i]];
      BookSnoc(matrix, isFinal, ordered[..i], ordered[i]);
      book := EnterItem(book, matrix, isFinal, ordered[i]);
    }
    assert ordered[..|ordered|] == ordered;
  }

  /** One turn of the loop. */
  method EnterItem(before: Book, matrix: seq<MatrixRow>, isFinal: bool, item: Item) returns (book: Book)
    ensures book == AddItem(before, matrix, isFinal, item)
  {
    hide PricedAt, Billed, OrderedRemark, HasQuantity;
    var billed := BilledQuantities(item, isFinal);
    if !HasQuantity(billed) && !IsAdjusted(item) { return before; }
    var resolution := ResolvePercentages(matrix, item.category);
    if resolution.None? {
      return before.(unresolved := before.unresolved + [Unresolved(item.workItemId, item.itemNumber, item.category)]);
    }
    var line := BuildLine(item, isFinal, resolution.value, billed);
    book := before.(lines := before.lines + [line], totalAmount := before.totalAmount + line.total);
    if IsAdjusted(item) {
      var away := PriceAdjustment(item, isFinal, line);
      book := book.(adjustedAwayAmount := book.adjustedAwayAmount + away);
    }
  }

  lemma BookSnoc(matrix: seq<MatrixRow>, isFinal: bool, items: seq<Item>, item: Item)
    ensures BookOf(matrix, isFinal, items + [item]) == AddItem(BookOf(matrix, isFinal, items), matrix, isFinal, item)
  {
    assert (items + [item])[..|items|] == items;
  }

  method BilledQuantities(item: Item, isFinal: bool) returns (billed: Quantities)
    ensures billed == Billed(item, isFinal)
  {
    var supplied := ApplyMeasuredOverride(item.deltaSupplied, item.measuredSupplied);
    var measured := ApplyMeasuredOverride(item.deltaInstalled, item.measuredInstalled);
    var installed := ClampToSanctioned(item.priorInstalled, measured, item.sanctioned);
    var pac := ClampToSanctioned(item.priorPac, item.deltaPac, item.sanctioned);
    var finalBill := if isFinal then ComputeFinalBillDelta(item) else ZERO;
    billed := Quantities(supplied, installed, pac, finalBill);
  }

  method BuildLine(item: Item, isFinal: bool, p: Percentages, billed: Quantities) returns (line: Line)
    requires billed == Billed(item, isFinal)
    ensures line == LineOf(item, isFinal, p)
  {
    var amounts, total := PriceLine(item.rate, p, billed);
    var remark := OrderedRemark(StageLines(item, p, billed), item.unitCode, CycleOf(item));
    line := Line(item, p, billed, amounts, total, remark);
  }

  /** The two adjustable stages priced at what the sources measure, less what they were priced at. */
  method PriceAdjustment(item: Item, isFinal: bool, line: Line) returns (away: int)
    requires IsAdjusted(item) && line == LineOf(item, isFinal, line.percentages)
    ensures away == AdjustedAway(item, isFinal, line.percentages)
  {
    var unreduced := ClampToSanctioned(item.priorInstalled, item.deltaInstalled, item.sanctioned);
    var perStage, total := ComputeStageAmounts(item.rate,
      [StageQuantity(Supply, line.percentages.supply, item.deltaSupplied),
       StageQuantity(Installation, line.percentages.installation, unreduced)]);
    SumTwo(perStage);
    away := total - (line.amounts.supply + line.amounts.installation);
  }

  lemma SumTwo(a: seq<int>)
    requires |a| == 2
    ensures SumPaise(a) == a[0] + a[1]
  {
    assert a[..1][..0] == [];
    assert SumPaise(a[..1]) == SumPaise([]) + a[0];
  }

  lemma SumFour(a: seq<int>)
    requires |a| == 4
    ensures SumPaise(a) == a[0] + a[1] + a[2] + a[3]
  {
    SumTwo(a[..2]);
    assert a[..3][..2] == a[..2];
    assert SumPaise(a[..3]) == SumPaise(a[..2]) + a[2];
  }

  method PriceLine(rate: Dec, p: Percentages, q: Quantities) returns (amounts: Amounts, total: int)
    ensures amounts == Amounts(StagePaise(rate, p.supply, q.supply), StagePaise(rate, p.installation, q.installation),
                               StagePaise(rate, p.pac, q.pac), StagePaise(rate, p.finalBill, q.finalBill))
    ensures total == Total(amounts)
  {
    var perStage;
    perStage, total := ComputeStageAmounts(rate,
      [StageQuantity(Supply, p.supply, q.supply), StageQuantity(Installation, p.installation, q.installation),
       StageQuantity(Pac, p.pac, q.pac), StageQuantity(FinalBill, p.finalBill, q.finalBill)]);
    SumFour(perStage);
    amounts := Amounts(perStage[0], perStage[1], perStage[2], perStage[3]);
  }

  // ---- money only moves ---------------------------------------------------------------------

  /** The same item before anybody adjusted it. */
  function Unadjusted(item: Item): Item { item.(measuredSupplied := None, measuredInstalled := None) }

  function AllUnadjusted(items: seq<Item>): seq<Item> {
    seq(|items|, i requires 0 <= i < |items| => Unadjusted(items[i]))
  }

  /** The database never hands over a negative measurement. */
  predicate Measured(item: Item) {
    !IsNegative(item.deltaSupplied) && !IsNegative(item.deltaInstalled) && !IsNegative(item.deltaPac)
  }

  lemma OffBookPricesNothing(item: Item, isFinal: bool, p: Percentages)
    requires Measured(item) && !OnBook(item, isFinal)
    ensures Total(PricedAt(item, p, Billed(item, isFinal))) == 0
  {
    var q := Billed(item, isFinal);
    NothingCostsNothing(item.rate, p.supply, q.supply);
    NothingCostsNothing(item.rate, p.installation, q.installation);
    NothingCostsNothing(item.rate, p.pac, q.pac);
    NothingCostsNothing(item.rate, p.finalBill, q.finalBill);
  }

  /** The money the book loses to adjustments is exactly the money adjustedAwayAmount reports. */
  lemma {:induction false} AdjustmentsOnlyMoveMoney(matrix: seq<MatrixRow>, isFinal: bool, items: seq<Item>)
    requires forall i :: 0 <= i < |items| ==> Measured(items[i])
    ensures BookOf(matrix, isFinal, items).totalAmount + BookOf(matrix, isFinal, items).adjustedAwayAmount
         == BookOf(matrix, isFinal, AllUnadjusted(items)).totalAmount
    ensures BookOf(matrix, isFinal, AllUnadjusted(items)).adjustedAwayAmount == 0
  {
    if items != [] {
      var n := |items| - 1;
      var item := items[n];
      AdjustmentsOnlyMoveMoney(matrix, isFinal, items[..n]);
      assert AllUnadjusted(items)[..n] == AllUnadjusted(items[..n]);
      AddItemMoves(BookOf(matrix, isFinal, items[..n]), BookOf(matrix, isFinal, AllUnadjusted(items[..n])),
                   matrix, isFinal, item);
    }
  }

  lemma AddItemMoves(book: Book, whole: Book, matrix: seq<MatrixRow>, isFinal: bool, item: Item)
    requires Measured(item)
    ensures var after := AddItem(book, matrix, isFinal, item);
      var wholeAfter := AddItem(whole, matrix, isFinal, Unadjusted(item));
      && after.totalAmount + after.adjustedAwayAmount - wholeAfter.totalAmount
         == book.totalAmount + book.adjustedAwayAmount - whole.totalAmount
      && wholeAfter.adjustedAwayAmount == whole.adjustedAwayAmount
  {
    var resolution := ResolvePercentages(matrix, item.category);
    if resolution.Some? {
      if !OnBook(Unadjusted(item), isFinal) { OffBookPricesNothing(Unadjusted(item), isFinal, resolution.value); }
      if !OnBook(item, isFinal) { OffBookPricesNothing(item, isFinal, resolution.value); }
    }
  }

  predicate NotNegative(p: Percentages) {
    !IsNegative(p.supply) && !IsNegative(p.installation) && !IsNegative(p.pac) && !IsNegative(p.finalBill)
  }

  lemma ItemAwayNotNegative(item: Item, isFinal: bool, p: Percentages)
    requires !IsNegative(item.rate) && NotNegative(p)
    ensures AdjustedAway(item, isFinal, p) >= 0
  {
    OverrideVal(item.deltaSupplied, item.measuredSupplied);
    OverrideVal(item.deltaInstalled, item.measuredInstalled);
    var q := Billed(item, isFinal);
    StageAmountMonotone(item.rate, p.supply, q.supply, item.deltaSupplied);
    var reduced := ApplyMeasuredOverride(item.deltaInstalled, item.measuredInstalled);
    ClampMonotone(item.priorInstalled, reduced, item.deltaInstalled, item.sanctioned);
    StageAmountMonotone(item.rate, p.installation, q.installation,
      ClampToSanctioned(item.priorInstalled, item.deltaInstalled, item.sanctioned));
  }

  /** An adjustment never adds money. */
  lemma {:induction false} AwayNotNegative(matrix: seq<MatrixRow>, isFinal: bool, items: seq<Item>)
    requires forall i :: 0 <= i < |items| ==> !IsNegative(items[i].rate)
    requires forall r :: r in matrix ==> NotNegative(r.percentages)
    ensures BookOf(matrix, isFinal, items).adjustedAwayAmount >= 0
  {
    if items != [] {
      var item := items[|items| - 1];
      AwayNotNegative(matrix, isFinal, items[..|items| - 1]);
      NeverAnotherRow(matrix, item.category);
      var resolution := ResolvePercentages(matrix, item.category);
      if resolution.Some? { ItemAwayNotNegative(item, isFinal, resolution.value); }
    }
  }

  function LineAmounts(lines: seq<Line>): int {
    if lines == [] then 0
    else
      var last := lines[|lines| - 1];
      LineAmounts(lines[..|lines| - 1])
      + last.amounts.supply + last.amounts.installation + last.amounts.pac + last.amounts.finalBill
  }

  /**
   * The book's total is the sum of its lines' rounded stage amounts, and every line was priced and worded from its
   * own item.
   */
  lemma {:induction false} TotalIsLineAmounts(matrix: seq<MatrixRow>, isFinal: bool, items: seq<Item>)
    ensures BookOf(matrix, isFinal, items).totalAmount == LineAmounts(BookOf(matrix, isFinal, items).lines)
    ensures forall l :: l in BookOf(matrix, isFinal, items).lines ==>
      && l.item in items && ResolvePercentages(matrix, l.item.category) == Some(l.percentages)
      && l == LineOf(l.item, isFinal, l.percentages)
  {
    hide PricedAt, Billed, OrderedRemark, AdjustedAway, OnBook;
    if items != [] {
      var rest, item := items[..|items| - 1], items[|items| - 1];
      TotalIsLineAmounts(matrix, isFinal, rest);
      var before, after := BookOf(matrix, isFinal, rest), BookOf(matrix, isFinal, items);
      if after.lines != before.lines {
        assert after.lines[..|after.lines| - 1] == before.lines;
      }
      assert forall l :: l in before.lines ==> l.item in items;
    }
  }

  function BookTotals(matrix: seq<MatrixRow>, isFinal: bool, items: seq<Item>): (int, int) {
    var b := BookOf(matrix, isFinal, items);
    (b.totalAmount, b.adjustedAwayAmount)
  }

  /** Any order of the items bills the same money. */
  lemma {:induction false} OrderDoesNotPrice(matrix: seq<MatrixRow>, isFinal: bool, a: seq<Item>, b: seq<Item>)
    requires multiset(a) == multiset(b)
    ensures BookTotals(matrix, isFinal, a) == BookTotals(matrix, isFinal, b)
    decreases |a|
  {
    hide AddItem;
    if a == [] {
      assert |multiset(b)| == 0;
    } else {
      var n := |a| - 1;
      assert a == a[..n] + [a[n]];
      assert a[n] in multiset(b);
      var k :| 0 <= k < |b| && b[k] == a[n];
      assert b == b[..k] + [b[k]] + b[k + 1..];
      var rest := b[..k] + b[k + 1..];
      assert multiset(rest) == multiset(b) - multiset{a[n]} == multiset(a[..n]);
      OrderDoesNotPrice(matrix, isFinal, a[..n], rest);
      MoveToEnd(matrix, isFinal, b[..k], a[n], b[k + 1..]);
      assert (rest + [a[n]])[..|rest|] == rest;
      SameStep(BookOf(matrix, isFinal, a[..n]), BookOf(matrix, isFinal, rest), matrix, isFinal, a[n]);
    }
  }

  lemma SameStep(x: Book, y: Book, matrix: seq<MatrixRow>, isFinal: bool, item: Item)
    requires x.totalAmount == y.totalAmount && x.adjustedAwayAmount == y.adjustedAwayAmount
    ensures AddItem(x, matrix, isFinal, item).totalAmount == AddItem(y, matrix, isFinal, item).totalAmount
    ensures AddItem(x, matrix, isFinal, item).adjustedAwayAmount == AddItem(y, matrix, isFinal, item).adjustedAwayAmount
  {
  }

  lemma {:induction false} MoveToEnd(
      matrix: seq<MatrixRow>, isFinal: bool, before: seq<Item>, item: Item, after: seq<Item>)
    ensures BookTotals(matrix, isFinal, before + [item] + after) == BookTotals(matrix, isFinal, before + after + [item])
    decreases |after|
  {
    if after == [] {
      assert before + [item] + after == before + after + [item];
    } else {
      var rest, last := after[..|after| - 1], after[|after| - 1];
      MoveToEnd(matrix, isFinal, before, item, rest);
      assert before + [item] + after == (before + [item] + rest) + [last];
      assert before + after == (before + rest) + [last];
      BookSnoc(matrix, isFinal, before + [item] + rest, last);
      BookSnoc(matrix, isFinal, before + after, item);
      BookSnoc(matrix, isFinal, before + rest, last);
      BookSnoc(matrix, isFinal, before + rest, item);
      TwoSteps(BookOf(matrix, isFinal, before + rest), matrix, isFinal, item, last);
      SameStep(BookOf(matrix, isFinal, before + [item] + rest), BookOf(matrix, isFinal, before + rest + [item]),
               matrix, isFinal, last);
    }
  }

  lemma TwoSteps(b: Book, matrix: seq<MatrixRow>, isFinal: bool, x: Item, y: Item)
    ensures var xy := AddItem(AddItem(b, matrix, isFinal, x), matrix, isFinal, y);
      var yx := AddItem(AddItem(b, matrix, isFinal, y), matrix, isFinal, x);
      xy.totalAmount == yx.totalAmount && xy.adjustedAwayAmount == yx.adjustedAwayAmount
  {
  }
}
