/**
 * One Work item over a whole run of Measurement Books (mb-compute.ts): each book's priors are summed over the lines
 * of the books still live, books may be cancelled, and the sanction may be amended between them.
 */
module MbRuns {
  import opened Text
  import opened Decimal
  import opened MbRemark
  import opened MbCompute

  /** The two stages billed only up to the sanction. */
  type ClampedStage = s: Stage | s == Installation || s == Pac witness Installation

  /** One book's view of the item, as it was when the book was finalised. */
  datatype BookRow = BookRow(item: Item, isFinal: bool, cancelled: bool)

  datatype Event = Finalize(item: Item, isFinal: bool) | Cancel(index: nat)

  function QuantityAt(q: Quantities, stage: Stage): Dec {
    match stage
    case Supply => q.supply
    case Installation => q.installation
    case Pac => q.pac
    case FinalBill => q.finalBill
  }

  function BilledAt(item: Item, isFinal: bool, stage: Stage): Dec { QuantityAt(Billed(item, isFinal), stage) }

  function MeasuredAt(item: Item, stage: ClampedStage): Dec {
    if stage == Installation then ApplyMeasuredOverride(item.deltaInstalled, item.measuredInstalled) else item.deltaPac
  }

  function PriorAt(item: Item, stage: ClampedStage): Dec {
    if stage == Installation then item.priorInstalled else item.priorPac
  }

  /** The book is live and carries a line for the item. */
  predicate HasLine(b: BookRow) { !b.cancelled && OnBook(b.item, b.isFinal) }

  /** The true cumulative: what the lines of every live book billed. */
  function Prior(books: seq<BookRow>, stage: Stage): Dec {
    if books == [] then ZERO
    else
      var rest, last := Prior(books[..|books| - 1], stage), books[|books| - 1];
      if HasLine(last) then Add(rest, BilledAt(last.item, last.isFinal, stage)) else rest
  }

  function Step(books: seq<BookRow>, e: Event): seq<BookRow> {
    match e
    case Finalize(item, isFinal) => books + [BookRow(item, isFinal, false)]
    case Cancel(i) => if i < |books| then books[i := books[i].(cancelled := true)] else books
  }

  function Run(events: seq<Event>): seq<BookRow> {
    if events == [] then [] else Step(Run(events[..|events| - 1]), events[|events| - 1])
  }

  /** Every book is computed from the cumulative of the books live when it is finalised. */
  ghost predicate PriorsFollow(events: seq<Event>, stage: ClampedStage) {
    events == [] ||
      (var rest, last := events[..|events| - 1], events[|events| - 1];
       PriorsFollow(rest, stage) && (last.Finalize? ==> Val(PriorAt(last.item, stage)) == Val(Prior(Run(rest), stage))))
  }

  predicate WellMeasured(e: Event, stage: ClampedStage) { e.Finalize? ==> !IsNegative(MeasuredAt(e.item, stage)) }

  predicate AllWellMeasured(events: seq<Event>, stage: ClampedStage) {
    forall e :: e in events ==> WellMeasured(e, stage)
  }

  ghost function TotalMeasured(events: seq<Event>, stage: ClampedStage): real {
    if events == [] then 0.0
    else
      var rest, last := TotalMeasured(events[..|events| - 1], stage), events[|events| - 1];
      if last.Finalize? then rest + Val(MeasuredAt(last.item, stage)) else rest
  }

  // ---- one more book, one book less --------------------------------------------------------

  ghost function Share(b: BookRow, stage: Stage): real {
    if HasLine(b) then Val(BilledAt(b.item, b.isFinal, stage)) else 0.0
  }

  lemma PriorOfNone(stage: Stage)
    ensures Val(Prior([], stage)) == 0.0
  {
    ValZero();
  }

  lemma PriorSnoc(books: seq<BookRow>, b: BookRow, stage: Stage)
    ensures Val(Prior(books + [b], stage)) == Val(Prior(books, stage)) + Share(b, stage)
  {
    hide Val, OnBook, Billed, Add;
    assert (books + [b])[..|books|] == books;
    AddVal(Prior(books, stage), BilledAt(b.item, b.isFinal, stage));
  }

  lemma {:induction false} PriorAfterCancel(books: seq<BookRow>, i: nat, stage: Stage)
    requires i < |books|
    ensures Val(Prior(books[i := books[i].(cancelled := true)], stage))
         == Val(Prior(books, stage)) - Share(books[i], stage)
    decreases |books|
  {
    hide Val, OnBook, Prior, BilledAt;
    var n := |books| - 1;
    var after := books[i := books[i].(cancelled := true)];
    assert books == books[..n] + [books[n]] && after == after[..n] + [after[n]];
    PriorSnoc(books[..n], books[n], stage);
    PriorSnoc(after[..n], after[n], stage);
    if i < n {
      assert after[..n] == books[..n][i := books[..n][i].(cancelled := true)];
      PriorAfterCancel(books[..n], i, stage);
    } else {
      assert after[..n] == books[..n];
    }
  }

  /** The clamp, seen from one book: between nothing and its measurement; a book without a line bills nothing. */
  lemma ShareIsClamped(item: Item, isFinal: bool, stage: ClampedStage)
    requires !IsNegative(MeasuredAt(item, stage))
    ensures var billed, measured := Val(BilledAt(item, isFinal, stage)), Val(MeasuredAt(item, stage));
      && Share(BookRow(item, isFinal, false), stage) == billed && 0.0 <= billed <= measured
      && billed == if Val(item.sanctioned) < Val(PriorAt(item, stage)) then 0.0
                   else Least(measured, Val(item.sanctioned) - Val(PriorAt(item, stage)))
  {
    hide Val, ClampToSanctioned, ApplyMeasuredOverride, ComputeFinalBillDelta;
    var billed := BilledAt(item, isFinal, stage);
    assert billed == ClampToSanctioned(PriorAt(item, stage), MeasuredAt(item, stage), item.sanctioned);
    ClampVal(PriorAt(item, stage), MeasuredAt(item, stage), item.sanctioned);
    SignVal(MeasuredAt(item, stage));
    SignVal(billed);
  }

  // ---- the quantities over a run ---------------------------------------------------------------

  /** No book bills a negative quantity or more than it measured. */
  lemma {:induction false} EachBillsItsOwn(events: seq<Event>, stage: ClampedStage)
    requires AllWellMeasured(events, stage)
    ensures forall b :: b in Run(events) ==>
      0.0 <= Val(BilledAt(b.item, b.isFinal, stage)) <= Val(MeasuredAt(b.item, stage)) && 0.0 <= Share(b, stage)
    decreases |events|
  {
    hide Val, BilledAt, MeasuredAt, OnBook;
    if events != [] {
      var rest, last := events[..|events| - 1], events[|events| - 1];
      assert last in events && forall e :: e in rest ==> e in events;
      EachBillsItsOwn(rest, stage);
      assert WellMeasured(last, stage);
      if last.Finalize? { ShareIsClamped(last.item, last.isFinal, stage); }
    }
  }

  /** Whatever is amended or cancelled on the way, what is billed never passes a bound on the sanctions in force. */
  lemma {:induction false} NeverPastTheSanction(events: seq<Event>, stage: ClampedStage, bound: Dec)
    requires !IsNegative(bound) && AllWellMeasured(events, stage) && PriorsFollow(events, stage)
    requires forall e :: e in events && e.Finalize? ==> Val(e.item.sanctioned) <= Val(bound)
    ensures 0.0 <= Val(Prior(Run(events), stage)) <= Val(bound)
    decreases |events|
  {
    hide Val, BilledAt, MeasuredAt, PriorAt, Prior, Share;
    SignVal(bound);
    if events == [] {
      PriorOfNone(stage);
    } else {
      var rest, last := events[..|events| - 1], events[|events| - 1];
      assert last in events && forall e :: e in rest ==> e in events;
      NeverPastTheSanction(rest, stage, bound);
      assert WellMeasured(last, stage);
      match last {
        case Finalize(item, isFinal) =>
          PriorSnoc(Run(rest), BookRow(item, isFinal, false), stage);
          ShareIsClamped(item, isFinal, stage);
        case Cancel(i) =>
          EachBillsItsOwn(rest, stage);
          if i < |Run(rest)| { CancelledIsCovered(Run(rest), i, stage); }
      }
    }
  }

  lemma {:induction false} PriorNotNegative(books: seq<BookRow>, stage: Stage)
    requires forall b :: b in books ==> 0.0 <= Share(b, stage)
    ensures 0.0 <= Val(Prior(books, stage))
    decreases |books|
  {
    hide Val, Prior, Share;
    if books == [] {
      PriorOfNone(stage);
    } else {
      var rest, last := books[..|books| - 1], books[|books| - 1];
      assert books == rest + [last] && last in books && forall b :: b in rest ==> b in books;
      PriorNotNegative(rest, stage);
      PriorSnoc(rest, last, stage);
    }
  }

  lemma CancelledIsCovered(books: seq<BookRow>, i: nat, stage: Stage)
    requires i < |books| && forall b :: b in books ==> 0.0 <= Share(b, stage)
    ensures 0.0 <= Val(Prior(books[i := books[i].(cancelled := true)], stage)) <= Val(Prior(books, stage))
  {
    hide Val, Prior, OnBook, BilledAt;
    var after := books[i := books[i].(cancelled := true)];
    forall b | b in after ensures 0.0 <= Share(b, stage) {
      var j :| 0 <= j < |after| && after[j] == b;
      assert books[j] in books && (j != i ==> b == books[j]);
    }
    PriorNotNegative(after, stage);
    PriorAfterCancel(books, i, stage);
    assert books[i] in books;
  }

  predicate OneSanction(events: seq<Event>, sanctioned: Dec) {
    forall e :: e in events ==> e.Finalize? && e.item.sanctioned == sanctioned
  }

  /** Under one sanction and no cancellation, what is billed is what was measured, up to the sanction. */
  lemma {:induction false} BillsUpToTheSanction(events: seq<Event>, stage: ClampedStage, sanctioned: Dec)
    requires !IsNegative(sanctioned) && OneSanction(events, sanctioned)
    requires AllWellMeasured(events, stage) && PriorsFollow(events, stage)
    ensures Val(Prior(Run(events), stage)) == Least(TotalMeasured(events, stage), Val(sanctioned))
    decreases |events|
  {
    hide Val, BilledAt, MeasuredAt, PriorAt, Prior, Share;
    SignVal(sanctioned);
    if events == [] {
      PriorOfNone(stage);
    } else {
      var rest, last := events[..|events| - 1], events[|events| - 1];
      assert last in events && forall e :: e in rest ==> e in events;
      BillsUpToTheSanction(rest, stage, sanctioned);
      assert WellMeasured(last, stage);
      PriorSnoc(Run(rest), BookRow(last.item, last.isFinal, false), stage);
      ShareIsClamped(last.item, last.isFinal, stage);
    }
  }

  // ---- the excess a clamp leaves out ---------------------------------------------------------

  /**
   * Two more books, the second under a sanction at least as high: together they bill all that was measured, up to the
   * second sanction, exactly when the first book left nothing out or the second measures all the room itself.
   */
  lemma NextBookBillsExactlyWhen(events: seq<Event>, stage: ClampedStage, first: Event, second: Event)
    requires first.Finalize? && second.Finalize?
    requires AllWellMeasured(events + [first, second], stage) && PriorsFollow(events + [first, second], stage)
    requires Val(Prior(Run(events), stage)) <= Val(second.item.sanctioned)
    requires Val(first.item.sanctioned) <= Val(second.item.sanctioned)
    ensures var p := Val(Prior(Run(events), stage));
      var m, n := Val(MeasuredAt(first.item, stage)), Val(MeasuredAt(second.item, stage));
      var ceiling, raised := Greatest(p, Val(first.item.sanctioned)), Val(second.item.sanctioned);
      Val(Prior(Run(events + [first, second]), stage)) == Least(p + m + n, raised) <==>
        p + m <= ceiling || n >= raised - ceiling
  {
    hide Val, BilledAt, MeasuredAt, PriorAt, Prior, Share;
    var one, both := events + [first], events + [first, second];
    assert both[..|both| - 1] == one && one[..|one| - 1] == events;
    assert first in both && second in both;
    assert WellMeasured(first, stage) && WellMeasured(second, stage);
    PriorSnoc(Run(events), BookRow(first.item, first.isFinal, false), stage);
    PriorSnoc(Run(one), BookRow(second.item, second.isFinal, false), stage);
    ShareIsClamped(first.item, first.isFinal, stage);
    ShareIsClamped(second.item, second.isFinal, stage);
  }

  function InstalledItem(prior: Dec, installed: Dec, sanctioned: Dec): Item {
    Item("", "", "", "", Some(SupplyAndInstallation), Dec(1, 0), ZERO, installed, ZERO,
         ZERO, prior, ZERO, ZERO, ZERO, ZERO, ZERO, sanctioned, None, None, None, None)
  }

  /**
   * Fifteen measured under a sanction of ten bills ten; with the sanction raised to twenty and nothing measured, the
   * next book bills nothing, and the five stay outside every book.
   */
  lemma ExcessStaysOut()
    ensures var first := Finalize(InstalledItem(ZERO, Dec(15, 0), Dec(10, 0)), false);
      var second := Finalize(InstalledItem(Dec(10, 0), ZERO, Dec(20, 0)), false);
      && AllWellMeasured([first, second], Installation) && PriorsFollow([first, second], Installation)
      && BilledAt(first.item, false, Installation) == Dec(10, 0)
      && BilledAt(second.item, false, Installation) == ZERO
      && Val(Prior(Run([first]), Installation)) == Val(Prior(Run([first, second]), Installation)) == 10.0
  {
    hide Val, Billed, OnBook, Prior, BilledAt, MeasuredAt, ClampToSanctioned;
    var first := Finalize(InstalledItem(ZERO, Dec(15, 0), Dec(10, 0)), false);
    var second := Finalize(InstalledItem(Dec(10, 0), ZERO, Dec(20, 0)), false);
    var a, b := BookRow(first.item, false, false), BookRow(second.item, false, false);
    InstalledBills(first.item);
    InstalledBills(second.item);
    ClampedFigures();
    assert [first, second][..1] == [first] && [first][..0] == [];
    assert Run([first][..0]) == [] && Run([first]) == [a] && Run([first, second]) == [a, b];
    assert [] + [a] == [a] && [a] + [b] == [a, b];
    PriorOfNone(Installation);
    PriorSnoc([], a, Installation);
    PriorSnoc([a], b, Installation);
    assert PriorsFollow([first][..0], Installation) && PriorsFollow([first], Installation);
  }

  lemma InstalledBills(item: Item)
    requires item.measuredInstalled.None?
    ensures BilledAt(item, false, Installation)
         == ClampToSanctioned(item.priorInstalled, item.deltaInstalled, item.sanctioned)
    ensures MeasuredAt(item, Installation) == item.deltaInstalled
    ensures IsPositive(BilledAt(item, false, Installation)) ==> OnBook(item, false)
  {
    hide ClampToSanctioned, ComputeFinalBillDelta;
  }

  lemma WholeSub(a: int, b: int)
    ensures Sub(Dec(a, 0), Dec(b, 0)) == Dec(a - b, 0)
  {
    var k := Pow10(0);
    assert k == 1;
    assert Rescale(Dec(a, 0), 0) == Dec(a * k, 0) && Rescale(Dec(-b, 0), 0) == Dec(-b * k, 0);
  }

  lemma WholeClamp(prior: int, delta: int, sanctioned: int)
    requires prior <= sanctioned
    ensures ClampToSanctioned(Dec(prior, 0), Dec(delta, 0), Dec(sanctioned, 0))
         == Dec(if delta < sanctioned - prior then delta else sanctioned - prior, 0)
  {
    hide Sub;
    WholeSub(sanctioned, prior);
    WholeSub(delta, sanctioned - prior);
  }

  lemma ClampedFigures()
    ensures ClampToSanctioned(ZERO, Dec(15, 0), Dec(10, 0)) == Dec(10, 0)
    ensures ClampToSanctioned(Dec(10, 0), ZERO, Dec(20, 0)) == ZERO
    ensures Val(Dec(10, 0)) == 10.0 && Val(ZERO) == 0.0
  {
    hide ClampToSanctioned;
    WholeClamp(0, 15, 10);
    WholeClamp(10, 0, 20);
  }

  // ---- money over a run ---------------------------------------------------------------

  function PercentAt(p: Percentages, stage: Stage): Dec {
    match stage
    case Supply => p.supply
    case Installation => p.installation
    case Pac => p.pac
    case FinalBill => p.finalBill
  }

  /** The amount a book's line states for the stage. */
  function AmountAt(line: Line, stage: Stage): int {
    match stage
    case Supply => line.amounts.supply
    case Installation => line.amounts.installation
    case Pac => line.amounts.pac
    case FinalBill => line.amounts.finalBill
  }

  /** What the lines of the live books paid for this stage, each rounded on its own. */
  function Paid(books: seq<BookRow>, p: Percentages, stage: Stage): int {
    if books == [] then 0
    else
      var rest, last := Paid(books[..|books| - 1], p, stage), books[|books| - 1];
      if HasLine(last) then rest + AmountAt(LineOf(last.item, last.isFinal, p), stage) else rest
  }

  function LineCount(books: seq<BookRow>): nat {
    if books == [] then 0
    else
      var rest := LineCount(books[..|books| - 1]);
      if HasLine(books[|books| - 1]) then rest + 1 else rest
  }

  /** rate x percent x quantity: rupees times a percentage are paise. */
  ghost function ExactPaise(quantity: real, rate: Dec, percent: Dec): real {
    quantity * Val(rate) * Val(percent)
  }

  predicate OneRate(books: seq<BookRow>, rate: Dec) { forall b :: b in books ==> b.item.rate == rate }

  /** Rounding book by book drifts at most half a paisa a line from rate x percent x cumulative quantity. */
  lemma {:induction false} MoneyDrift(books: seq<BookRow>, p: Percentages, stage: Stage, rate: Dec)
    requires OneRate(books, rate)
    ensures var exact := ExactPaise(Val(Prior(books, stage)), rate, PercentAt(p, stage));
      var drift := Paid(books, p, stage) as real - exact;
      -(LineCount(books) as real) <= 2.0 * drift <= LineCount(books) as real
    decreases |books|
  {
    hide Val, StagePaise, Prior, ExactPaise, OnBook, AmountAt, BilledAt;
    if books == [] {
      PriorOfNone(stage);
      NothingIsExactlyNothing(rate, PercentAt(p, stage));
    } else {
      var rest, last := books[..|books| - 1], books[|books| - 1];
      assert last in books && forall b :: b in rest ==> b in books;
      MoneyDrift(rest, p, stage, rate);
      assert books == rest + [last];
      PriorSnoc(rest, last, stage);
      ExactSum(Val(Prior(rest, stage)), Share(last, stage), rate, PercentAt(p, stage));
      NothingIsExactlyNothing(rate, PercentAt(p, stage));
      ExactStage(last.item, last.isFinal, p, stage);
    }
  }

  lemma NothingIsExactlyNothing(rate: Dec, percent: Dec)
    ensures ExactPaise(0.0, rate, percent) == 0.0
  {
  }

  lemma ExactStage(item: Item, isFinal: bool, p: Percentages, stage: Stage)
    ensures var exact := ExactPaise(Val(BilledAt(item, isFinal, stage)), item.rate, PercentAt(p, stage));
      -0.5 <= AmountAt(LineOf(item, isFinal, p), stage) as real - exact <= 0.5
  {
    hide Val, StagePaise, Billed, OrderedRemark;
    StageAmountError(item.rate, PercentAt(p, stage), BilledAt(item, isFinal, stage));
  }

  lemma ExactSum(x: real, y: real, rate: Dec, percent: Dec)
    ensures ExactPaise(x + y, rate, percent) == ExactPaise(x, rate, percent) + ExactPaise(y, rate, percent)
  {
    hide Val;
    var r, p := Val(rate), Val(percent);
    assert (x + y) * r == x * r + y * r;
    assert (x * r + y * r) * p == x * r * p + y * r * p;
  }
}
