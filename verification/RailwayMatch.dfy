/**
 * Comparing the railway's measurement with a Measurement Book (railway-measurement-match.ts), line by line:
 * each figure may have been transcribed as a coefficient or as a physical quantity.
 */
module RailwayMatch {
  import opened Text
  import opened Decimal

  datatype Way = Coefficient | Physical

  /** One stage of a book line: this book's quantity, everything before it, and the stage's percentage. */
  datatype StageFigures = StageFigures(delta: Dec, prior: Dec, percent: Dec)

  datatype BookLine = BookLine(itemNumber: string, remark: string, stages: seq<StageFigures>)

  datatype Item = Item(itemNumber: string, quantity: Dec, remark: string)

  datatype Refusal = MissingFromMeasurement | WrongQuantity | WrongRemark | AbsentFromBook

  datatype Verdict = Matched(itemNumber: string, way: Way) | Mismatched(itemNumber: string, refusal: Refusal)

  // ---- the two figures a line may be transcribed as --------------------------------------

  function Cumulative(s: StageFigures): Dec { Add(s.prior, s.delta) }

  const ONE_PERCENT := Dec(1, 2)

  function Weighted(s: StageFigures): Dec { Mul(Mul(Cumulative(s), s.percent), ONE_PERCENT) }

  function Expected(stages: seq<StageFigures>): Dec {
    if stages == [] then ZERO else Add(Expected(stages[..|stages| - 1]), Weighted(stages[|stages| - 1]))
  }

  method ExpectedQuantity(line: BookLine) returns (total: Dec)
    ensures total == Expected(line.stages)
  {
    total := ZERO;
    for i := 0 to |line.stages|
      invariant total == Expected(line.stages[..i])
    {
      assert line.stages[..i + 1][..i] == line.stages[..i];
      total := Add(total, Weighted(line.stages[i]));
    }
    assert line.stages[..|line.stages|] == line.stages;
  }

  function OrZero(d: Option<Dec>): Dec { if d.Some? then d.value else ZERO }

  /** The quantity shared by the stages that carry any, given the one found so far; None where two differ. */
  function PhysicalFrom(stages: seq<StageFigures>, found: Option<Dec>): Option<Dec> {
    if stages == [] then Some(OrZero(found))
    else
      var q := Cumulative(stages[0]);
      if Render(q) == "0" then PhysicalFrom(stages[1..], found)
      else if found == None then PhysicalFrom(stages[1..], Some(q))
      else if Render(found.value) != Render(q) then None
      else PhysicalFrom(stages[1..], found)
  }

  method PhysicalQuantity(line: BookLine) returns (physical: Option<Dec>)
    ensures physical == PhysicalFrom(line.stages, None)
  {
    hide Render;
    var found: Option<Dec> := None;
    for i := 0 to |line.stages|
      invariant PhysicalFrom(line.stages[i..], found) == PhysicalFrom(line.stages, None)
    {
      assert line.stages[i..][1..] == line.stages[i + 1..];
      var q := Cumulative(line.stages[i]);
      if Render(q) == "0" { continue; }
      if found == None {
        found := Some(q);
      } else if Render(found.value) != Render(q) {
        return None;
      }
    }
    assert line.stages[|line.stages|..] == [];
    physical := Some(OrZero(found));
  }

  // ---- what the figures mean ---------------------------------------------------------------

  ghost function Billed(s: StageFigures): real { Val(s.prior) + Val(s.delta) }

  /** The sum over stages of cumulative quantity times percentage. */
  ghost function WeightedSum(stages: seq<StageFigures>): real {
    if stages == [] then 0.0
    else WeightedSum(stages[..|stages| - 1]) + Billed(stages[|stages| - 1]) * Val(stages[|stages| - 1].percent)
  }

  lemma {:induction false} ExpectedMeaning(stages: seq<StageFigures>)
    ensures Val(Expected(stages)) * 100.0 == WeightedSum(stages)
    decreases |stages|
  {
    hide Val;
    if stages == [] {
      ValZero();
    } else {
      var init, s := stages[..|stages| - 1], stages[|stages| - 1];
      ExpectedMeaning(init);
      AddVal(Expected(init), Weighted(s));
      WeightedMeaning(s);
    }
  }

  lemma WeightedMeaning(s: StageFigures)
    ensures Val(Weighted(s)) * 100.0 == Billed(s) * Val(s.percent)
  {
    hide Val;
    AddVal(s.prior, s.delta);
    MulVal(Cumulative(s), s.percent);
    MulVal(Mul(Cumulative(s), s.percent), ONE_PERCENT);
    HundredthVal();
  }

  lemma HundredthVal()
    ensures Val(ONE_PERCENT) * 100.0 == 1.0
  {
    ValTimesPower(1, 2);
    assert Pow10(2) == 100;
  }

  lemma RendersZero(d: Dec)
    ensures Render(d) == "0" <==> Val(d) == 0.0
  {
    RenderInjective(d, ZERO);
    ValZero();
    assert Render(ZERO) == "0";
  }

  /** Every stage that carries quantity carries this one. */
  ghost predicate AllCarry(stages: seq<StageFigures>, v: real) {
    forall i :: 0 <= i < |stages| && Billed(stages[i]) != 0.0 ==> Billed(stages[i]) == v
  }

  ghost predicate NoneCarries(stages: seq<StageFigures>) { forall i :: 0 <= i < |stages| ==> Billed(stages[i]) == 0.0 }

  lemma CumulativeVal(s: StageFigures)
    ensures Val(Cumulative(s)) == Billed(s)
  {
    AddVal(s.prior, s.delta);
  }

  lemma {:induction false} PhysicalAfter(stages: seq<StageFigures>, q: Dec)
    requires Val(q) != 0.0
    ensures PhysicalFrom(stages, Some(q)) == if AllCarry(stages, Val(q)) then Some(q) else None
    decreases |stages|
  {
    hide Val, Render, Add;
    if stages != [] {
      var s, rest := stages[0], stages[1..];
      PhysicalAfter(rest, q);
      CumulativeVal(s);
      RendersZero(Cumulative(s));
      RenderInjective(q, Cumulative(s));
    }
  }

  /** There is a physical figure exactly when the stages carrying quantity agree on it, and then it is theirs. */
  lemma {:induction false} PhysicalMeaning(stages: seq<StageFigures>)
    ensures PhysicalFrom(stages, None).Some? <==> exists v :: AllCarry(stages, v)
    ensures PhysicalFrom(stages, None).Some? ==> AllCarry(stages, Val(PhysicalFrom(stages, None).value))
    ensures PhysicalFrom(stages, None).Some? && Val(PhysicalFrom(stages, None).value) == 0.0 ==> NoneCarries(stages)
    decreases |stages|
  {
    hide Val, Render, Add, Billed;
    if stages == [] {
      assert AllCarry(stages, 0.0);
    } else {
      var s, rest := stages[0], stages[1..];
      CumulativeVal(s);
      RendersZero(Cumulative(s));
      forall v ensures AllCarry(stages, v) <==> (Billed(s) != 0.0 ==> Billed(s) == v) && AllCarry(rest, v) {
      }
      if Billed(s) == 0.0 {
        PhysicalMeaning(rest);
      } else {
        PhysicalAfter(rest, Cumulative(s));
      }
    }
  }

  /** The percentages of the stages that carry quantity. */
  ghost function CarryingPercent(stages: seq<StageFigures>): real {
    if stages == [] then 0.0
    else
      var before, s := CarryingPercent(stages[..|stages| - 1]), stages[|stages| - 1];
      if Billed(s) == 0.0 then before else before + Val(s.percent)
  }

  lemma {:induction false} CommonQuantity(stages: seq<StageFigures>, v: real)
    requires AllCarry(stages, v)
    ensures WeightedSum(stages) == v * CarryingPercent(stages)
    decreases |stages|
  {
    hide Val, Billed;
    if stages != [] {
      var n := |stages| - 1;
      assert AllCarry(stages[..n], v) by { assert forall i :: 0 <= i < n ==> stages[..n][i] == stages[i]; }
      CommonQuantity(stages[..n], v);
      assert v * (CarryingPercent(stages[..n]) + Val(stages[n].percent))
          == v * CarryingPercent(stages[..n]) + v * Val(stages[n].percent);
    }
  }

  /** The two figures of a line coincide exactly when nothing is billed or the billed percentages come to 100. */
  lemma BothFitExactlyWhen(line: BookLine)
    requires PhysicalFrom(line.stages, None).Some?
    ensures Val(Expected(line.stages)) == Val(PhysicalFrom(line.stages, None).value)
       <==> NoneCarries(line.stages) || CarryingPercent(line.stages) == 100.0
  {
    hide Val, Expected, PhysicalFrom, WeightedSum, CarryingPercent;
    var v := Val(PhysicalFrom(line.stages, None).value);
    PhysicalMeaning(line.stages);
    ExpectedMeaning(line.stages);
    CommonQuantity(line.stages, v);
    NoneMeansZero(line.stages, v);
    var w := CarryingPercent(line.stages);
    assert v * w == v * 100.0 <==> v == 0.0 || w == 100.0;
  }

  lemma NoneMeansZero(stages: seq<StageFigures>, v: real)
    requires PhysicalFrom(stages, None).Some? && Val(PhysicalFrom(stages, None).value) == v
    ensures NoneCarries(stages) <==> v == 0.0
  {
    PhysicalMeaning(stages);
    if NoneCarries(stages) { NothingPhysical(stages); }
  }

  lemma {:induction false} NothingPhysical(stages: seq<StageFigures>)
    requires NoneCarries(stages)
    ensures PhysicalFrom(stages, None) == Some(ZERO) && Val(ZERO) == 0.0
    decreases |stages|
  {
    hide Render, Add;
    ValZero();
    if stages != [] {
      assert forall i :: 0 <= i < |stages[1..]| ==> stages[1..][i] == stages[i + 1];
      NothingPhysical(stages[1..]);
      CumulativeVal(stages[0]);
      RendersZero(Cumulative(stages[0]));
    }
  }

  // ---- item numbers ---------------------------------------------------------------------------

  function SplitSlash(s: string): (parts: seq<string>)
    ensures |parts| >= 1 && forall p :: p in parts ==> '/' !in p
  {
    if s == [] then [""]
    else
      var rest := SplitSlash(s[1..]);
      if s[0] == '/' then [""] + rest else [[s[0]] + rest[0]] + rest[1..]
  }

  /** A numeral loses its leading zeros; anything else stands. */
  function CanonicalSegment(s: string): string { if IsDigitRun(s) then NatText(TextNat(s)) else s }

  function CanonicalSegments(parts: seq<string>): (r: seq<string>)
    ensures |r| == |parts|
  {
    seq(|parts|, i requires 0 <= i < |parts| => CanonicalSegment(parts[i]))
  }

  function Segments(value: string): seq<string> { SplitSlash(Upper(Trim(value))) }

  function NormaliseItemNumber(value: string): string { JoinWith(CanonicalSegments(Segments(value)), "/") }

  lemma {:induction false} SplitOfJoin(parts: seq<string>)
    requires |parts| >= 1 && forall p :: p in parts ==> '/' !in p
    ensures SplitSlash(JoinWith(parts, "/")) == parts
    decreases |parts|
  {
    assert parts[0] in parts;
    if |parts| == 1 {
      SplitPlain(parts[0]);
    } else {
      assert forall p :: p in parts[1..] ==> p in parts;
      SplitOfJoin(parts[1..]);
      SplitFirst(parts[0], JoinWith(parts[1..], "/"));
      assert parts[0] + "/" + JoinWith(parts[1..], "/") == parts[0] + (['/'] + JoinWith(parts[1..], "/"));
    }
  }

  lemma {:induction false} SplitPlain(s: string)
    requires '/' !in s
    ensures SplitSlash(s) == [s]
    decreases |s|
  {
    if s != [] {
      assert s[0] in s && s == [s[0]] + s[1..];
      SplitPlain(s[1..]);
    }
  }

  lemma {:induction false} SplitFirst(first: string, rest: string)
    requires '/' !in first
    ensures SplitSlash(first + (['/'] + rest)) == [first] + SplitSlash(rest)
    decreases |first|
  {
    var s := first + (['/'] + rest);
    if first == [] {
      assert s == ['/'] + rest && s[1..] == rest;
    } else {
      assert first[0] in first && first == [first[0]] + first[1..];
      assert s[1..] == first[1..] + (['/'] + rest);
      SplitFirst(first[1..], rest);
    }
  }

  lemma CanonicalHasNoSlash(parts: seq<string>)
    requires forall p :: p in parts ==> '/' !in p
    ensures forall p :: p in CanonicalSegments(parts) ==> '/' !in p
  {
    forall i | 0 <= i < |parts| ensures '/' !in CanonicalSegment(parts[i]) {
      assert parts[i] in parts;
      if IsDigitRun(parts[i]) { NatTextDigits(TextNat(parts[i])); }
    }
  }

  /** Two segments are one when they spell the same number, or are the same text. */
  predicate SameSegment(a: string, b: string) {
    a == b || (IsDigitRun(a) && IsDigitRun(b) && TextNat(a) == TextNat(b))
  }

  lemma CanonicalSegmentMeaning(a: string, b: string)
    ensures CanonicalSegment(a) == CanonicalSegment(b) <==> SameSegment(a, b)
  {
    if IsDigitRun(a) { TextNatOfNatText(TextNat(a)); NatTextDigits(TextNat(a)); }
    if IsDigitRun(b) { TextNatOfNatText(TextNat(b)); NatTextDigits(TextNat(b)); }
  }

  /** A/01 and A/1 are one item, A/1 and B/1 are not: numbers agree exactly when they agree segment by segment. */
  lemma SameItemExactlyWhen(a: string, b: string)
    ensures NormaliseItemNumber(a) == NormaliseItemNumber(b) <==>
      |Segments(a)| == |Segments(b)| && forall i :: 0 <= i < |Segments(a)| ==>
        SameSegment(Segments(a)[i], Segments(b)[i])
  {
    hide SplitSlash, JoinWith, CanonicalSegment, SameSegment, Upper, Trim;
    var x, y := Segments(a), Segments(b);
    CanonicalHasNoSlash(x);
    CanonicalHasNoSlash(y);
    SplitOfJoin(CanonicalSegments(x));
    SplitOfJoin(CanonicalSegments(y));
    assert NormaliseItemNumber(a) == NormaliseItemNumber(b) <==> CanonicalSegments(x) == CanonicalSegments(y);
    if |x| == |y| {
      forall i {:trigger x[i]} {:trigger CanonicalSegments(x)[i]} | 0 <= i < |x|
        ensures CanonicalSegments(x)[i] == CanonicalSegments(y)[i] <==> SameSegment(x[i], y[i])
      {
        CanonicalSegmentMeaning(x[i], y[i]);
      }
    }
  }

  // ---- remarks ------------------------------------------------------------------------------------

  /** Leading zeros of a number go; digits behind a point or a digit stay. */
  function DropLeadingZeros(s: string, leading: bool): string {
    if s == [] then []
    else if leading && s[0] == '0' && |s| > 1 && IsDigit(s[1]) then DropLeadingZeros(s[1..], true)
    else [s[0]] + DropLeadingZeros(s[1..], !IsDigit(s[0]) && s[0] != '.')
  }

  predicate IsMark(c: char) { 'a' <= c <= 'z' || IsDigit(c) || c == '%' }

  function KeepMarks(s: string): string {
    if s == [] then []
    else
      var rest := KeepMarks(s[1..]);
      if IsMark(s[0]) then [s[0]] + rest else rest
  }

  function NillToNil(s: string): string
    decreases |s|
  {
    if s == [] then []
    else if |s| >= 4 && s[..4] == "nill" then "nil" + NillToNil(s[4..])
    else [s[0]] + NillToNil(s[1..])
  }

  /** The letters, digits and percent signs of a remark, its numbers without leading zeros. */
  function Marks(value: string): string { KeepMarks(Lower(DropLeadingZeros(value, true))) }

  /** The reduction before a leading "prepaidnil" is dropped. */
  function Reduce(value: string): string { NillToNil(Marks(value)) }

  function NormaliseRemark(value: string): string {
    var reduced := Reduce(value);
    if StartsWith(reduced, "prepaidnil") then reduced[10..] else reduced
  }

  // ---- the match --------------------------------------------------------------------------------------

  function Other(way: Way): Way { if way == Coefficient then Physical else Coefficient }

  /** The figure a line would be transcribed as, one way or the other. */
  function FigureFor(line: BookLine, way: Way): Option<Dec> {
    if way == Coefficient then Some(Expected(line.stages)) else PhysicalFrom(line.stages, None)
  }

  predicate Fits(line: BookLine, found: Item, way: Way) {
    FigureFor(line, way).Some? && Render(found.quantity) == Render(FigureFor(line, way).value)
  }

  function Judge(line: BookLine, found: Item, recorded: Way): Verdict {
    if !Fits(line, found, recorded) && !Fits(line, found, Other(recorded)) then
      Mismatched(line.itemNumber, WrongQuantity)
    else if NormaliseRemark(found.remark) != NormaliseRemark(line.remark) then Mismatched(line.itemNumber, WrongRemark)
    else Matched(line.itemNumber, if Fits(line, found, recorded) then recorded else Other(recorded))
  }

  function Key(itemNumber: string): string { NormaliseItemNumber(itemNumber) }

  /** The railway's item with this number; a later one replaces an earlier one. */
  function LastWith(items: seq<Item>, key: string): Option<Item> {
    if items == [] then None
    else if Key(items[|items| - 1].itemNumber) == key then Some(items[|items| - 1])
    else LastWith(items[..|items| - 1], key)
  }

  function VerdictOn(line: BookLine, items: seq<Item>, recorded: Way): Verdict {
    var found := LastWith(items, Key(line.itemNumber));
    if found == None then Mismatched(line.itemNumber, MissingFromMeasurement) else Judge(line, found.value, recorded)
  }

  function BookVerdicts(book: seq<BookLine>, items: seq<Item>, recorded: Way): seq<Verdict> {
    if book == [] then []
    else BookVerdicts(book[..|book| - 1], items, recorded) + [VerdictOn(book[|book| - 1], items, recorded)]
  }

  function BookKeys(book: seq<BookLine>): set<string> { set l | l in book :: Key(l.itemNumber) }

  function ItemKeys(items: seq<Item>): set<string> { set i | i in items :: Key(i.itemNumber) }

  /** The railway's items the book does not measure. */
  function Unmeasured(book: set<string>, items: seq<Item>): seq<Verdict> {
    if items == [] then []
    else
      var before, item := Unmeasured(book, items[..|items| - 1]), items[|items| - 1];
      if Key(item.itemNumber) in book then before else before + [Mismatched(item.itemNumber, AbsentFromBook)]
  }

  function Verdicts(book: seq<BookLine>, items: seq<Item>, recorded: Way): seq<Verdict> {
    BookVerdicts(book, items, recorded) + Unmeasured(BookKeys(book), items)
  }

  predicate AllMatched(verdicts: seq<Verdict>) { forall v :: v in verdicts ==> v.Matched? }

  method JudgeLine(line: BookLine, found: Item, recorded: Way) returns (verdict: Verdict)
    ensures verdict == Judge(line, found, recorded)
  {
    hide Render, NormaliseRemark, Expected, PhysicalFrom;
    var expected := ExpectedQuantity(line);
    var physical := PhysicalQuantity(line);
    var fitsCoefficient := Render(found.quantity) == Render(expected);
    var fitsPhysical := physical.Some? && Render(found.quantity) == Render(physical.value);
    var fits := if recorded == Coefficient then fitsCoefficient else fitsPhysical;
    var fitsOther := if recorded == Coefficient then fitsPhysical else fitsCoefficient;
    if !fits && !fitsOther { return Mismatched(line.itemNumber, WrongQuantity); }
    if NormaliseRemark(found.remark) != NormaliseRemark(line.remark) {
      return Mismatched(line.itemNumber, WrongRemark);
    }
    verdict := Matched(line.itemNumber, if fits then recorded else Other(recorded));
  }

  /** The railway's items by number; a later one takes the place of an earlier one. */
  method IndexItems(items: seq<Item>) returns (byItem: map<string, Item>)
    ensures byItem.Keys == ItemKeys(items)
    ensures forall k :: LastWith(items, k) == if k in byItem then Some(byItem[k]) else None
  {
    hide Key;
    byItem := map[];
    for i := 0 to |items|
      invariant forall k :: LastWith(items[..i], k) == if k in byItem then Some(byItem[k]) else None
      invariant byItem.Keys == ItemKeys(items[..i])
    {
      assert items[..i + 1][..i] == items[..i];
      byItem := byItem[Key(items[i].itemNumber) := items[i]];
    }
    assert items[..|items|] == items;
  }

  method AppendUnmeasured(items: seq<Item>, measured: set<string>, verdicts: seq<Verdict>) returns (lines: seq<Verdict>)
    ensures lines == verdicts + Unmeasured(measured, items)
  {
    hide Key;
    lines := verdicts;
    for i := 0 to |items|
      invariant lines == verdicts + Unmeasured(measured, items[..i])
    {
      assert items[..i + 1][..i] == items[..i];
      if Key(items[i].itemNumber) !in measured {
        lines := lines + [Mismatched(items[i].itemNumber, AbsentFromBook)];
      }
    }
    assert items[..|items|] == items;
  }

  /** Item numbers that stand on no sheet make no difference to what is left over. */
  lemma {:induction false} UnmeasuredBySeen(seen: set<string>, book: set<string>, items: seq<Item>)
    requires seen == book * ItemKeys(items) || (seen <= book && book * ItemKeys(items) <= seen)
    ensures Unmeasured(seen, items) == Unmeasured(book, items)
    decreases |items|
  {
    hide Key;
    if items != [] {
      var init, last := items[..|items| - 1], items[|items| - 1];
      assert last in items && Key(last.itemNumber) in ItemKeys(items);
      assert ItemKeys(init) <= ItemKeys(items) by { assert forall i :: i in init ==> i in items; }
      UnmeasuredBySeen(seen, book, init);
    }
  }

  method MatchRailwayMeasurement(book: seq<BookLine>, items: seq<Item>, recorded: Way)
    returns (matched: bool, lines: seq<Verdict>)
    ensures lines == Verdicts(book, items, recorded) && matched == AllMatched(lines)
  {
    hide Key, Judge, Unmeasured, LastWith;
    var byItem := IndexItems(items);
    var seen: set<string> := {};
    lines := [];
    for i := 0 to |book|
      invariant lines == BookVerdicts(book[..i], items, recorded)
      invariant seen == BookKeys(book[..i]) * ItemKeys(items)
    {
      assert book[..i + 1][..i] == book[..i];
      var key := Key(book[i].itemNumber);
      var verdict := Mismatched(book[i].itemNumber, MissingFromMeasurement);
      if key in byItem {
        seen := seen + {key};
        verdict := JudgeLine(book[i], byItem[key], recorded);
      }
      lines := lines + [verdict];
    }
    assert book[..|book|] == book;
    UnmeasuredBySeen(seen, BookKeys(book), items);
    lines := AppendUnmeasured(items, seen, lines);
    matched := AllMatched(lines);
  }

  // ---- when the documents agree -------------------------------------------------------------------------

  /** The line's figure is one of its two transcriptions, and the remarks reduce to one claim. */
  ghost predicate Agrees(line: BookLine, found: Item) {
    && (|| Val(found.quantity) * 100.0 == WeightedSum(line.stages)
        || (PhysicalFrom(line.stages, None).Some? && Val(found.quantity) == Val(PhysicalFrom(line.stages, None).value)))
    && NormaliseRemark(found.remark) == NormaliseRemark(line.remark)
  }

  lemma JudgedMatched(line: BookLine, found: Item, recorded: Way)
    ensures Judge(line, found, recorded).Matched? <==> Agrees(line, found)
    ensures Judge(line, found, recorded).Matched? ==> Fits(line, found, Judge(line, found, recorded).way)
  {
    hide Render, NormaliseRemark, Expected, PhysicalFrom, Val, WeightedSum;
    ExpectedMeaning(line.stages);
    RenderInjective(found.quantity, Expected(line.stages));
    if PhysicalFrom(line.stages, None).Some? { RenderInjective(found.quantity, PhysicalFrom(line.stages, None).value); }
  }

  lemma {:induction false} LastWithMeaning(items: seq<Item>, key: string)
    ensures LastWith(items, key).Some? <==> key in ItemKeys(items)
    ensures LastWith(items, key).Some? ==>
      LastWith(items, key).value in items && Key(LastWith(items, key).value.itemNumber) == key
    decreases |items|
  {
    hide Key;
    if items != [] {
      var init := items[..|items| - 1];
      LastWithMeaning(init, key);
      assert items == init + [items[|items| - 1]];
    }
  }

  lemma NoVerdicts()
    ensures AllMatched([])
  {
  }

  lemma OneMoreVerdict(verdicts: seq<Verdict>, v: Verdict)
    ensures AllMatched(verdicts + [v]) <==> AllMatched(verdicts) && v.Matched?
  {
    assert forall x :: x in verdicts + [v] <==> x in verdicts || x == v;
  }

  lemma {:induction false} BookMatched(book: seq<BookLine>, items: seq<Item>, recorded: Way)
    ensures AllMatched(BookVerdicts(book, items, recorded)) <==>
      forall l :: l in book ==> VerdictOn(l, items, recorded).Matched?
    decreases |book|
  {
    hide VerdictOn;
    if book != [] {
      var init, last := book[..|book| - 1], book[|book| - 1];
      BookMatched(init, items, recorded);
      OneMoreVerdict(BookVerdicts(init, items, recorded), VerdictOn(last, items, recorded));
      assert forall l :: l in book <==> l in init || l == last;
    }
  }

  lemma {:induction false} NothingUnmeasured(book: set<string>, items: seq<Item>)
    ensures AllMatched(Unmeasured(book, items)) <==> ItemKeys(items) <= book
    decreases |items|
  {
    hide Key, AllMatched;
    if items == [] {
      assert AllMatched([]) by { NoVerdicts(); }
    } else {
      var init, item := items[..|items| - 1], items[|items| - 1];
      NothingUnmeasured(book, init);
      assert ItemKeys(items) == ItemKeys(init) + {Key(item.itemNumber)} by {
        assert forall i :: i in items <==> i in init || i == item;
      }
      OneMoreVerdict(Unmeasured(book, init), Mismatched(item.itemNumber, AbsentFromBook));
    }
  }

  /** The railway's entry for a line exists and agrees with it. */
  ghost predicate Answered(line: BookLine, items: seq<Item>) {
    LastWith(items, Key(line.itemNumber)).Some? && Agrees(line, LastWith(items, Key(line.itemNumber)).value)
  }

  /**
   * The documents match exactly when they carry the same items and every book line's entry agrees.  Which way the
   * book was filed has no part in that.
   */
  lemma MatchedExactlyWhen(book: seq<BookLine>, items: seq<Item>, recorded: Way)
    ensures AllMatched(Verdicts(book, items, recorded)) <==>
      BookKeys(book) == ItemKeys(items) && forall l :: l in book ==> Answered(l, items)
  {
    hide Key, Judge, Agrees, BookVerdicts, Unmeasured;
    BookMatched(book, items, recorded);
    NothingUnmeasured(BookKeys(book), items);
    forall l | l in book ensures VerdictOn(l, items, recorded).Matched? <==> Answered(l, items) {
      var found := LastWith(items, Key(l.itemNumber));
      if found.Some? { JudgedMatched(l, found.value, recorded); }
    }
    forall l | l in book ensures Answered(l, items) ==> Key(l.itemNumber) in ItemKeys(items) {
      LastWithMeaning(items, Key(l.itemNumber));
    }
    var a, b := BookVerdicts(book, items, recorded), Unmeasured(BookKeys(book), items);
    assert AllMatched(a + b) <==> AllMatched(a) && AllMatched(b) by {
      assert forall v :: v in a + b <==> v in a || v in b;
    }
  }

  // ---- each verdict, exactly -----------------------------------------------------------------------------

  ghost predicate CoefficientFits(line: BookLine, quantity: real) { quantity * 100.0 == WeightedSum(line.stages) }

  /** Every stage that carries quantity carries this one, and none carries any exactly when it is zero. */
  ghost predicate PhysicalFits(line: BookLine, quantity: real) {
    AllCarry(line.stages, quantity) && (NoneCarries(line.stages) <==> quantity == 0.0)
  }

  lemma FitsExactlyWhen(line: BookLine, found: Item)
    ensures Fits(line, found, Coefficient) <==> CoefficientFits(line, Val(found.quantity))
    ensures Fits(line, found, Physical) <==> PhysicalFits(line, Val(found.quantity))
  {
    hide Render, Val, Expected, PhysicalFrom, WeightedSum, Billed;
    ExpectedMeaning(line.stages);
    RenderInjective(found.quantity, Expected(line.stages));
    PhysicalMeaning(line.stages);
    var physical := PhysicalFrom(line.stages, None);
    if physical.Some? {
      NoneMeansZero(line.stages, Val(physical.value));
      RenderInjective(found.quantity, physical.value);
    }
  }

  /** Which of the two figures decides, and what each refusal means; the way recorded is named wherever it fits. */
  lemma JudgedExactlyWhen(line: BookLine, found: Item, recorded: Way)
    ensures var q, verdict := Val(found.quantity), Judge(line, found, recorded);
      var coefficient, physical := CoefficientFits(line, q), PhysicalFits(line, q);
      var worded := NormaliseRemark(found.remark) == NormaliseRemark(line.remark);
      && verdict.itemNumber == line.itemNumber
      && (verdict == Mismatched(line.itemNumber, WrongQuantity) <==> !coefficient && !physical)
      && (verdict == Mismatched(line.itemNumber, WrongRemark) <==> (coefficient || physical) && !worded)
      && (verdict == Matched(line.itemNumber, Coefficient) <==>
            worded && coefficient && (recorded == Coefficient || !physical))
      && (verdict == Matched(line.itemNumber, Physical) <==>
            worded && physical && (recorded == Physical || !coefficient))
  {
    hide NormaliseRemark, Fits, CoefficientFits, PhysicalFits, Val;
    FitsExactlyWhen(line, found);
  }

  /** The verdicts on the book's lines come first, one to a line and in their order. */
  lemma {:induction false} LineVerdicts(book: seq<BookLine>, items: seq<Item>, recorded: Way)
    ensures |BookVerdicts(book, items, recorded)| == |book|
    ensures forall i :: 0 <= i < |book| ==>
      BookVerdicts(book, items, recorded)[i] == VerdictOn(book[i], items, recorded)
    decreases |book|
  {
    hide VerdictOn;
    if book != [] { LineVerdicts(book[..|book| - 1], items, recorded); }
  }

  /** The entries of the sheet for items the book does not measure, in their order. */
  function Strangers(book: set<string>, items: seq<Item>): seq<Item> {
    if items == [] then []
    else
      var before, item := Strangers(book, items[..|items| - 1]), items[|items| - 1];
      if NormaliseItemNumber(item.itemNumber) in book then before else before + [item]
  }

  lemma {:induction false} StrangersAbsent(book: set<string>, items: seq<Item>)
    ensures |Unmeasured(book, items)| == |Strangers(book, items)|
    ensures forall i :: 0 <= i < |Strangers(book, items)| ==>
      Unmeasured(book, items)[i] == Mismatched(Strangers(book, items)[i].itemNumber, AbsentFromBook)
    decreases |items|
  {
    hide NormaliseItemNumber;
    if items != [] { StrangersAbsent(book, items[..|items| - 1]); }
  }

  /** The last entry of the sheet with the line's item number, if there is one. */
  ghost predicate LastEntry(items: seq<Item>, itemNumber: string, at: nat) {
    && at < |items| && NormaliseItemNumber(items[at].itemNumber) == NormaliseItemNumber(itemNumber)
    && forall k :: at < k < |items| ==> NormaliseItemNumber(items[k].itemNumber) != NormaliseItemNumber(itemNumber)
  }

  lemma {:induction false} NothingWith(items: seq<Item>, itemNumber: string)
    ensures LastWith(items, Key(itemNumber)) == None <==>
      forall k :: 0 <= k < |items| ==> NormaliseItemNumber(items[k].itemNumber) != NormaliseItemNumber(itemNumber)
    decreases |items|
  {
    hide NormaliseItemNumber;
    if items != [] { NothingWith(items[..|items| - 1], itemNumber); }
  }

  lemma {:induction false} LastEntryFound(items: seq<Item>, itemNumber: string, at: nat)
    requires LastEntry(items, itemNumber, at)
    ensures LastWith(items, Key(itemNumber)) == Some(items[at])
    decreases |items|
  {
    hide NormaliseItemNumber;
    if at < |items| - 1 { LastEntryFound(items[..|items| - 1], itemNumber, at); }
  }

  /**
   * The whole answer: each book line judged against the last entry for its item, or missing where there is none, and
   * then every entry for an item the book does not measure.
   */
  lemma VerdictsExactlyWhen(book: seq<BookLine>, items: seq<Item>, recorded: Way)
    ensures var verdicts, strangers := Verdicts(book, items, recorded), Strangers(BookKeys(book), items);
      && |verdicts| == |book| + |strangers|
      && (forall i, at: nat :: 0 <= i < |book| && LastEntry(items, book[i].itemNumber, at) ==>
            verdicts[i] == Judge(book[i], items[at], recorded))
      && (forall i :: 0 <= i < |book| ==>
            (verdicts[i] == Mismatched(book[i].itemNumber, MissingFromMeasurement) <==>
               forall k :: 0 <= k < |items| ==>
                 NormaliseItemNumber(items[k].itemNumber) != NormaliseItemNumber(book[i].itemNumber)))
      && (forall i :: 0 <= i < |strangers| ==>
            verdicts[|book| + i] == Mismatched(strangers[i].itemNumber, AbsentFromBook))
  {
    hide NormaliseItemNumber, Judge, BookVerdicts, Unmeasured, LastWith;
    LineVerdicts(book, items, recorded);
    StrangersAbsent(BookKeys(book), items);
    forall i | 0 <= i < |book|
      ensures forall at: nat :: LastEntry(items, book[i].itemNumber, at) ==>
        VerdictOn(book[i], items, recorded) == Judge(book[i], items[at], recorded)
      ensures VerdictOn(book[i], items, recorded) == Mismatched(book[i].itemNumber, MissingFromMeasurement) <==>
        forall k :: 0 <= k < |items| ==>
          NormaliseItemNumber(items[k].itemNumber) != NormaliseItemNumber(book[i].itemNumber)
    {
      NothingWith(items, book[i].itemNumber);
      forall at: nat | LastEntry(items, book[i].itemNumber, at)
        ensures LastWith(items, Key(book[i].itemNumber)) == Some(items[at])
      {
        LastEntryFound(items, book[i].itemNumber, at);
      }
      var found := LastWith(items, Key(book[i].itemNumber));
      if found.Some? { JudgeIsNotMissing(book[i], found.value, recorded); }
    }
  }

  lemma JudgeIsNotMissing(line: BookLine, found: Item, recorded: Way)
    ensures Judge(line, found, recorded) != Mismatched(line.itemNumber, MissingFromMeasurement)
  {
    hide NormaliseRemark, Fits;
  }

  /** No two entries of the sheet are for one item. */
  predicate DistinctKeys(items: seq<Item>) {
    forall i, j :: 0 <= i < j < |items| ==> Key(items[i].itemNumber) != Key(items[j].itemNumber)
  }

  lemma {:induction false} OnlyEntry(items: seq<Item>, entry: Item)
    requires DistinctKeys(items) && entry in items
    ensures LastWith(items, Key(entry.itemNumber)) == Some(entry)
    decreases |items|
  {
    hide Key;
    var n := |items| - 1;
    var i :| 0 <= i < |items| && items[i] == entry;
    if i < n {
      assert items[..n][i] == entry;
      OnlyEntry(items[..n], entry);
    }
  }

  /** Where no item is entered twice, a match means that every entry on the sheet agrees with every line of its item. */
  lemma DistinctMatchedExactlyWhen(book: seq<BookLine>, items: seq<Item>, recorded: Way)
    requires DistinctKeys(items)
    ensures AllMatched(Verdicts(book, items, recorded)) <==>
      && BookKeys(book) == ItemKeys(items)
      && forall l, i :: l in book && i in items && Key(l.itemNumber) == Key(i.itemNumber) ==> Agrees(l, i)
  {
    hide Key, Agrees, Verdicts, AllMatched, DistinctKeys;
    MatchedExactlyWhen(book, items, recorded);
    forall i | i in items ensures LastWith(items, Key(i.itemNumber)) == Some(i) { OnlyEntry(items, i); }
    forall l | l in book ensures Key(l.itemNumber) in ItemKeys(items) ==>
        LastWith(items, Key(l.itemNumber)).Some? && LastWith(items, Key(l.itemNumber)).value in items
        && Key(LastWith(items, Key(l.itemNumber)).value.itemNumber) == Key(l.itemNumber)
    {
      LastWithMeaning(items, Key(l.itemNumber));
    }
    assert forall l :: l in book ==> Key(l.itemNumber) in BookKeys(book);
  }

  /** An earlier entry for the item plays no part: the sheet is judged on the later one alone. */
  lemma EarlierEntryIgnored(line: BookLine, earlier: Item, later: Item, recorded: Way)
    requires Key(earlier.itemNumber) == Key(later.itemNumber) == Key(line.itemNumber)
    ensures AllMatched(Verdicts([line], [earlier, later], recorded)) <==> Agrees(line, later)
    ensures AllMatched(Verdicts([line], [earlier], recorded)) <==> Agrees(line, earlier)
  {
    hide Key, Agrees, Verdicts;
    var two, one := [earlier, later], [earlier];
    MatchedExactlyWhen([line], two, recorded);
    MatchedExactlyWhen([line], one, recorded);
    assert earlier in two && later in two && earlier in one && line in [line];
    assert BookKeys([line]) == {Key(line.itemNumber)} == ItemKeys(two) == ItemKeys(one);
    assert LastWith(two, Key(line.itemNumber)) == Some(later) && LastWith(one, Key(line.itemNumber)) == Some(earlier);
    assert Answered(line, two) <==> Agrees(line, later);
    assert Answered(line, one) <==> Agrees(line, earlier);
  }

  /** A book that bills 5 at 100%, against a sheet that enters the item at 9 and again at 5: matched. */
  lemma WrongEntryReplaced(itemNumber: string, remark: string, recorded: Way)
    ensures var line := BookLine(itemNumber, remark, [StageFigures(Dec(5, 0), ZERO, Dec(100, 0))]);
      var nine, five := Item(itemNumber, Dec(9, 0), remark), Item(itemNumber, Dec(5, 0), remark);
      && AllMatched(Verdicts([line], [nine, five], recorded)) && !AllMatched(Verdicts([line], [nine], recorded))
      && !Agrees(line, nine)
  {
    hide Key, Verdicts, AllMatched, NormaliseRemark, Render, PhysicalFrom, WeightedSum, Add;
    var stage := StageFigures(Dec(5, 0), ZERO, Dec(100, 0));
    var line := BookLine(itemNumber, remark, [stage]);
    FiveAtAHundred(stage);
    EarlierEntryIgnored(line, Item(itemNumber, Dec(9, 0), remark), Item(itemNumber, Dec(5, 0), remark), recorded);
  }

  lemma FiveAtAHundred(stage: StageFigures)
    requires stage == StageFigures(Dec(5, 0), ZERO, Dec(100, 0))
    ensures WeightedSum([stage]) == 500.0
    ensures PhysicalFrom([stage], None).Some? ==> Val(PhysicalFrom([stage], None).value) == 5.0
  {
    hide Render, Add;
    ValZero();
    assert [stage][..0] == [] && [stage][1..] == [];
    assert Billed(stage) == 5.0;
    CumulativeVal(stage);
    RendersZero(Cumulative(stage));
  }

  lemma RecordedWayOnlyNames(book: seq<BookLine>, items: seq<Item>)
    ensures AllMatched(Verdicts(book, items, Coefficient)) == AllMatched(Verdicts(book, items, Physical))
  {
    MatchedExactlyWhen(book, items, Coefficient);
    MatchedExactlyWhen(book, items, Physical);
  }
}
