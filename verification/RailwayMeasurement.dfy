/**
 * Reading the railway's measurement sheet (railway-measurement-parse.ts): wrapped remarks are welded back together,
 * then each item heading opens a block that its reason line, or the next heading, closes.
 */
module RailwayMeasurement {
  import opened Text
  import opened Decimal
  import opened RailwayLayout

  const REASON_LABEL := "Reason for Reduction :"

  // ---- line shapes -----------------------------------------------------------------------

  function TokenLength(s: string): (n: nat)
    ensures n <= |s|
  {
    if s == [] || IsSpace(s[0]) then 0 else 1 + TokenLength(s[1..])
  }

  /** "SCHEDULE A" on its own line. */
  function ScheduleOf(line: string): Option<string> {
    if !StartsWith(line, "SCHEDULE") then None
    else
      var rest := line[8..];
      var n := SpacesLength(rest);
      var token := TokenLength(rest[n..]);
      if n == 0 || token == 0 || n + token + SpacesLength(rest[n + token..]) != |rest| then None
      else Some(rest[n..n + token])
  }

  /** "Item No. : 01", whatever follows. */
  function ItemOf(line: string): Option<string> {
    if !StartsWith(line, "Item No. :") then None
    else
      var rest := line[10..];
      var n := SpacesLength(rest);
      var token := TokenLength(rest[n..]);
      if n == 0 || token == 0 then None else Some(rest[n..n + token])
  }

  datatype Heading = Schedule(name: string) | ItemNo(number: string) | Plain

  function HeadingOf(line: string): Heading {
    if ScheduleOf(line).Some? then Schedule(ScheduleOf(line).value)
    else if ItemOf(line).Some? then ItemNo(ItemOf(line).value)
    else Plain
  }

  predicate IsWordChar(c: char) { 'a' <= c <= 'z' || 'A' <= c <= 'Z' || IsDigit(c) || c == '_' }

  /** The lines at the left margin that start something of their own. */
  predicate StopsContinuation(line: string) {
    || (StartsWith(line, "SCHEDULE") && |line| > 8 && IsSpace(line[8]))
    || StartsWith(line, "Item No. :") || StartsWith(line, "Group :")
    || (StartsWith(line, "Total") && (|line| == 5 || !IsWordChar(line[5])))
    || StartsWith(line, REASON_LABEL)
  }

  // ---- welding ----------------------------------------------------------------------------

  /** The first run of two spaces; the length when there is none. */
  function WideGap(s: string): (n: nat)
    ensures n <= |s|
    ensures n < |s| ==> n + 1 < |s| && s[n] == ' ' && s[n + 1] == ' '
    ensures forall i :: 0 <= i < n && i + 1 < |s| ==> !(s[i] == ' ' && s[i + 1] == ' ')
  {
    if |s| < 2 then |s| else if s[0] == ' ' && s[1] == ' ' then 0 else 1 + WideGap(s[1..])
  }

  /** Where the remark's own cell ends on a reason line. */
  function RemarkEnd(reason: string): (at: nat)
    requires StartsWith(reason, REASON_LABEL)
    ensures |REASON_LABEL| <= at <= |reason|
  {
    |REASON_LABEL| + WideGap(reason[|REASON_LABEL|..])
  }

  function Splice(reason: string, line: string): string
    requires StartsWith(reason, REASON_LABEL)
  {
    var at := RemarkEnd(reason);
    reason[..at] + " " + Trim(line) + reason[at..]
  }

  predicate Continues(reason: string, line: string) {
    && StartsWith(reason, REASON_LABEL) && Trim(line) != "" && !StartsWith(line, " ") && !StartsWith(line, "\t")
    && !StopsContinuation(line)
  }

  function WeldOnto(welded: seq<string>, line: string): seq<string> {
    var n := |welded|;
    if n > 0 && Continues(welded[n - 1], line) then welded[n - 1 := Splice(welded[n - 1], line)] else welded + [line]
  }

  function Weld(lines: seq<string>): seq<string> {
    if lines == [] then [] else WeldOnto(Weld(lines[..|lines| - 1]), lines[|lines| - 1])
  }

  method WeldWrappedReasons(lines: seq<string>) returns (welded: seq<string>)
    ensures welded == Weld(lines)
  {
    hide Splice, Trim, StopsContinuation;
    welded := [];
    for i := 0 to |lines|
      invariant welded == Weld(lines[..i])
    {
      assert lines[..i + 1][..i] == lines[..i];
      var n := |welded|;
      if n > 0 && Continues(welded[n - 1], lines[i]) {
        welded := welded[n - 1 := Splice(welded[n - 1], lines[i])];
      } else {
        welded := welded + [lines[i]];
      }
    }
    assert lines[..|lines|] == lines;
  }

  // ---- blocks --------------------------------------------------------------------------------

  datatype Item = Item(itemNumber: string, quantity: string, remark: string)

  predicate IsQuantityCell(text: string) {
    var dot := IndexOf(text, '.');
    if dot == |text| then IsDigitRun(text) else IsDigitRun(text[..dot]) && IsDigitRun(text[dot + 1..])
  }

  function CollapseSpaces(s: string): string
    decreases |s|
  {
    if s == [] then []
    else
      var n := SpacesLength(s);
      if n > 0 then " " + CollapseSpaces(s[n..]) else [s[0]] + CollapseSpaces(s[1..])
  }

  /** A bare Total line restates the block's quantity; any other line leaves it. */
  function TotalOn(line: string, before: Option<string>): Option<string> {
    var cells := Cells(line);
    if |cells| == 2 && cells[0].text == "Total" && IsQuantityCell(cells[1].text) then Some(cells[1].text) else before
  }

  function RemarkOn(line: string): Option<string> {
    var cells := Cells(line);
    if cells != [] && StartsWith(cells[0].text, REASON_LABEL) then
      Some(Trim(CollapseSpaces(cells[0].text[|REASON_LABEL|..])))
    else None
  }

  datatype Block = Block(quantity: Option<string>, remark: Option<string>)

  /** A block runs through its reason line, or up to the next heading or the end. */
  function ReadBlock(lines: seq<string>, quantity: Option<string>): Block {
    if lines == [] || HeadingOf(lines[0]) != Plain then Block(quantity, None)
    else
      var q := TotalOn(lines[0], quantity);
      if RemarkOn(lines[0]).Some? then Block(q, RemarkOn(lines[0])) else ReadBlock(lines[1..], q)
  }

  function Closed(number: string, block: Block): Option<Item> {
    if block.quantity.Some? && block.remark.Some? then Some(Item(number, block.quantity.value, block.remark.value))
    else None
  }

  function Prepend(items: seq<Item>, rest: Option<seq<Item>>): Option<seq<Item>> {
    if rest == None then None else Some(items + rest.value)
  }

  /** The sheet, block by block; None when any block is incomplete or stands under no schedule. */
  function ParseFrom(lines: seq<string>, schedule: Option<string>): Option<seq<Item>> {
    if lines == [] then Some([])
    else
      match HeadingOf(lines[0])
      case Schedule(name) => ParseFrom(lines[1..], Some(name))
      case Plain => ParseFrom(lines[1..], schedule)
      case ItemNo(number) =>
        if schedule == None then None
        else
          var item := Closed(schedule.value + "/" + number, ReadBlock(lines[1..], None));
          if item == None then None else Prepend([item.value], ParseFrom(lines[1..], schedule))
  }

  function Parse(lines: seq<string>): Option<seq<Item>> {
    var items := ParseFrom(Weld(lines), None);
    if items == Some([]) then None else items
  }

  // ---- the reader ------------------------------------------------------------------------------

  datatype OpenItem = OpenItem(number: string, quantity: Option<string>)

  /** What the rest of the sheet makes of where the reader stands. */
  function Resume(
      items: seq<Item>, open: Option<OpenItem>, schedule: Option<string>, rest: seq<string>): Option<seq<Item>> {
    if open == None then Prepend(items, ParseFrom(rest, schedule))
    else
      var item := Closed(open.value.number, ReadBlock(rest, open.value.quantity));
      if item == None then None else Prepend(items + [item.value], ParseFrom(rest, schedule))
  }

  /** A line that closes the open block without a remark refuses the sheet. */
  lemma UnclosedRefuses(items: seq<Item>, open: OpenItem, schedule: Option<string>, rest: seq<string>)
    requires rest == [] || HeadingOf(rest[0]) != Plain
    ensures Resume(items, Some(open), schedule, rest) == None
  {
  }

  lemma PassesOver(items: seq<Item>, schedule: Option<string>, rest: seq<string>)
    requires rest != []
    ensures HeadingOf(rest[0]) == Plain ==>
      Resume(items, None, schedule, rest) == Resume(items, None, schedule, rest[1..])
    ensures HeadingOf(rest[0]).Schedule? ==>
      Resume(items, None, schedule, rest) == Resume(items, None, Some(HeadingOf(rest[0]).name), rest[1..])
    ensures HeadingOf(rest[0]).ItemNo? && schedule == None ==> Resume(items, None, schedule, rest) == None
    ensures HeadingOf(rest[0]).ItemNo? && schedule.Some? ==>
      var begun := OpenItem(schedule.value + "/" + HeadingOf(rest[0]).number, None);
      Resume(items, None, schedule, rest) == Resume(items, Some(begun), schedule, rest[1..])
  {
    hide HeadingOf, ReadBlock;
    var tail := ParseFrom(rest[1..], schedule);
    if tail.Some? { assert forall i: Item :: items + ([i] + tail.value) == items + [i] + tail.value; }
  }

  lemma ReadsOn(items: seq<Item>, open: OpenItem, schedule: Option<string>, rest: seq<string>)
    requires rest != [] && HeadingOf(rest[0]) == Plain
    ensures var q := TotalOn(rest[0], open.quantity);
      Resume(items, Some(open), schedule, rest) ==
        if RemarkOn(rest[0]) == None then Resume(items, Some(open.(quantity := q)), schedule, rest[1..])
        else if q == None then None
        else Resume(items + [Item(open.number, q.value, RemarkOn(rest[0]).value)], None, schedule, rest[1..])
  {
    hide HeadingOf, TotalOn, RemarkOn;
  }

  method ReadCells(line: string, before: Option<string>) returns (quantity: Option<string>, remark: Option<string>)
    ensures quantity == TotalOn(line, before) && remark == RemarkOn(line)
  {
    hide IsQuantityCell, CollapseSpaces;
    quantity, remark := before, None;
    var cells := CellsOf(line);
    if |cells| == 2 && cells[0].text == "Total" {
      if IsQuantityCell(cells[1].text) { quantity := Some(cells[1].text); }
    }
    if cells != [] && StartsWith(cells[0].text, REASON_LABEL) {
      remark := Some(Trim(CollapseSpaces(cells[0].text[|REASON_LABEL|..])));
    }
  }

  method ParseRailwayMeasurement(lines: seq<string>) returns (result: Option<seq<Item>>)
    ensures result == Parse(lines)
  {
    hide HeadingOf, Resume, ParseFrom, TotalOn, RemarkOn;
    var items: seq<Item>, schedule: Option<string>, open: Option<OpenItem> := [], None, None;
    var welded := WeldWrappedReasons(lines);
    assert welded[0..] == welded;
    StartsResumed(welded);
    for i := 0 to |welded|
      invariant Resume(items, open, schedule, welded[i..]) == ParseFrom(welded, None)
    {
      ghost var rest := welded[i..];
      assert rest[0] == welded[i] && rest[1..] == welded[i + 1..];
      match HeadingOf(welded[i])
      case Schedule(name) =>
        if open.Some? { UnclosedRefuses(items, open.value, schedule, rest); return None; }
        PassesOver(items, schedule, rest);
        schedule := Some(name);
      case ItemNo(number) =>
        if open.Some? { UnclosedRefuses(items, open.value, schedule, rest); return None; }
        PassesOver(items, schedule, rest);
        if schedule == None { return None; }
        open := Some(OpenItem(schedule.value + "/" + number, None));
      case Plain =>
        if open == None {
          PassesOver(items, schedule, rest);
        } else {
          ReadsOn(items, open.value, schedule, rest);
          var quantity, remark := ReadCells(welded[i], open.value.quantity);
          if remark == None {
            open := Some(open.value.(quantity := quantity));
          } else if quantity == None {
            return None;
          } else {
            items, open := items + [Item(open.value.number, quantity.value, remark.value)], None;
          }
        }
    }
    if open.Some? { UnclosedRefuses(items, open.value, schedule, welded[|welded|..]); return None; }
    EndsResumed(items, schedule);
    if items == [] { return None; }
    result := Some(items);
  }

  lemma StartsResumed(lines: seq<string>)
    ensures Resume([], None, None, lines) == ParseFrom(lines, None)
  {
    var parsed := ParseFrom(lines, None);
    if parsed.Some? { assert [] + parsed.value == parsed.value; }
  }

  lemma EndsResumed(items: seq<Item>, schedule: Option<string>)
    ensures Resume(items, None, schedule, []) == Some(items)
  {
    assert items + [] == items;
  }

  // ---- one item to a heading, in order, under its schedule ---------------------------------------

  /** The schedule in force after these lines. */
  function ScheduleAfter(lines: seq<string>, schedule: Option<string>): Option<string> {
    if lines == [] then schedule
    else if HeadingOf(lines[|lines| - 1]).Schedule? then Some(HeadingOf(lines[|lines| - 1]).name)
    else ScheduleAfter(lines[..|lines| - 1], schedule)
  }

  /** The numbers the item headings print, each under the latest schedule heading above it. */
  function HeadingNumbers(lines: seq<string>, schedule: Option<string>): seq<string> {
    if lines == [] then []
    else
      var init, last := lines[..|lines| - 1], lines[|lines| - 1];
      var before := HeadingNumbers(init, schedule);
      if HeadingOf(last).ItemNo? then before + [OrEmpty(ScheduleAfter(init, schedule)) + "/" + HeadingOf(last).number]
      else before
  }

  lemma {:induction false} ScheduleFirst(lines: seq<string>, schedule: Option<string>)
    requires lines != []
    ensures ScheduleAfter(lines, schedule) == ScheduleAfter(lines[1..], ScheduleAfter(lines[..1], schedule))
    decreases |lines|
  {
    hide HeadingOf;
    if |lines| == 1 {
      assert lines[..1] == lines && lines[1..] == [];
    } else {
      var n := |lines| - 1;
      ScheduleFirst(lines[..n], schedule);
      assert lines[1..][..n - 1] == lines[..n][1..] && lines[..n][..1] == lines[..1];
    }
  }

  lemma {:induction false} NumbersFirst(lines: seq<string>, schedule: Option<string>)
    requires lines != []
    ensures HeadingNumbers(lines, schedule)
         == HeadingNumbers(lines[..1], schedule) + HeadingNumbers(lines[1..], ScheduleAfter(lines[..1], schedule))
    decreases |lines|
  {
    hide HeadingOf, ScheduleAfter;
    if |lines| == 1 {
      assert lines[..1] == lines && lines[1..] == [];
    } else {
      var n := |lines| - 1;
      NumbersFirst(lines[..n], schedule);
      ScheduleFirst(lines[..n], schedule);
      assert lines[1..][..n - 1] == lines[..n][1..] && lines[..n][..1] == lines[..1];
    }
  }

  lemma OneLine(line: string, schedule: Option<string>)
    ensures ScheduleAfter([line], schedule) ==
      if HeadingOf(line).Schedule? then Some(HeadingOf(line).name) else schedule
    ensures HeadingNumbers([line], schedule)
         == if HeadingOf(line).ItemNo? then [OrEmpty(schedule) + "/" + HeadingOf(line).number] else []
  {
    hide HeadingOf;
    assert [line][..0] == [];
    assert ScheduleAfter([line][..0], schedule) == schedule && HeadingNumbers([line][..0], schedule) == [];
  }

  function NumbersOf(items: seq<Item>): (n: seq<string>)
    ensures |n| == |items|
  {
    seq(|items|, i requires 0 <= i < |items| => items[i].itemNumber)
  }

  lemma {:induction false} ParsedNumbers(lines: seq<string>, schedule: Option<string>)
    requires ParseFrom(lines, schedule).Some?
    ensures NumbersOf(ParseFrom(lines, schedule).value) == HeadingNumbers(lines, schedule)
    decreases |lines|
  {
    hide HeadingOf, ReadBlock, ScheduleAfter, HeadingNumbers;
    if lines == [] {
      NoHeadings(schedule);
    } else {
      assert lines[..1] == [lines[0]];
      OneLine(lines[0], schedule);
      NumbersFirst(lines, schedule);
      ParsedNumbers(lines[1..], ScheduleAfter(lines[..1], schedule));
    }
  }

  lemma NoHeadings(schedule: Option<string>)
    ensures HeadingNumbers([], schedule) == [] && ScheduleAfter([], schedule) == schedule
  {
  }

  /** Welding only touches reason lines, which are no headings before or after. */
  lemma SplicedIsPlain(reason: string, line: string)
    requires Continues(reason, line)
    ensures HeadingOf(line) == Plain && HeadingOf(reason) == Plain && HeadingOf(Splice(reason, line)) == Plain
  {
    NotAHeading(line);
    ReasonIsPlain(reason);
    var at, spliced := RemarkEnd(reason), Splice(reason, line);
    assert spliced[..|REASON_LABEL|] == reason[..|REASON_LABEL|] by {
      assert forall i :: 0 <= i < at ==> spliced[i] == reason[i];
    }
    ReasonIsPlain(spliced);
  }

  lemma NotAHeading(line: string)
    requires !StopsContinuation(line)
    ensures HeadingOf(line) == Plain
  {
    if StartsWith(line, "SCHEDULE") {
      if |line| > 8 { assert line[8..][0] == line[8]; }
      assert ScheduleOf(line) == None;
    }
  }

  lemma ReasonIsPlain(line: string)
    requires StartsWith(line, REASON_LABEL)
    ensures HeadingOf(line) == Plain
  {
    assert line[0] == 'R';
  }

  lemma {:induction false} WeldKeepsHeadings(lines: seq<string>, schedule: Option<string>)
    ensures HeadingNumbers(Weld(lines), schedule) == HeadingNumbers(lines, schedule)
    ensures ScheduleAfter(Weld(lines), schedule) == ScheduleAfter(lines, schedule)
    decreases |lines|
  {
    hide HeadingOf, Continues, Splice;
    if lines != [] {
      var init, last := lines[..|lines| - 1], lines[|lines| - 1];
      var welded := Weld(init);
      WeldKeepsHeadings(init, schedule);
      var n := |welded|;
      if n > 0 && Continues(welded[n - 1], last) {
        SplicedIsPlain(welded[n - 1], last);
        assert Weld(lines)[..n - 1] == welded[..n - 1];
      } else {
        assert Weld(lines)[..n] == welded;
      }
    }
  }

  /** A sheet that reads at all yields one item for each item heading printed, in order, under the latest schedule. */
  lemma OneItemPerHeading(lines: seq<string>)
    requires Parse(lines).Some?
    ensures NumbersOf(Parse(lines).value) == HeadingNumbers(lines, None)
  {
    ParsedNumbers(Weld(lines), None);
    WeldKeepsHeadings(lines, None);
  }

  // ---- where each item's figures stand ---------------------------------------------------------------

  /** Digits, or digits on both sides of a point. */
  ghost predicate IsFigure(s: string) {
    || (s != "" && OnlyDigits(s))
    || exists whole, fraction :: whole != "" && fraction != "" && OnlyDigits(whole) && OnlyDigits(fraction)
                              && s == whole + "." + fraction
  }

  predicate OnlyDigits(s: string) { forall i :: 0 <= i < |s| ==> '0' <= s[i] <= '9' }

  lemma DigitsHoldNoPoint(s: string)
    ensures AllDigits(s) <==> OnlyDigits(s)
    ensures OnlyDigits(s) ==> '.' !in s && IndexOf(s, '.') == |s|
  {
  }

  lemma FigureExactlyWhen(s: string)
    ensures IsQuantityCell(s) <==> IsFigure(s)
  {
    hide IndexOf, AllDigits, OnlyDigits;
    DigitsHoldNoPoint(s);
    var dot := IndexOf(s, '.');
    if dot < |s| {
      DigitsHoldNoPoint(s[..dot]);
      DigitsHoldNoPoint(s[dot + 1..]);
      assert s == s[..dot] + "." + s[dot + 1..];
    }
    forall whole, fraction | OnlyDigits(whole) && OnlyDigits(fraction) && s == whole + "." + fraction
      ensures dot == |whole| && s[..dot] == whole && s[dot + 1..] == fraction
    {
      DigitsHoldNoPoint(whole);
      IndexOfSplit(whole, '.', fraction);
    }
  }

  /** A line whose two cells are the word Total and a figure. */
  ghost predicate IsTotal(line: string) {
    var cells := Cells(line);
    |cells| == 2 && cells[0].text == "Total" && IsFigure(cells[1].text)
  }

  ghost function FigureOn(line: string): string
    requires IsTotal(line)
  {
    Cells(line)[1].text
  }

  /** A line whose first cell begins with the reason label. */
  predicate IsReason(line: string) {
    var cells := Cells(line);
    cells != [] && |cells[0].text| >= 22 && cells[0].text[..22] == "Reason for Reduction :"
  }

  /** What stands behind the label in the first cell, its runs of blanks made single and none at its ends. */
  function ReasonText(line: string): string
    requires IsReason(line)
  {
    Trim(CollapseSpaces(Cells(line)[0].text[22..]))
  }

  lemma LineWrittenOut(line: string, before: Option<string>)
    ensures TotalOn(line, before) == if IsTotal(line) then Some(FigureOn(line)) else before
    ensures RemarkOn(line) == if IsReason(line) then Some(ReasonText(line)) else None
  {
    hide Cells, IsFigure, IsQuantityCell, CollapseSpaces, Trim;
    var cells := Cells(line);
    if |cells| == 2 { FigureExactlyWhen(cells[1].text); }
    assert |REASON_LABEL| == 22;
  }

  /** From the first line on: the first reason line at r, no heading before it, and the last total before it at t. */
  ghost predicate BlockStands(lines: seq<string>, r: nat, t: nat) {
    && t < r < |lines| && IsReason(lines[r]) && IsTotal(lines[t])
    && (forall k :: 0 <= k <= r ==> HeadingOf(lines[k]) == Plain)
    && (forall k :: 0 <= k < r ==> !IsReason(lines[k]))
    && (forall k :: t < k <= r ==> !IsTotal(lines[k]))
  }

  /** The same with no total before the reason. */
  ghost predicate BlockWithout(lines: seq<string>, r: nat) {
    && r < |lines| && IsReason(lines[r]) && (forall k :: 0 <= k <= r ==> HeadingOf(lines[k]) == Plain)
    && (forall k :: 0 <= k < r ==> !IsReason(lines[k])) && (forall k :: 0 <= k <= r ==> !IsTotal(lines[k]))
  }

  lemma ReasonIsNoTotal(line: string)
    requires IsReason(line)
    ensures !IsTotal(line)
  {
    hide Cells;
    assert |"Total"| == 5;
  }

  lemma {:induction false} BlockRead(lines: seq<string>, before: Option<string>) returns (r: nat, t: nat)
    requires ReadBlock(lines, before).remark.Some?
    ensures r < |lines| && IsReason(lines[r]) && ReadBlock(lines, before).remark == Some(ReasonText(lines[r]))
    ensures || (BlockStands(lines, r, t) && ReadBlock(lines, before).quantity == Some(FigureOn(lines[t])))
            || (BlockWithout(lines, r) && ReadBlock(lines, before).quantity == before)
    decreases |lines|
  {
    hide Cells, HeadingOf, TotalOn, RemarkOn, IsTotal, IsReason, ReasonText, FigureOn;
    var line, rest := lines[0], lines[1..];
    LineWrittenOut(line, before);
    r, t := 0, 0;
    if IsReason(line) {
      ReasonIsNoTotal(line);
    } else {
      var r', t' := BlockRead(rest, TotalOn(line, before));
      r := r' + 1;
      assert lines[r] == rest[r'];
      assert forall k :: 0 < k < |lines| ==> lines[k] == rest[k - 1];
      if BlockStands(rest, r', t') && ReadBlock(rest, TotalOn(line, before)).quantity == Some(FigureOn(rest[t'])) {
        t := t' + 1;
        assert BlockStands(lines, r, t);
      } else if IsTotal(line) {
        assert BlockStands(lines, r, 0);
      } else {
        assert BlockWithout(lines, r);
      }
    }
  }

  /**
   * An item of the sheet, by line positions: its heading at h, the first reason line behind it at r with no heading
   * between them, and the last total before that at t.  Its figure is t's second cell, its remark r's first.
   */
  ghost predicate ItemStands(lines: seq<string>, h: nat, r: nat, t: nat, item: Item) {
    && h < t < r < |lines| && HeadingOf(lines[h]).ItemNo? && IsReason(lines[r]) && IsTotal(lines[t])
    && (forall k :: h < k <= r ==> HeadingOf(lines[k]) == Plain)
    && (forall k :: h < k < r ==> !IsReason(lines[k]))
    && (forall k :: t < k < r ==> !IsTotal(lines[k]))
    && item.quantity == FigureOn(lines[t]) && item.remark == ReasonText(lines[r])
  }

  /** How many item headings these lines hold. */
  function ItemHeadings(lines: seq<string>): nat {
    if lines == [] then 0
    else
      var before := ItemHeadings(lines[..|lines| - 1]);
      if HeadingOf(lines[|lines| - 1]).ItemNo? then before + 1 else before
  }

  lemma {:induction false} ItemHeadingsFirst(line: string, rest: seq<string>)
    ensures ItemHeadings([line] + rest) == (if HeadingOf(line).ItemNo? then 1 else 0) + ItemHeadings(rest)
    decreases |rest|
  {
    hide HeadingOf;
    var all := [line] + rest;
    if rest == [] {
      assert all[..0] == [] && ItemHeadings(all[..0]) == 0;
    } else {
      var n := |rest| - 1;
      assert all[..|all| - 1] == [line] + rest[..n];
      ItemHeadingsFirst(line, rest[..n]);
    }
  }

  /** The i-th item stands under the i-th item heading. */
  ghost predicate StandsUnder(lines: seq<string>, i: nat, item: Item) {
    exists h: nat, r: nat, t: nat :: ItemStands(lines, h, r, t, item) && ItemHeadings(lines[..h]) == i
  }

  lemma StandsUnderLater(line: string, rest: seq<string>, i: nat, item: Item)
    requires StandsUnder(rest, i, item)
    ensures StandsUnder([line] + rest, i + if HeadingOf(line).ItemNo? then 1 else 0, item)
  {
    hide HeadingOf, IsReason, IsTotal, Cells, ReasonText, FigureOn, ItemHeadings;
    var h: nat, r: nat, t: nat :| ItemStands(rest, h, r, t, item) && ItemHeadings(rest[..h]) == i;
    var all := [line] + rest;
    assert forall k :: 0 < k < |all| ==> all[k] == rest[k - 1];
    ItemHeadingsFirst(line, rest[..h]);
    assert all[..h + 1] == [line] + rest[..h];
    assert ItemStands(all, h + 1, r + 1, t + 1, item);
  }

  lemma FirstItemStands(lines: seq<string>, number: string)
    requires lines != [] && HeadingOf(lines[0]).ItemNo? && Closed(number, ReadBlock(lines[1..], None)).Some?
    ensures StandsUnder(lines, 0, Closed(number, ReadBlock(lines[1..], None)).value)
  {
    hide HeadingOf, IsReason, IsTotal, Cells, ReasonText, FigureOn, ReadBlock;
    var rest := lines[1..];
    var r, t := BlockRead(rest, None);
    assert forall k :: 0 < k < |lines| ==> lines[k] == rest[k - 1];
    assert lines[..0] == [] && ItemHeadings(lines[..0]) == 0;
    assert ItemStands(lines, 0, r + 1, t + 1, Closed(number, ReadBlock(rest, None)).value);
  }

  lemma {:induction false} ItemsStand(lines: seq<string>, schedule: Option<string>)
    requires ParseFrom(lines, schedule).Some?
    ensures var items := ParseFrom(lines, schedule).value;
      forall i: nat :: i < |items| ==> StandsUnder(lines, i, items[i])
    decreases |lines|
  {
    hide HeadingOf, ReadBlock, StandsUnder, Closed;
    if lines != [] {
      var line, rest, items := lines[0], lines[1..], ParseFrom(lines, schedule).value;
      assert lines == [line] + rest;
      var next := if HeadingOf(line).Schedule? then Some(HeadingOf(line).name) else schedule;
      var later := ParseFrom(rest, next).value;
      ItemsStand(rest, next);
      if HeadingOf(line).ItemNo? {
        var number := schedule.value + "/" + HeadingOf(line).number;
        FirstItemStands(lines, number);
        assert items == [Closed(number, ReadBlock(rest, None)).value] + later;
      }
      forall i: nat | i < |later| ensures StandsUnder(lines, i + if HeadingOf(line).ItemNo? then 1 else 0, later[i]) {
        StandsUnderLater(line, rest, i, later[i]);
      }
      forall i: nat | i < |items| ensures StandsUnder(lines, i, items[i]) {
        if HeadingOf(line).ItemNo? && i > 0 {
          assert items[i] == later[i - 1] && StandsUnder(lines, i - 1 + 1, later[i - 1]);
        }
      }
    }
  }

  /** On a sheet that reads, every item's figure and remark stand where the printed sheet puts them. */
  lemma EveryItemStands(lines: seq<string>)
    requires Parse(lines).Some?
    ensures var items := Parse(lines).value;
      forall i: nat :: i < |items| ==> StandsUnder(Weld(lines), i, items[i])
  {
    hide StandsUnder, ParseFrom;
    ItemsStand(Weld(lines), None);
  }

  // ---- which sheets read -----------------------------------------------------------------------------

  ghost predicate BeginsBlock(lines: seq<string>) { exists r: nat, t: nat :: BlockStands(lines, r, t) }

  /** The heading at h stands under some schedule, and its block closes with a reason behind a total. */
  ghost predicate BlockComplete(lines: seq<string>, schedule: Option<string>, h: nat) {
    && h < |lines|
    && (schedule != None || exists k :: 0 <= k < h && HeadingOf(lines[k]).Schedule?)
    && BeginsBlock(lines[h + 1..])
  }

  lemma {:induction false} BlockCloses(lines: seq<string>, before: Option<string>, r: nat, t: nat)
    requires BlockStands(lines, r, t)
    ensures ReadBlock(lines, before).remark.Some? && ReadBlock(lines, before).quantity.Some?
    decreases r
  {
    hide Cells, HeadingOf, TotalOn, RemarkOn, IsTotal, IsReason, ReasonText, FigureOn;
    LineWrittenOut(lines[0], before);
    var rest := lines[1..];
    assert forall k :: 0 < k < |lines| ==> lines[k] == rest[k - 1];
    if t > 0 {
      assert BlockStands(rest, r - 1, t - 1);
      BlockCloses(rest, TotalOn(lines[0], before), r - 1, t - 1);
    } else {
      TotalKept(rest, TotalOn(lines[0], before), r - 1);
      assert !IsReason(lines[0]);
    }
  }

  lemma {:induction false} TotalKept(lines: seq<string>, before: Option<string>, r: nat)
    requires before.Some? && BlockWithout(lines, r)
    ensures ReadBlock(lines, before).remark.Some? && ReadBlock(lines, before).quantity.Some?
    decreases r
  {
    hide Cells, HeadingOf, TotalOn, RemarkOn, IsTotal, IsReason, ReasonText, FigureOn;
    LineWrittenOut(lines[0], before);
    var rest := lines[1..];
    assert forall k :: 0 < k < |lines| ==> lines[k] == rest[k - 1];
    if r > 0 { TotalKept(rest, before, r - 1); }
  }

  lemma ClosedExactlyWhen(number: string, lines: seq<string>)
    ensures Closed(number, ReadBlock(lines, None)).Some? <==> BeginsBlock(lines)
  {
    hide BlockStands, BlockWithout, ReadBlock, IsReason, ReasonText;
    if Closed(number, ReadBlock(lines, None)).Some? {
      var r, t := BlockRead(lines, None);
    }
    if BeginsBlock(lines) {
      var r: nat, t: nat :| BlockStands(lines, r, t);
      BlockCloses(lines, None, r, t);
    }
  }

  lemma CompleteLater(line: string, rest: seq<string>, schedule: Option<string>, h: nat)
    ensures var next := if HeadingOf(line).Schedule? then Some(HeadingOf(line).name) else schedule;
      BlockComplete([line] + rest, schedule, h + 1) <==> BlockComplete(rest, next, h)
  {
    hide HeadingOf, BeginsBlock;
    var all := [line] + rest;
    assert all[0] == line && forall k :: 0 < k < |all| ==> all[k] == rest[k - 1];
    if h < |rest| { assert all[h + 2..] == rest[h + 1..]; }
    forall k | 0 <= k < h && h < |rest| && HeadingOf(rest[k]).Schedule? ensures HeadingOf(all[k + 1]).Schedule? {
    }
  }

  /** The lines read exactly when every item heading among them begins a complete block. */
  lemma {:induction false} LinesReadExactlyWhen(lines: seq<string>, schedule: Option<string>)
    ensures ParseFrom(lines, schedule).Some? <==>
      forall h: nat :: h < |lines| && HeadingOf(lines[h]).ItemNo? ==> BlockComplete(lines, schedule, h)
    decreases |lines|
  {
    hide HeadingOf, BlockStands, ReadBlock, Closed, BlockComplete;
    if lines != [] {
      var line, rest := lines[0], lines[1..];
      var next := if HeadingOf(line).Schedule? then Some(HeadingOf(line).name) else schedule;
      assert lines == [line] + rest;
      LinesReadExactlyWhen(rest, next);
      if HeadingOf(line).ItemNo? { FirstComplete(lines, schedule); }
      forall h: nat | h < |rest|
        ensures BlockComplete(lines, schedule, h + 1) <==> BlockComplete(rest, next, h)
        ensures lines[h + 1] == rest[h]
      {
        CompleteLater(line, rest, schedule, h);
      }
      assert forall h: nat :: 0 < h < |lines| ==>
        lines[h] == rest[h - 1] && (BlockComplete(lines, schedule, h - 1 + 1) <==> BlockComplete(rest, next, h - 1));
    }
  }

  lemma FirstComplete(lines: seq<string>, schedule: Option<string>)
    requires lines != [] && HeadingOf(lines[0]).ItemNo?
    ensures BlockComplete(lines, schedule, 0) <==>
      && schedule != None
      && Closed(OrEmpty(schedule) + "/" + HeadingOf(lines[0]).number, ReadBlock(lines[1..], None)).Some?
  {
    hide HeadingOf, BeginsBlock, ReadBlock, Closed;
    ClosedExactlyWhen(OrEmpty(schedule) + "/" + HeadingOf(lines[0]).number, lines[1..]);
  }

  lemma {:induction false} ItemsCounted(lines: seq<string>, schedule: Option<string>)
    requires ParseFrom(lines, schedule).Some?
    ensures |ParseFrom(lines, schedule).value| == ItemHeadings(lines)
    decreases |lines|
  {
    hide HeadingOf, ReadBlock, Closed, ItemHeadings;
    if lines == [] {
      NoItemHeadings();
    } else {
      assert lines == [lines[0]] + lines[1..];
      ItemHeadingsFirst(lines[0], lines[1..]);
      ItemsCounted(lines[1..], if HeadingOf(lines[0]).Schedule? then Some(HeadingOf(lines[0]).name) else schedule);
    }
  }

  lemma NoItemHeadings()
    ensures ItemHeadings([]) == 0
  {
  }

  /** A sheet reads exactly when it has an item heading and each one begins a complete block under some schedule. */
  lemma SheetReadsExactlyWhen(lines: seq<string>)
    ensures Parse(lines).Some? <==>
      && ItemHeadings(Weld(lines)) > 0
      && forall h: nat :: h < |Weld(lines)| && HeadingOf(Weld(lines)[h]).ItemNo? ==> BlockComplete(Weld(lines), None, h)
  {
    hide HeadingOf, BlockComplete, ParseFrom, ItemHeadings, Weld;
    LinesReadExactlyWhen(Weld(lines), None);
    if ParseFrom(Weld(lines), None).Some? { ItemsCounted(Weld(lines), None); }
  }

  // ---- the lines of a sheet, written out --------------------------------------------------------------

  predicate NoBlanks(s: string) { forall i :: 0 <= i < |s| ==> !IsSpace(s[i]) }

  lemma {:induction false} TokenRun(token: string, rest: string)
    requires NoBlanks(token) && (rest == "" || IsSpace(rest[0]))
    ensures TokenLength(token + rest) == |token|
    decreases |token|
  {
    if token == "" {
      assert token + rest == rest;
    } else {
      assert (token + rest)[1..] == token[1..] + rest;
      TokenRun(token[1..], rest);
    }
  }

  lemma {:induction false} BlankRun(gap: string, rest: string)
    requires AllSpaces(gap) && (rest == "" || !IsSpace(rest[0]))
    ensures SpacesLength(gap + rest) == |gap|
    decreases |gap|
  {
    if gap == "" {
      assert gap + rest == rest;
    } else {
      assert (gap + rest)[1..] == gap[1..] + rest;
      BlankRun(gap[1..], rest);
    }
  }

  lemma {:induction false} TokenTaken(s: string)
    ensures NoBlanks(s[..TokenLength(s)]) && (TokenLength(s) < |s| ==> IsSpace(s[TokenLength(s)]))
    decreases |s|
  {
    if s != "" && !IsSpace(s[0]) {
      TokenTaken(s[1..]);
      assert s[..TokenLength(s)] == [s[0]] + s[1..][..TokenLength(s[1..])];
    }
  }

  /** A schedule line is the word, blanks and the schedule's name, with nothing but blanks behind it. */
  ghost predicate IsScheduleLine(line: string, name: string) {
    exists gap, trail :: AllSpaces(gap) && gap != "" && NoBlanks(name) && name != "" && AllSpaces(trail)
                      && line == "SCHEDULE" + (gap + (name + trail))
  }

  lemma Labelled(prefix: string, line: string)
    requires StartsWith(line, prefix)
    ensures line == prefix + line[|prefix|..]
  {
  }

  /** What stands behind a label: blanks, a token and the rest. */
  lemma TokenBehind(gap: string, token: string, rest: string)
    requires AllSpaces(gap) && NoBlanks(token) && token != "" && (rest == "" || IsSpace(rest[0]))
    ensures var s := gap + (token + rest);
      && SpacesLength(s) == |gap| && s[|gap|..] == token + rest && TokenLength(token + rest) == |token|
      && s[|gap|..|gap| + |token|] == token && s[|gap| + |token|..] == rest
  {
    hide SpacesLength, TokenLength;
    BlankRun(gap, token + rest);
    TokenRun(token, rest);
  }

  lemma BehindLabel(s: string) returns (gap: string, token: string, rest: string)
    ensures AllSpaces(gap) && NoBlanks(token) && (rest == "" || IsSpace(rest[0])) && s == gap + (token + rest)
    ensures |gap| == SpacesLength(s) && |token| == TokenLength(s[|gap|..])
    ensures token == s[|gap|..|gap| + |token|] && rest == s[|gap| + |token|..]
  {
    hide SpacesLength, TokenLength;
    var n := SpacesLength(s);
    TokenTaken(s[n..]);
    gap, token, rest := s[..n], s[n..][..TokenLength(s[n..])], s[n..][TokenLength(s[n..])..];
  }

  lemma ScheduleReads(name: string, gap: string, trail: string)
    requires AllSpaces(gap) && gap != "" && NoBlanks(name) && name != "" && AllSpaces(trail)
    ensures ScheduleOf("SCHEDULE" + (gap + (name + trail))) == Some(name)
  {
    hide TokenLength, SpacesLength, NoBlanks, AllSpaces;
    var line := "SCHEDULE" + (gap + (name + trail));
    assert line[8..] == gap + (name + trail) && line[..8] == "SCHEDULE";
    TrailingBlanks(trail);
    TokenBehind(gap, name, trail);
  }

  lemma SchedulePieces(line: string) returns (gap: string, name: string, trail: string)
    requires ScheduleOf(line).Some?
    ensures StartsWith(line, "SCHEDULE") && ScheduleOf(line) == Some(name) && line[8..] == gap + (name + trail)
    ensures AllSpaces(gap) && gap != "" && NoBlanks(name) && name != "" && AllSpaces(trail)
  {
    hide TokenLength, SpacesLength, NoBlanks, AllSpaces;
    gap, name, trail := BehindLabel(line[8..]);
    TrailingBlanks(trail);
  }

  lemma ScheduleParts(line: string)
    requires ScheduleOf(line).Some?
    ensures IsScheduleLine(line, ScheduleOf(line).value)
  {
    hide ScheduleOf, NoBlanks, AllSpaces;
    var gap, name, trail := SchedulePieces(line);
    Labelled("SCHEDULE", line);
  }

  lemma ScheduleExactlyWhen(line: string, name: string)
    ensures ScheduleOf(line) == Some(name) <==> IsScheduleLine(line, name)
  {
    hide ScheduleOf, NoBlanks, AllSpaces;
    if ScheduleOf(line).Some? { ScheduleParts(line); }
    forall gap, trail | AllSpaces(gap) && gap != "" && NoBlanks(name) && name != "" && AllSpaces(trail)
                     && line == "SCHEDULE" + (gap + (name + trail))
      ensures ScheduleOf(line) == Some(name)
    {
      ScheduleReads(name, gap, trail);
    }
  }

  lemma TrailingBlanks(s: string)
    ensures AllSpaces(s) <==> SpacesLength(s) == |s|
    ensures AllSpaces(s) ==> s == "" || IsSpace(s[0])
  {
    hide SpacesLength;
  }

  /** An item line is the label, blanks and the item's number, whatever follows behind another blank. */
  ghost predicate IsItemLine(line: string, number: string) {
    exists gap, rest :: AllSpaces(gap) && gap != "" && NoBlanks(number) && number != ""
                     && (rest == "" || IsSpace(rest[0])) && line == "Item No. :" + (gap + (number + rest))
  }

  lemma ItemReads(number: string, gap: string, rest: string)
    requires AllSpaces(gap) && gap != "" && NoBlanks(number) && number != "" && (rest == "" || IsSpace(rest[0]))
    ensures ItemOf("Item No. :" + (gap + (number + rest))) == Some(number)
  {
    hide TokenLength, SpacesLength, NoBlanks, AllSpaces;
    var line := "Item No. :" + (gap + (number + rest));
    assert line[10..] == gap + (number + rest) && line[..10] == "Item No. :";
    TokenBehind(gap, number, rest);
  }

  lemma ItemPieces(line: string) returns (gap: string, number: string, rest: string)
    requires ItemOf(line).Some?
    ensures StartsWith(line, "Item No. :") && ItemOf(line) == Some(number) && line[10..] == gap + (number + rest)
    ensures AllSpaces(gap) && gap != "" && NoBlanks(number) && number != "" && (rest == "" || IsSpace(rest[0]))
  {
    hide TokenLength, SpacesLength, NoBlanks, AllSpaces;
    gap, number, rest := BehindLabel(line[10..]);
  }

  lemma ItemParts(line: string)
    requires ItemOf(line).Some?
    ensures IsItemLine(line, ItemOf(line).value)
  {
    hide ItemOf, NoBlanks, AllSpaces;
    var gap, number, rest := ItemPieces(line);
    Labelled("Item No. :", line);
  }

  lemma ItemExactlyWhen(line: string, number: string)
    ensures ItemOf(line) == Some(number) <==> IsItemLine(line, number)
  {
    hide ItemOf, NoBlanks, AllSpaces;
    if ItemOf(line).Some? { ItemParts(line); }
    forall gap, rest | AllSpaces(gap) && gap != "" && NoBlanks(number) && number != ""
                    && (rest == "" || IsSpace(rest[0])) && line == "Item No. :" + (gap + (number + rest))
      ensures ItemOf(line) == Some(number)
    {
      ItemReads(number, gap, rest);
    }
  }

  /** A line of the label and one more character, whatever follows. */
  ghost predicate LabelThen(line: string, prefix: string, c: char) {
    exists rest :: line == prefix + ([c] + rest)
  }

  lemma LabelExactlyWhen(line: string, prefix: string)
    ensures StartsWith(line, prefix) <==> exists rest :: line == prefix + rest
  {
    if StartsWith(line, prefix) { Labelled(prefix, line); }
  }

  lemma LabelThenExactlyWhen(line: string, prefix: string, c: char)
    ensures LabelThen(line, prefix, c) <==> StartsWith(line, prefix) && |line| > |prefix| && line[|prefix|] == c
  {
    if StartsWith(line, prefix) && |line| > |prefix| && line[|prefix|] == c {
      assert line == prefix + ([c] + line[|prefix| + 1..]);
    }
  }

  /** The lines that start something of their own, and nothing else. */
  lemma StopsExactlyWhen(line: string)
    ensures StopsContinuation(line) <==>
      || (exists c :: IsSpace(c) && LabelThen(line, "SCHEDULE", c))
      || (exists rest :: line == "Item No. :" + rest)
      || (exists rest :: line == "Group :" + rest)
      || line == "Total"
      || (exists c :: !('a' <= c <= 'z' || 'A' <= c <= 'Z' || '0' <= c <= '9' || c == '_')
                   && LabelThen(line, "Total", c))
      || (exists rest :: line == "Reason for Reduction :" + rest)
  {
    hide LabelThen, StartsWith;
    LabelExactlyWhen(line, "Item No. :");
    LabelExactlyWhen(line, "Group :");
    LabelExactlyWhen(line, "Reason for Reduction :");
    TotalExactly(line);
    forall c ensures LabelThen(line, "SCHEDULE", c) <==> StartsWith(line, "SCHEDULE") && |line| > 8 && line[8] == c {
      LabelThenExactlyWhen(line, "SCHEDULE", c);
    }
    forall c ensures LabelThen(line, "Total", c) <==> StartsWith(line, "Total") && |line| > 5 && line[5] == c {
      LabelThenExactlyWhen(line, "Total", c);
    }
    if |line| > 8 { assert LabelThen(line, "SCHEDULE", line[8]) <==> StartsWith(line, "SCHEDULE"); }
    if |line| > 5 { assert LabelThen(line, "Total", line[5]) <==> StartsWith(line, "Total"); }
  }

  lemma TotalExactly(line: string)
    ensures line == "Total" <==> StartsWith(line, "Total") && |line| == 5
    ensures StartsWith(line, "Total") ==> |line| >= 5
  {
  }

  /** A line is welded onto a reason line exactly when it has ink at the margin and starts nothing of its own. */
  lemma ContinuesExactlyWhen(reason: string, line: string)
    ensures Continues(reason, line) <==>
      && |reason| >= 22 && reason[..22] == "Reason for Reduction :"
      && !AllSpaces(line) && line[0] != ' ' && line[0] != '\t' && !StopsContinuation(line)
  {
    hide StopsContinuation, Trim;
    assert |REASON_LABEL| == 22;
    TrimStrips(line);
    BlankTrims(line);
    if line != "" { assert line[..1] == [line[0]]; }
    assert StartsWith(reason, REASON_LABEL) <==> |reason| >= 22 && reason[..22] == "Reason for Reduction :";
  }

  lemma BlankTrims(line: string)
    ensures Trim(line) == "" <==> AllSpaces(line)
  {
    TrimStrips(line);
    if Trim(line) == "" { StrippedToNothing(line); }
    if AllSpaces(line) { SpacesTrimAway(line); }
  }

  /** Collapsing leaves a word as it stands, and makes the blanks before one a single blank. */
  lemma {:induction false} CollapseWord(word: string, rest: string)
    requires NoBlanks(word)
    ensures CollapseSpaces(word + rest) == word + CollapseSpaces(rest)
    decreases |word|
  {
    if word == "" {
      assert word + rest == rest;
    } else {
      var s := word + rest;
      assert s[1..] == word[1..] + rest && s[0] == word[0];
      CollapseWord(word[1..], rest);
      assert SpacesLength(s) == 0;
    }
  }

  lemma CollapseGap(gap: string, rest: string)
    requires AllSpaces(gap) && gap != "" && (rest == "" || !IsSpace(rest[0]))
    ensures CollapseSpaces(gap + rest) == " " + CollapseSpaces(rest)
  {
    hide SpacesLength;
    BlankRun(gap, rest);
    assert (gap + rest)[|gap|..] == rest;
  }

  // ---- where a welded remark ends up ------------------------------------------------------------------

  lemma FirstCell(line: string, end: nat)
    requires line != [] && !IsGap(line[0]) && end <= |line| && EndsCell(line, end)
    requires forall k :: 0 <= k < end ==> !EndsCell(line, k)
    ensures Cells(line) != [] && Cells(line)[0] == Cell(0, line[..end])
  {
    assert CellEnd(line, 0) == end && FirstInk(line, 0) == 0 && line[0..end] == line[..end];
  }

  lemma TightStart(t: string, rest: string)
    requires Tight(t) && (rest == [] || (IsGap(rest[0]) && (|rest| >= 2 ==> IsGap(rest[1]))))
    ensures Cells(t + rest) != [] && Cells(t + rest)[0] == Cell(0, t)
  {
    hide Cells;
    var line := t + rest;
    assert line[0] == t[0] && line[..|t|] == t;
    assert EndsCell(line, |t|);
    forall k | 0 <= k < |t| ensures !EndsCell(line, k) {
      assert line[k] == t[k] && (k + 1 < |t| ==> line[k + 1] == t[k + 1]);
    }
    FirstCell(line, |t|);
  }

  lemma TightJoin(a: string, b: string)
    requires Tight(a) && Tight(b)
    ensures Tight(a + " " + b)
  {
    var t := a + " " + b;
    assert t[|t| - 1] == b[|b| - 1];
    forall i | 0 <= i < |t| - 1 ensures !(IsGap(t[i]) && IsGap(t[i + 1])) {
      if i < |a| {
        assert t[i] == a[i] && (i + 1 < |a| ==> t[i + 1] == a[i + 1]);
      } else {
        assert i > |a| ==> t[i] == b[i - |a| - 1];
        assert t[i + 1] == b[i - |a|];
      }
    }
  }

  /** Text that starts in ink is one cell exactly when it is tight. */
  lemma TightExactlyWhen(t: string)
    requires t != [] && !IsGap(t[0])
    ensures Tight(t) <==> CellEnd(t, 0) == |t|
    ensures 0 < CellEnd(t, 0) && Tight(t[..CellEnd(t, 0)])
    ensures Cells(t) != [] && Cells(t)[0] == Cell(0, t[..CellEnd(t, 0)])
  {
    hide CellEnd;
    CellIsTight(t, 0);
    var end := CellEnd(t, 0);
    assert t[0..end] == t[..end] && t[..|t|] == t;
    assert FirstInk(t, 0) == 0;
    assert end < |t| ==> IsGap(t[end]);
  }

  /** Where a cell ends inside t, it ends there whatever else follows a gap behind t. */
  lemma EarlyEnd(t: string, x: string)
    requires t != [] && !IsGap(t[0]) && CellEnd(t, 0) < |t| && (x == [] || IsGap(x[0]))
    ensures Cells(t + x) != [] && Cells(t + x)[0] == Cell(0, t[..CellEnd(t, 0)])
  {
    hide CellEnd, Cells;
    var line, end := t + x, CellEnd(t, 0);
    assert line[0] == t[0] && line[..end] == t[..end];
    assert EndsCell(line, end) by { assert end + 1 == |t| && x != [] ==> line[end + 1] == x[0]; }
    forall k | 0 <= k < end ensures !EndsCell(line, k) {
      assert !EndsCell(t, k);
    }
    FirstCell(line, end);
  }

  /** Behind a tight remark the weld adds to its cell the first cell of the continuation. */
  lemma TightWeld(t: string, c: string, rest: string)
    requires Tight(t) && c != [] && !IsGap(c[0]) && !IsGap(c[|c| - 1])
    requires rest == [] || (|rest| >= 2 && IsGap(rest[0]) && IsGap(rest[1]))
    ensures Cells(c) != [] && Tight(Cells(c)[0].text) && (Tight(c) <==> Cells(c)[0].text == c)
    ensures Cells(t + " " + c + rest) != [] && Cells(t + " " + c + rest)[0].text == t + " " + Cells(c)[0].text
  {
    hide Cells, CellEnd, Tight;
    var end := CellEnd(c, 0);
    var after := c[end..] + rest;
    TightExactlyWhen(c);
    assert EndsCell(c, end) && c == c[..end] + c[end..];
    assert end < |c| ==> IsGap(c[end]) && end + 1 < |c| && IsGap(c[end + 1]);
    assert end == |c| ==> after == rest && c[..end] == c;
    TightJoin(t, c[..end]);
    TightStart(t + " " + c[..end], after);
    assert t + " " + c + rest == (t + " " + c[..end]) + after;
  }

  lemma TrimmedEnds(line: string)
    requires Trim(line) != ""
    ensures !IsGap(Trim(line)[0]) && !IsGap(Trim(line)[|Trim(line)| - 1])
  {
    TrimStartEnds(line);
    TrimEndEnds(TrimStart(line));
  }

  lemma {:induction false} TrimStartEnds(s: string)
    ensures TrimStart(s) != [] ==> !IsSpace(TrimStart(s)[0])
    decreases |s|
  {
    if s != [] && IsSpace(s[0]) { TrimStartEnds(s[1..]); }
  }

  lemma {:induction false} TrimEndEnds(s: string)
    ensures TrimEnd(s) != [] ==> !IsSpace(TrimEnd(s)[|TrimEnd(s)| - 1]) && TrimEnd(s)[0] == s[0]
    decreases |s|
  {
    if s != [] && IsSpace(s[|s| - 1]) { TrimEndEnds(s[..|s| - 1]); }
  }

  /**
   * On any reason line, the weld adds the continuation's first cell to the remark exactly when the text before the
   * wide gap is tight, with no tab beside a blank and no blank at its end; otherwise the remark read is the one of the
   * unwelded line.  The whole continuation arrives exactly when it is tight as well.
   */
  lemma WeldExactlyWhen(reason: string, line: string)
    requires Continues(reason, line)
    ensures var remark, c, welded := reason[..RemarkEnd(reason)], Trim(line), Cells(Splice(reason, line));
      && Cells(reason) != [] && Cells(c) != [] && welded != []
      && welded[0].text == (if Tight(remark) then remark + " " + Cells(c)[0].text else Cells(reason)[0].text)
      && (welded[0].text == remark + " " + c <==> Tight(remark) && Tight(c))
    ensures !Tight(reason[..RemarkEnd(reason)]) ==> RemarkOn(Splice(reason, line)) == RemarkOn(reason)
  {
    hide Trim, Tight, Cells, StopsContinuation, CellEnd;
    var at := RemarkEnd(reason);
    var remark, rest, c := reason[..at], reason[at..], Trim(line);
    assert reason == remark + rest && remark[0] == REASON_LABEL[0] == 'R';
    assert rest == [] || (|rest| >= 2 && rest[0] == ' ' && rest[1] == ' ');
    TrimmedEnds(line);
    TightExactlyWhen(remark);
    TightExactlyWhen(c);
    if Tight(remark) {
      TightWeld(remark, c, rest);
      TightStart(remark, rest);
    } else {
      EarlyEnd(remark, " " + c + rest);
      EarlyEnd(remark, rest);
      assert Splice(reason, line) == remark + (" " + c + rest);
    }
  }

  /** A reason line that says "Now" and ends in a space or in a tab, continued by "nil": the remark read is "Now". */
  lemma ContinuationLost(blank: char)
    requires IsGap(blank)
    ensures var reason := REASON_LABEL + " Now" + [blank];
      Weld([reason, "nil"]) == [reason + " nil"] && RemarkOn(reason + " nil") == RemarkOn(reason) == Some("Now")
  {
    hide Cells, Trim, CollapseSpaces, Weld, Continues, Splice, Tight, RemarkEnd, StartsWith;
    var remark := REASON_LABEL + " Now";
    var reason := remark + [blank];
    ReasonNow(blank);
    WeldTwo(reason, "nil");
    assert reason[..|reason|] == reason && !Tight(reason) by { EndsInBlank(remark, blank); }
    WeldExactlyWhen(reason, "nil");
    TightStart(remark, [blank]);
    assert remark[|REASON_LABEL|..] == " Now" == " " + "Now";
    OneWord("Now");
  }

  lemma EndsInBlank(remark: string, blank: char)
    requires IsGap(blank)
    ensures !Tight(remark + [blank])
  {
    assert (remark + [blank])[|remark|] == blank;
  }

  lemma ReasonNow(blank: char)
    requires IsGap(blank)
    ensures var remark := REASON_LABEL + " Now"; var reason := remark + [blank];
      && Tight(remark) && StartsWith(remark, REASON_LABEL) && StartsWith(reason, REASON_LABEL)
      && Continues(reason, "nil") && RemarkEnd(reason) == |reason| && Splice(reason, "nil") == reason + " nil"
  {
    hide Trim, WideGap, Tight;
    var reason := REASON_LABEL + " Now" + [blank];
    assert Trim("nil") == "nil" by { TrimTight("nil"); }
    assert reason[|REASON_LABEL|..] == " Now" + [blank];
    assert WideGap(" Now" + [blank]) == 5 by { NoWideGap(blank); }
    LabelIsTight();
    assert reason[..|REASON_LABEL|] == REASON_LABEL;
    assert RemarkEnd(reason) == |reason|;
    assert reason[..|reason|] + " " + "nil" + reason[|reason|..] == reason + " nil";
    assert Splice(reason, "nil") == reason + " nil";
    assert !StopsContinuation("nil");
    assert StartsWith(reason, REASON_LABEL);
    assert !StartsWith("nil", " ") && !StartsWith("nil", "\t") by { assert "nil"[0] == 'n'; }
    assert Continues(reason, "nil");
  }

  lemma NoWideGap(blank: char)
    ensures WideGap(" Now" + [blank]) == 5
  {
    var n := WideGap(" Now" + [blank]);
  }

  lemma LabelIsTight()
    ensures Tight(REASON_LABEL + " Now")
  {
  }

  lemma WeldTwo(reason: string, line: string)
    requires Continues(reason, line)
    ensures Weld([reason, line]) == [Splice(reason, line)]
  {
    hide Splice;
    assert [reason, line][..1] == [reason] && [reason][..0] == [];
    assert Weld([reason]) == WeldOnto(Weld([reason][..0]), reason) == [reason];
    assert [reason][0 := Splice(reason, line)] == [Splice(reason, line)];
  }

  lemma OneWord(word: string)
    requires word != [] && forall i :: 0 <= i < |word| ==> !IsSpace(word[i])
    ensures Trim(CollapseSpaces(" " + word)) == word
  {
    NothingCollapses(word);
    assert (" " + word)[1..] == word && SpacesLength(" " + word) == 1;
    TrimTight(word);
  }

  lemma {:induction false} NothingCollapses(s: string)
    requires forall i :: 0 <= i < |s| ==> !IsSpace(s[i])
    ensures CollapseSpaces(s) == s
    decreases |s|
  {
    if s != [] { NothingCollapses(s[1..]); }
  }
}
