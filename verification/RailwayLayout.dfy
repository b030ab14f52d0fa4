/** Splitting one line of column-laid-out text into cells (railway-bill-parse.ts). */
module RailwayLayout {
  datatype Cell = Cell(column: nat, text: string)

  predicate IsGap(c: char) { c == ' ' || c == '\t' }

  /** The first ink at or after i; the line's length when there is none. */
  function FirstInk(line: string, i: nat): (j: nat)
    requires i <= |line|
    ensures i <= j <= |line|
    ensures forall k :: i <= k < j ==> IsGap(line[k])
    ensures j < |line| ==> !IsGap(line[j])
    decreases |line| - i
  {
    if i < |line| && IsGap(line[i]) then FirstInk(line, i + 1) else i
  }

  /** Two gap characters end a cell, and so does one at the end of the line. */
  predicate EndsCell(line: string, i: nat)
    requires i <= |line|
  {
    i == |line| || (IsGap(line[i]) && (i + 1 == |line| || IsGap(line[i + 1])))
  }

  function CellEnd(line: string, i: nat): (j: nat)
    requires i <= |line|
    ensures i <= j <= |line| && EndsCell(line, j)
    ensures forall k :: i <= k < j ==> !EndsCell(line, k)
    decreases |line| - i
  {
    if EndsCell(line, i) then i else CellEnd(line, i + 1)
  }

  function CellsFrom(line: string, i: nat): seq<Cell>
    requires i <= |line|
    decreases |line| - i
  {
    var start := FirstInk(line, i);
    if start == |line| then []
    else
      var end := CellEnd(line, start);
      [Cell(start, line[start..end])] + CellsFrom(line, end)
  }

  function Cells(line: string): seq<Cell> { CellsFrom(line, 0) }

  method SkipGap(line: string, from: nat) returns (index: nat)
    requires from <= |line|
    ensures index == FirstInk(line, from)
  {
    index := from;
    while index < |line| && IsGap(line[index])
      invariant from <= index <= |line| && FirstInk(line, index) == FirstInk(line, from)
    {
      index := index + 1;
    }
  }

  /** Runs to the end of a cell, remembering its last ink. */
  method ReadCell(line: string, start: nat) returns (index: nat, lastInk: nat)
    requires start < |line| && !IsGap(line[start])
    ensures index == CellEnd(line, start) == lastInk + 1
  {
    index, lastInk := start, start;
    while index < |line|
      invariant start <= lastInk <= index <= |line| && CellEnd(line, index) == CellEnd(line, start)
      invariant index == start || !EndsCell(line, index - 1)
      invariant index == start || (if IsGap(line[index - 1]) then lastInk + 2 == index else lastInk + 1 == index)
      decreases |line| - index
    {
      if IsGap(line[index]) {
        if index + 1 >= |line| || IsGap(line[index + 1]) { break; }
      } else {
        lastInk := index;
      }
      index := index + 1;
    }
  }

  method CellsOf(line: string) returns (cells: seq<Cell>)
    ensures cells == Cells(line)
  {
    cells := [];
    var index := 0;
    while index < |line|
      invariant index <= |line|
      invariant cells + CellsFrom(line, index) == Cells(line)
    {
      var start := SkipGap(line, index);
      if start >= |line| {
        assert CellsFrom(line, index) == [];
        return;
      }
      var end, lastInk := ReadCell(line, start);
      assert CellsFrom(line, index) == [Cell(start, line[start..end])] + CellsFrom(line, end);
      cells := cells + [Cell(start, line[start..lastInk + 1])];
      index := end;
    }
  }

  // ---- what the cells are ------------------------------------------------------------------

  /** Starts and ends in ink, with no two gap characters together. */
  predicate Tight(t: string) {
    t != [] && !IsGap(t[0]) && !IsGap(t[|t| - 1]) && forall i :: 0 <= i < |t| - 1 ==> !(IsGap(t[i]) && IsGap(t[i + 1]))
  }

  predicate AllGap(line: string, from: nat, to: nat)
    requires from <= to <= |line|
  {
    forall k :: from <= k < to ==> IsGap(line[k])
  }

  function EndOf(c: Cell): nat { c.column + |c.text| }

  /** Where the cells stand in the line from i on: all the ink, in order, at least two gap characters apart. */
  predicate Laid(line: string, i: nat, cells: seq<Cell>)
    requires i <= |line|
    decreases |cells|
  {
    if cells == [] then AllGap(line, i, |line|)
    else
      var c := cells[0];
      && i <= c.column && EndOf(c) <= |line| && AllGap(line, i, c.column)
      && c.text == line[c.column..EndOf(c)] && Tight(c.text)
      && (cells[1..] != [] ==> EndOf(c) + 2 <= cells[1].column)
      && Laid(line, EndOf(c), cells[1..])
  }

  lemma CellIsTight(line: string, start: nat)
    requires start < |line| && !IsGap(line[start])
    ensures var end := CellEnd(line, start); start < end && Tight(line[start..end])
  {
    hide IsGap, CellEnd;
    var end := CellEnd(line, start);
    assert end > start;
    assert !EndsCell(line, end - 1);
    forall i | start <= i < end - 1 ensures !(IsGap(line[i]) && IsGap(line[i + 1])) {
      assert !EndsCell(line, i);
    }
    SliceIsTight(line, start, end);
  }

  lemma SliceIsTight(line: string, start: nat, end: nat)
    requires start < end <= |line| && !IsGap(line[start]) && !IsGap(line[end - 1])
    requires forall i :: start <= i < end - 1 ==> !(IsGap(line[i]) && IsGap(line[i + 1]))
    ensures Tight(line[start..end])
  {
    hide IsGap;
    var t := line[start..end];
    forall i | 0 <= i < |t| - 1 ensures !(IsGap(t[i]) && IsGap(t[i + 1])) {
      assert t[i] == line[start + i] && t[i + 1] == line[start + i + 1];
    }
  }

  lemma {:induction false} CellsAreLaid(line: string, i: nat)
    requires i <= |line|
    ensures Laid(line, i, CellsFrom(line, i))
    decreases |line| - i
  {
    hide Tight, FirstInk, CellEnd;
    var start := FirstInk(line, i);
    if start < |line| {
      var end := CellEnd(line, start);
      CellIsTight(line, start);
      CellsAreLaid(line, end);
      assert CellsFrom(line, i)[1..] == CellsFrom(line, end);
    }
  }

  lemma {:induction false} FirstInkAt(line: string, i: nat, j: nat)
    requires i <= j < |line| && AllGap(line, i, j) && !IsGap(line[j])
    ensures FirstInk(line, i) == j
    decreases j - i
  {
    if i < j { FirstInkAt(line, i + 1, j); }
  }

  lemma InkStarts(line: string, i: nat, c: Cell)
    requires i <= c.column && EndOf(c) <= |line| && AllGap(line, i, c.column)
    requires c.text == line[c.column..EndOf(c)] && Tight(c.text)
    ensures FirstInk(line, i) == c.column
  {
    assert c.text[0] == line[c.column];
    FirstInkAt(line, i, c.column);
  }

  lemma {:induction false} LaidIsCells(line: string, i: nat, cells: seq<Cell>)
    requires i <= |line| && Laid(line, i, cells)
    ensures cells == CellsFrom(line, i)
    decreases |cells|
  {
    if cells == [] {
    } else {
      var c := cells[0];
      InkStarts(line, i, c);
      TightEnds(line, c, cells[1..]);
      LaidIsCells(line, EndOf(c), cells[1..]);
      assert cells == [c] + cells[1..];
    }
  }

  lemma TightEnds(line: string, c: Cell, rest: seq<Cell>)
    requires EndOf(c) <= |line| && c.text == line[c.column..EndOf(c)] && Tight(c.text) && Laid(line, EndOf(c), rest)
    requires rest != [] ==> EndOf(c) + 2 <= rest[0].column
    ensures CellEnd(line, c.column) == EndOf(c)
  {
    var end, found := EndOf(c), CellEnd(line, c.column);
    assert EndsCell(line, end);
    forall k | c.column <= k < end ensures !EndsCell(line, k) {
      assert line[k] == c.text[k - c.column];
      assert k + 1 < end ==> line[k + 1] == c.text[k + 1 - c.column];
    }
  }

  /** The cells of a line are the one way to lay all its ink out at least two gap characters apart. */
  lemma CellsExactlyWhen(line: string, cells: seq<Cell>)
    ensures cells == Cells(line) <==> Laid(line, 0, cells)
  {
    CellsAreLaid(line, 0);
    if Laid(line, 0, cells) { LaidIsCells(line, 0, cells); }
  }

  /** How many of the cells hold the character at k. */
  function Holding(cells: seq<Cell>, k: nat): nat {
    if cells == [] then 0 else (if cells[0].column <= k < EndOf(cells[0]) then 1 else 0) + Holding(cells[1..], k)
  }

  lemma {:induction false} BeyondReach(line: string, i: nat, cells: seq<Cell>, k: nat)
    requires i <= |line| && Laid(line, i, cells) && k < i
    ensures Holding(cells, k) == 0
    decreases |cells|
  {
    if cells != [] { BeyondReach(line, EndOf(cells[0]), cells[1..], k); }
  }

  lemma {:induction false} HeldOnce(line: string, i: nat, cells: seq<Cell>, k: nat)
    requires i <= k < |line| && Laid(line, i, cells)
    ensures Holding(cells, k) <= 1 && (!IsGap(line[k]) ==> Holding(cells, k) == 1)
    decreases |cells|
  {
    hide Tight;
    if cells != [] {
      var c := cells[0];
      if k < EndOf(c) { BeyondReach(line, EndOf(c), cells[1..], k); } else { HeldOnce(line, EndOf(c), cells[1..], k); }
    }
  }

  /** Every ink character of the line is in exactly one cell. */
  lemma InkHeldOnce(line: string, k: nat)
    requires k < |line|
    ensures Holding(Cells(line), k) <= 1 && (!IsGap(line[k]) ==> Holding(Cells(line), k) == 1)
  {
    CellsAreLaid(line, 0);
    HeldOnce(line, 0, Cells(line), k);
  }

  // ---- putting the cells back ---------------------------------------------------------------------

  function Spaces(n: nat): string { seq(n, _ => ' ') }

  /** Each cell at its column, spaces between, from column i on. */
  function Place(cells: seq<Cell>, i: nat): string {
    if cells == [] then ""
    else
      var c := cells[0];
      Spaces(if c.column > i then c.column - i else 0) + c.text + Place(cells[1..], EndOf(c))
  }

  predicate SpaceSeparated(line: string) { '\t' !in line }

  function DropTrailingBlanks(s: string): string {
    if s != [] && IsGap(s[|s| - 1]) then DropTrailingBlanks(s[..|s| - 1]) else s
  }

  lemma {:induction false} BlankTail(s: string, n: nat)
    requires n <= |s| && (forall k :: n <= k < |s| ==> IsGap(s[k])) && (n > 0 ==> !IsGap(s[n - 1]))
    ensures DropTrailingBlanks(s) == s[..n]
    decreases |s|
  {
    if |s| > n {
      BlankTail(s[..|s| - 1], n);
      assert s[..|s| - 1][..n] == s[..n];
    } else {
      assert s[..n] == s;
    }
  }

  /** The end of the last cell, or i when there is none. */
  function LastEnd(cells: seq<Cell>, i: nat): nat {
    if cells == [] then i else LastEnd(cells[1..], EndOf(cells[0]))
  }

  lemma {:induction false} PlacedIsLine(line: string, i: nat, cells: seq<Cell>)
    requires i <= |line| && Laid(line, i, cells) && SpaceSeparated(line)
    ensures var n := LastEnd(cells, i);
      && i <= n <= |line| && Place(cells, i) == line[i..n] && AllGap(line, n, |line|)
      && (cells != [] ==> n > 0 && !IsGap(line[n - 1]))
    decreases |cells|
  {
    hide IsGap, AllGap, SpaceSeparated;
    if cells == [] {
      assert line[i..i] == "";
    } else {
      var c := cells[0];
      PlacedIsLine(line, EndOf(c), cells[1..]);
      GapIsSpaces(line, i, c.column);
      assert line[EndOf(c) - 1] == c.text[|c.text| - 1];
      ThreeSlices(line, i, c.column, EndOf(c), LastEnd(cells, i));
    }
  }

  lemma ThreeSlices(line: string, i: nat, j: nat, k: nat, n: nat)
    requires i <= j <= k <= n <= |line|
    ensures line[i..j] + line[j..k] + line[k..n] == line[i..n]
  {
  }

  lemma GapIsSpaces(line: string, from: nat, to: nat)
    requires from <= to <= |line| && AllGap(line, from, to) && SpaceSeparated(line)
    ensures line[from..to] == Spaces(to - from)
  {
    forall k | from <= k < to ensures line[k] == ' ' {
      assert line[k] in line;
    }
  }

  /** Re-placing the cells of a space-separated line rebuilds it, trailing blanks aside. */
  lemma PlacingRebuilds(line: string)
    requires SpaceSeparated(line)
    ensures Place(Cells(line), 0) == DropTrailingBlanks(line)
  {
    CellsAreLaid(line, 0);
    PlacedIsLine(line, 0, Cells(line));
    var n := LastEnd(Cells(line), 0);
    BlankTail(line, n);
    assert line[0..n] == line[..n];
  }
}
