/**
 * The CSV reader (csv.ts): a quoting state machine, proved to invert a writer that follows
 * RFC 4180 section 2 and may quote any field and end any record with LF, CRLF or CR.
 */
module Csv {

  const MAX_ROWS: nat := 100_000
  const MAX_FIELDS: nat := 1_000
  const BYTE_ORDER_MARK: char := '\U{FEFF}'

  datatype CsvError = TooManyFields | TooManyRows | UnclosedQuote

  datatype Result<+T> = Ok(value: T) | Err(error: CsvError)

  type Row = seq<string>

  datatype State = State(rows: seq<Row>, row: Row, field: string, quoted: bool)

  function EndField(s: State): Result<State> {
    if |s.row| >= MAX_FIELDS then Err(TooManyFields) else Ok(s.(row := s.row + [s.field], field := ""))
  }

  function EndRow(s: State): Result<State> {
    match EndField(s)
    case Err(e) => Err(e)
    case Ok(t) => if |t.rows| >= MAX_ROWS then Err(TooManyRows) else Ok(t.(rows := t.rows + [t.row], row := []))
  }

  predicate Starts(text: string, c: char) { text != [] && text[0] == c }

  /** The state after the rest of the text. */
  function Read(text: string, s: State): Result<State>
    decreases |text|
  {
    if text == [] then Ok(s)
    else
      var c, rest := text[0], text[1..];
      if s.quoted then
        if c != '"' then Read(rest, s.(field := s.field + [c]))
        else if Starts(rest, '"') then Read(rest[1..], s.(field := s.field + ['"']))
        else Read(rest, s.(quoted := false))
      else if c == '"' then
        if s.field == "" then Read(rest, s.(quoted := true)) else Read(rest, s.(field := s.field + [c]))
      else if c == ',' then
        match EndField(s) case Err(e) => Err(e) case Ok(t) => Read(rest, t)
      else if c == '\r' then
        match EndRow(s)
        case Err(e) => Err(e)
        case Ok(t) => Read(if Starts(rest, '\n') then rest[1..] else rest, t)
      else if c == '\n' then
        match EndRow(s) case Err(e) => Err(e) case Ok(t) => Read(rest, t)
      else Read(rest, s.(field := s.field + [c]))
  }

  function ReadAfter(r: Result<State>, rest: string): Result<State> {
    match r case Err(e) => Err(e) case Ok(s) => Read(rest, s)
  }

  function DropTrailing(rows: seq<Row>): seq<Row> {
    if rows != [] && rows[|rows| - 1] == [""] then DropTrailing(rows[..|rows| - 1]) else rows
  }

  function Finish(s: State): Result<seq<Row>> {
    if s.quoted then Err(UnclosedQuote)
    else if s.field != "" || s.row != [] then
      match EndRow(s) case Err(e) => Err(e) case Ok(t) => Ok(DropTrailing(t.rows))
    else Ok(DropTrailing(s.rows))
  }

  const START := State([], [], "", false)

  function WithoutMark(text: string): string {
    if Starts(text, BYTE_ORDER_MARK) then text[1..] else text
  }

  function Parse(text: string): Result<seq<Row>> {
    match Read(WithoutMark(text), START)
    case Err(e) => Err(e)
    case Ok(s) => Finish(s)
  }

  method ParseCsv(text: string) returns (result: Result<seq<Row>>)
    ensures result == Parse(text)
  {
    var source := WithoutMark(text);
    var rows, row, field, quoted, index := [], [], "", false, 0;
    while index < |source|
      invariant 0 <= index <= |source|
      invariant Read(source[index..], State(rows, row, field, quoted)) == Read(source, START)
    {
      var character := source[index];
      var next := index + 1;
      assert source[index..][1..] == source[next..];
      assert next < |source| ==> source[next..][1..] == source[next + 1..];
      if quoted {
        if character == '"' {
          if next < |source| && source[next] == '"' {
            field := field + ['"'];
            index := index + 2;
            continue;
          }
          quoted := false;
          index := index + 1;
          continue;
        }
        field := field + [character];
        index := index + 1;
        continue;
      }
      if character == '"' {
        if field == "" { quoted := true; } else { field := field + [character]; }
        index := index + 1;
        continue;
      }
      if character == ',' || character == '\r' || character == '\n' {
        if |row| >= MAX_FIELDS { return Err(TooManyFields); }
        row, field := row + [field], "";
        if character == ',' {
          index := index + 1;
          continue;
        }
        if |rows| >= MAX_ROWS { return Err(TooManyRows); }
        rows, row := rows + [row], [];
        index := if character == '\r' && next < |source| && source[next] == '\n' then index + 2 else index + 1;
        continue;
      }
      field := field + [character];
      index := index + 1;
    }
    assert source[index..] == [];
    if quoted { return Err(UnclosedQuote); }
    if field != "" || row != [] {
      if |row| >= MAX_FIELDS { return Err(TooManyFields); }
      row := row + [field];
      if |rows| >= MAX_ROWS { return Err(TooManyRows); }
      rows := rows + [row];
    }
    ghost var kept := DropTrailing(rows);
    while |rows| > 0 && rows[|rows| - 1] == [""]
      invariant DropTrailing(rows) == kept
    {
      rows := rows[..|rows| - 1];
    }
    return Ok(rows);
  }

  // ---- the writer ----------------------------------------------------------

  datatype Terminator = LF | CRLF | CR

  function Ending(t: Terminator): string {
    match t case LF => "\n" case CRLF => "\r\n" case CR => "\r"
  }

  /** One field, and whether the writer put it in quotes. */
  datatype Cell = Cell(text: string, inQuotes: bool)

  /** A field may be written bare when it holds no separator and does not begin with a quote. */
  predicate WellWritten(c: Cell) {
    c.inQuotes || (!Starts(c.text, '"') && forall i :: 0 <= i < |c.text| ==> c.text[i] !in {',', '\r', '\n'})
  }

  function Doubled(text: string): string {
    if text == [] then []
    else (if text[0] == '"' then "\"\"" else [text[0]]) + Doubled(text[1..])
  }

  function PrintCell(c: Cell): string {
    if c.inQuotes then "\"" + Doubled(c.text) + "\"" else c.text
  }

  function PrintCells(cells: seq<Cell>): string {
    if cells == [] then []
    else if |cells| == 1 then PrintCell(cells[0])
    else PrintCell(cells[0]) + ("," + PrintCells(cells[1..]))
  }

  function Texts(cells: seq<Cell>): Row { seq(|cells|, i requires 0 <= i < |cells| => cells[i].text) }

  datatype Record = Record(cells: seq<Cell>, ending: Terminator)

  predicate WellFormed(r: Record) {
    r.cells != [] && forall c :: c in r.cells ==> WellWritten(c)
  }

  function PrintRecord(r: Record): string { PrintCells(r.cells) + Ending(r.ending) }

  function PrintRecords(records: seq<Record>): string {
    if records == [] then [] else PrintRecord(records[0]) + PrintRecords(records[1..])
  }

  function Rows(records: seq<Record>): seq<Row> {
    seq(|records|, i requires 0 <= i < |records| => Texts(records[i].cells))
  }

  /** A bare CR must not be followed by a record that prints as nothing but LF: the two would read as one CRLF. */
  predicate Unambiguous(records: seq<Record>) {
    forall i :: 0 <= i < |records| - 1 && records[i].ending == CR ==>
      !(records[i + 1].ending == LF && records[i + 1].cells == [Cell("", false)])
  }

  predicate Printable(records: seq<Record>) {
    (forall r :: r in records ==> WellFormed(r)) && Unambiguous(records)
  }

  predicate WithinCeilings(records: seq<Record>) {
    |records| <= 100_000 && forall r :: r in records ==> |r.cells| <= 1_000
  }

  // ---- reading back what was written ---------------------------------------

  lemma {:induction false} ReadDoubled(text: string, rest: string, s: State)
    requires s.quoted && !Starts(rest, '"')
    ensures Read(Doubled(text) + "\"" + rest, s) == Read(rest, s.(field := s.field + text, quoted := false))
    decreases |text|
  {
    var whole := Doubled(text) + "\"" + rest;
    if text == [] {
      assert whole == "\"" + rest && whole[1..] == rest;
      assert s.field + text == s.field;
    } else {
      var tail := Doubled(text[1..]) + "\"" + rest;
      assert s.field + [text[0]] + text[1..] == s.field + text;
      if text[0] == '"' {
        assert whole == "\"\"" + tail && whole[1..] == "\"" + tail && whole[1..][1..] == tail;
        ReadDoubled(text[1..], rest, s.(field := s.field + ['"']));
      } else {
        assert whole == [text[0]] + tail && whole[1..] == tail;
        ReadDoubled(text[1..], rest, s.(field := s.field + [text[0]]));
      }
    }
  }

  lemma {:induction false} ReadBare(text: string, rest: string, s: State)
    requires !s.quoted && (s.field == "" ==> !Starts(text, '"'))
    requires forall i :: 0 <= i < |text| ==> text[i] !in {',', '\r', '\n'}
    ensures Read(text + rest, s) == Read(rest, s.(field := s.field + text))
    decreases |text|
  {
    if text == [] {
      assert text + rest == rest && s.field + text == s.field;
    } else {
      assert (text + rest)[1..] == text[1..] + rest;
      assert s.field + [text[0]] + text[1..] == s.field + text;
      ReadBare(text[1..], rest, s.(field := s.field + [text[0]]));
    }
  }

  lemma ReadCell(c: Cell, rest: string, s: State)
    requires WellWritten(c) && !s.quoted && s.field == "" && !Starts(rest, '"')
    ensures Read(PrintCell(c) + rest, s) == Read(rest, s.(field := c.text))
  {
    assert s.field + c.text == c.text;
    if c.inQuotes {
      var inside := Doubled(c.text) + "\"" + rest;
      assert PrintCell(c) + rest == "\"" + inside && ("\"" + inside)[1..] == inside;
      ReadDoubled(c.text, rest, s.(quoted := true));
    } else {
      ReadBare(c.text, rest, s);
    }
  }

  /** Where a record's cells leave the reader, before its terminator: the last field still open. */
  function AfterCells(cells: seq<Cell>, s: State): Result<State>
    requires cells != []
  {
    if |cells| == 1 then Ok(s.(field := cells[0].text))
    else
      match EndField(s.(field := cells[0].text))
      case Err(e) => Err(e)
      case Ok(t) => AfterCells(cells[1..], t)
  }

  lemma ReadCellAndComma(c: Cell, rest: string, s: State)
    requires WellWritten(c) && !s.quoted && s.field == ""
    ensures Read(PrintCell(c) + ("," + rest), s)
         == ReadAfter(EndField(s.(field := c.text)), rest)
  {
    ReadCell(c, "," + rest, s);
    assert ("," + rest)[1..] == rest;
  }

  lemma {:induction false} ReadCells(cells: seq<Cell>, rest: string, s: State)
    requires cells != [] && (forall c :: c in cells ==> WellWritten(c))
    requires !s.quoted && s.field == "" && !Starts(rest, '"')
    ensures Read(PrintCells(cells) + rest, s)
         == ReadAfter(AfterCells(cells, s), rest)
    decreases |cells|
  {
    hide Read;
    assert cells[0] in cells;
    if |cells| == 1 {
      ReadCell(cells[0], rest, s);
    } else {
      var tail := PrintCells(cells[1..]) + rest;
      assert PrintCells(cells) + rest == PrintCell(cells[0]) + ("," + tail);
      ReadCellAndComma(cells[0], tail, s);
      var ended := EndField(s.(field := cells[0].text));
      if ended.Ok? { ReadCells(cells[1..], rest, ended.value); }
    }
  }

  lemma {:induction false} AfterCellsFits(cells: seq<Cell>, s: State)
    requires cells != []
    ensures |s.row| + |cells| <= MAX_FIELDS ==>
      AfterCells(cells, s) == Ok(s.(row := s.row + Texts(cells)[..|cells| - 1], field := cells[|cells| - 1].text))
    ensures |s.row| <= MAX_FIELDS < |s.row| + |cells| ==>
      AfterCells(cells, s) == Err(TooManyFields)
      || (AfterCells(cells, s).Ok? && EndField(AfterCells(cells, s).value) == Err(TooManyFields))
    decreases |cells|
  {
    if |cells| == 1 {
      assert s.row + Texts(cells)[..0] == s.row;
    } else {
      var ended := EndField(s.(field := cells[0].text));
      if ended.Ok? {
        AfterCellsFits(cells[1..], ended.value);
        assert Texts(cells)[..|cells| - 1] == [cells[0].text] + Texts(cells[1..])[..|cells| - 2];
        assert s.row + Texts(cells)[..|cells| - 1] == (s.row + [cells[0].text]) + Texts(cells[1..])[..|cells| - 2];
      }
    }
  }

  predicate BetweenRecords(s: State) { s.row == [] && s.field == "" && !s.quoted }

  lemma ReadEnding(ending: Terminator, rest: string, s: State)
    requires !s.quoted && (ending == CR ==> !Starts(rest, '\n'))
    ensures Read(Ending(ending) + rest, s) == ReadAfter(EndRow(s), rest)
  {
    var tail := Ending(ending) + rest;
    assert tail[1..] == if ending == CRLF then "\n" + rest else rest;
    assert ("\n" + rest)[1..] == rest;
  }

  lemma ReadRecord(r: Record, rest: string, s: State)
    requires WellFormed(r) && BetweenRecords(s) && (r.ending == CR ==> !Starts(rest, '\n'))
    ensures |r.cells| <= MAX_FIELDS && |s.rows| < MAX_ROWS ==>
      Read(PrintRecord(r) + rest, s) == Read(rest, s.(rows := s.rows + [Texts(r.cells)]))
    ensures |r.cells| > MAX_FIELDS ==> Read(PrintRecord(r) + rest, s) == Err(TooManyFields)
    ensures |r.cells| <= MAX_FIELDS && |s.rows| >= MAX_ROWS ==> Read(PrintRecord(r) + rest, s) == Err(TooManyRows)
  {
    hide Read, Texts;
    var tail := Ending(r.ending) + rest;
    assert PrintRecord(r) + rest == PrintCells(r.cells) + tail;
    ReadCells(r.cells, tail, s);
    AfterCellsFits(r.cells, s);
    AfterCellsQuotes(r.cells, s);
    var after := AfterCells(r.cells, s);
    if after.Ok? { ReadEnding(r.ending, rest, after.value); }
    LastText(r.cells);
  }

  lemma LastText(cells: seq<Cell>)
    requires cells != []
    ensures Texts(cells) == [] + Texts(cells)[..|cells| - 1] + [cells[|cells| - 1].text]
  {
  }

  lemma {:induction false} AfterCellsQuotes(cells: seq<Cell>, s: State)
    requires cells != []
    ensures AfterCells(cells, s).Ok? ==>
      AfterCells(cells, s).value.quoted == s.quoted && AfterCells(cells, s).value.rows == s.rows
    decreases |cells|
  {
    if |cells| > 1 {
      var ended := EndField(s.(field := cells[0].text));
      if ended.Ok? { AfterCellsQuotes(cells[1..], ended.value); }
    }
  }

  lemma PrintedStart(r: Record, rest: string)
    requires WellFormed(r) && !(r.ending == LF && r.cells == [Cell("", false)])
    ensures !Starts(PrintRecord(r) + rest, '\n')
  {
    var c := r.cells[0];
    assert WellWritten(c);
    var text := PrintRecord(r) + rest;
    assert PrintCell(c) != "" ==> text[0] == PrintCell(c)[0];
    assert |r.cells| == 1 ==> r.cells == [c];
    assert |r.cells| == 1 && PrintCell(c) == "" ==> text[0] == Ending(r.ending)[0];
    assert |r.cells| > 1 && PrintCell(c) == "" ==> text[0] == ',';
  }

  lemma {:induction false} ReadRecords(records: seq<Record>, rest: string, s: State)
    requires Printable(records) && WithinCeilings(records) && BetweenRecords(s) && |s.rows| + |records| <= MAX_ROWS
    requires records != [] && records[|records| - 1].ending == CR ==> !Starts(rest, '\n')
    ensures Read(PrintRecords(records) + rest, s) == Read(rest, s.(rows := s.rows + Rows(records)))
    decreases |records|
  {
    hide Read, PrintRecord, Texts;
    if records == [] {
      assert PrintRecords(records) + rest == rest && s.rows + Rows(records) == s.rows;
    } else {
      var r, more := records[0], records[1..];
      var tail := PrintRecords(more) + rest;
      assert PrintRecords(records) + rest == PrintRecord(r) + tail;
      assert r in records && WellFormed(r);
      if r.ending == CR { FollowedSafely(records, rest); }
      ReadRecord(r, tail, s);
      ReadRecords(more, rest, s.(rows := s.rows + [Texts(r.cells)]));
      assert s.rows + Rows(records) == s.rows + [Texts(r.cells)] + Rows(more);
    }
  }

  lemma FollowedSafely(records: seq<Record>, rest: string)
    requires Printable(records) && records != [] && records[0].ending == CR
    requires records[|records| - 1].ending == CR ==> !Starts(rest, '\n')
    ensures !Starts(PrintRecords(records[1..]) + rest, '\n')
  {
    var more := records[1..];
    if more == [] {
      assert PrintRecords(more) + rest == rest;
    } else {
      assert more[0] == records[1] && records[1] in records;
      var after := PrintRecords(more[1..]) + rest;
      assert PrintRecords(more) + rest == PrintRecord(more[0]) + after;
      PrintedStart(more[0], after);
    }
  }

  /** A leading byte-order mark is optional; a document without one must not begin with that character. */
  function Document(mark: bool, body: string): string {
    if mark then [BYTE_ORDER_MARK] + body else body
  }

  /** Every well-written document reads back as its rows, less the trailing records that hold one empty field. */
  lemma {:induction false} RoundTrip(records: seq<Record>, mark: bool)
    requires Printable(records) && WithinCeilings(records)
    requires mark || !Starts(PrintRecords(records), BYTE_ORDER_MARK)
    ensures Parse(Document(mark, PrintRecords(records))) == Ok(DropTrailing(Rows(records)))
  {
    assert PrintRecords(records) + [] == PrintRecords(records);
    ReadRecords(records, [], START);
    assert [] + Rows(records) == Rows(records);
  }

  /** The last record may lack its terminator. */
  lemma {:induction false} RoundTripUnterminated(records: seq<Record>, last: seq<Cell>, mark: bool)
    requires Printable(records) && WithinCeilings(records) && |records| < MAX_ROWS
    requires WellFormed(Record(last, LF)) && |last| <= MAX_FIELDS
    requires records != [] && records[|records| - 1].ending == CR ==> !Starts(PrintCells(last), '\n')
    requires mark || !Starts(PrintRecords(records) + PrintCells(last), BYTE_ORDER_MARK)
    ensures Parse(Document(mark, PrintRecords(records) + PrintCells(last)))
         == Ok(DropTrailing(Rows(records) + [Texts(last)]))
  {
    ReadRecords(records, PrintCells(last), START);
    assert [] + Rows(records) == Rows(records);
    ReadLastCells(last, START.(rows := Rows(records)));
  }

  lemma ReadLastCells(last: seq<Cell>, s: State)
    requires WellFormed(Record(last, LF)) && |last| <= MAX_FIELDS && BetweenRecords(s) && |s.rows| < MAX_ROWS
    ensures var r := Read(PrintCells(last), s);
      r.Ok? && Finish(r.value) == Ok(DropTrailing(s.rows + [Texts(last)]))
  {
    assert forall c :: c in last ==> WellWritten(c) by { assert Record(last, LF).cells == last; }
    assert PrintCells(last) + [] == PrintCells(last);
    ReadCells(last, [], s);
    AfterCellsFits(last, s);
    LastText(last);
    if |last| == 1 {
      assert Texts(last) == [last[0].text];
      assert (s.rows + [[""]])[..|s.rows|] == s.rows;
    }
  }

  lemma {:induction false} ReadInside(inside: string, s: State)
    requires s.quoted
    ensures var r := Read(Doubled(inside), s); r.Ok? && r.value.quoted
    decreases |inside|
  {
    if inside != [] {
      var tail := Doubled(inside[1..]);
      var whole := Doubled(inside);
      if inside[0] == '"' {
        assert whole[1..] == "\"" + tail && whole[1..][1..] == tail;
        ReadInside(inside[1..], s.(field := s.field + ['"']));
      } else {
        assert whole[1..] == tail;
        ReadInside(inside[1..], s.(field := s.field + [inside[0]]));
      }
    }
  }

  /** What has been read leaves the reader between fields, where a quote opens one. */
  predicate Opens(prefix: string) {
    var r := Read(WithoutMark(prefix), START);
    r.Ok? && !r.value.quoted && r.value.field == ""
  }

  /** The text is such a prefix, a quote, and characters with every quote among them doubled. */
  predicate StopsInside(text: string, prefix: string, inside: string) {
    text == prefix + ("\"" + Doubled(inside)) && Opens(prefix)
  }

  /** How many characters one step of the reader takes, and where it leaves the reader. */
  function Taken(text: string, s: State): nat
    requires text != []
  {
    if Starts(text[1..], if s.quoted then '"' else '\n') && text[0] == (if s.quoted then '"' else '\r') then 2 else 1
  }

  function Next(text: string, s: State): Result<State>
    requires text != []
  {
    var c := text[0];
    if s.quoted && c == '"' && Taken(text, s) == 1 then Ok(s.(quoted := false))
    else if !s.quoted && c == '"' && s.field == "" then Ok(s.(quoted := true))
    else if !s.quoted && c == ',' then EndField(s)
    else if !s.quoted && (c == '\r' || c == '\n') then EndRow(s)
    else Ok(s.(field := s.field + [c]))
  }

  lemma ReadStep(text: string, s: State)
    requires text != []
    ensures Taken(text, s) <= |text| && Read(text, s) == ReadAfter(Next(text, s), text[Taken(text, s)..])
  {
  }

  lemma StepAcross(a: string, b: string, s: State)
    requires a != [] && !(|a| == 1 && Starts(b, if s.quoted then '"' else '\n'))
    ensures Taken(a, s) <= |a| && Taken(a + b, s) == Taken(a, s) && Next(a + b, s) == Next(a, s)
    ensures (a + b)[Taken(a, s)..] == a[Taken(a, s)..] + b
  {
    assert (a + b)[1..] == a[1..] + b;
  }

  lemma {:induction false} OpenStaysOpen(prefix: string, inside: string, s: State)
    requires var r := Read(prefix, s); r.Ok? && !r.value.quoted && r.value.field == ""
    ensures var r := Read(prefix + ("\"" + Doubled(inside)), s); r.Ok? && r.value.quoted
    decreases |prefix|
  {
    hide Read, Next, Taken;
    var open := "\"" + Doubled(inside);
    assert open[1..] == Doubled(inside);
    if prefix == [] {
      assert prefix + open == open;
      ReadNothing(s);
      OpenOpens(inside, s);
    } else if s.quoted && |prefix| == 1 {
      ClosedThenOpened(prefix, inside, s);
    } else {
      ReadStep(prefix, s);
      StepAcross(prefix, open, s);
      ReadStep(prefix + open, s);
      assert Taken(prefix, s) >= 1 by { TakesSome(prefix, s); }
      OpenStaysOpen(prefix[Taken(prefix, s)..], inside, Next(prefix, s).value);
    }
  }

  lemma TakesSome(text: string, s: State)
    requires text != []
    ensures 1 <= Taken(text, s) <= 2
  {
  }

  lemma OpenOpens(inside: string, s: State)
    requires !s.quoted && s.field == ""
    ensures var r := Read("\"" + Doubled(inside), s); r.Ok? && r.value.quoted
  {
    assert ("\"" + Doubled(inside))[1..] == Doubled(inside);
    ReadInside(inside, s.(quoted := true));
  }

  /** Behind the quote that closes an empty field, a quote is that field's first character. */
  lemma ClosedThenOpened(prefix: string, inside: string, s: State)
    requires s.quoted && |prefix| == 1
    requires var r := Read(prefix, s); r.Ok? && !r.value.quoted
    ensures var r := Read(prefix + ("\"" + Doubled(inside)), s); r.Ok? && r.value.quoted
  {
    var text := prefix + ("\"" + Doubled(inside));
    assert prefix[1..] == [] && prefix[0] == '"';
    assert text[1..] == "\"" + Doubled(inside) && text[1..][1..] == Doubled(inside);
    ReadInside(inside, s.(field := s.field + ['"']));
  }

  /** Reading that ends inside quotes began there and stayed, or passed through an opening quote. */
  lemma {:induction false} LastOpening(text: string, s: State) returns (prefix: string, inside: string)
    requires Read(text, s).Ok? && Read(text, s).value.quoted
    ensures (s.quoted && text == Doubled(inside)) ||
      (text == prefix + ("\"" + Doubled(inside)) && Read(prefix, s).Ok?
       && !Read(prefix, s).value.quoted && Read(prefix, s).value.field == "")
    decreases |text|
  {
    hide Read, Next, Taken;
    prefix, inside := [], [];
    if text == [] {
      ReadNothing(s);
    } else {
      ReadStep(text, s);
      TakesSome(text, s);
      ReadNothing(s);
      var n, t := Taken(text, s), Next(text, s).value;
      var later, within := LastOpening(text[n..], t);
      assert text == text[..n] + text[n..];
      if t.quoted && text[n..] == Doubled(within) {
        OpensOrStays(text, s, within);
        inside := if s.quoted then [text[0]] + within else within;
      } else {
        prefix, inside := text[..n] + later, within;
        var open := "\"" + Doubled(inside);
        assert text == prefix + open && prefix[n..] == later;
        SameStep(text, prefix, s);
        ReadStep(prefix, s);
      }
    }
  }

  lemma ReadNothing(s: State)
    ensures Read([], s) == Ok(s)
  {
  }

  lemma OpensOrStays(text: string, s: State, within: string)
    requires text != [] && Next(text, s).Ok? && Next(text, s).value.quoted && Taken(text, s) <= |text|
    requires text[Taken(text, s)..] == Doubled(within)
    ensures s.quoted ==> text == Doubled([text[0]] + within)
    ensures !s.quoted ==> s.field == "" && text == "\"" + Doubled(within)
  {
    assert ([text[0]] + within)[1..] == within;
    assert text == text[..Taken(text, s)] + text[Taken(text, s)..];
  }

  lemma SameStep(text: string, prefix: string, s: State)
    requires prefix != [] && prefix <= text && Taken(text, s) <= |prefix|
    ensures Taken(prefix, s) == Taken(text, s) && Next(prefix, s) == Next(text, s)
  {
    assert |prefix| > 1 ==> prefix[1] == text[1];
  }

  lemma MarkOnFront(a: string, b: string)
    requires a != [] || !Starts(b, BYTE_ORDER_MARK)
    ensures WithoutMark(a + b) == WithoutMark(a) + b
  {
  }

  /**
   * A text is refused as unclosed exactly when it is some text that leaves the reader between fields, a quote, and
   * characters with every quote among them doubled.
   */
  lemma UnclosedExactlyWhen(text: string)
    ensures Parse(text) == Err(UnclosedQuote) <==> exists prefix, inside :: StopsInside(text, prefix, inside)
  {
    forall prefix, inside | StopsInside(text, prefix, inside) ensures Parse(text) == Err(UnclosedQuote) {
      StoppedIsRefused(text, prefix, inside);
    }
    if Parse(text) == Err(UnclosedQuote) {
      var prefix, inside := RefusedStops(text);
    }
  }

  lemma StoppedIsRefused(text: string, prefix: string, inside: string)
    requires StopsInside(text, prefix, inside)
    ensures Parse(text) == Err(UnclosedQuote)
  {
    hide Read, Doubled;
    MarkOnFront(prefix, "\"" + Doubled(inside));
    OpenStaysOpen(WithoutMark(prefix), inside, START);
  }

  lemma RefusedStops(text: string) returns (prefix: string, inside: string)
    requires Parse(text) == Err(UnclosedQuote)
    ensures StopsInside(text, prefix, inside)
  {
    hide Read, Doubled;
    ReadNeverUnclosed(WithoutMark(text), START);
    var later;
    later, inside := LastOpening(WithoutMark(text), START);
    var mark := text[..|text| - |WithoutMark(text)|];
    prefix := mark + later;
    assert WithoutMark(prefix) == later;
  }

  lemma {:induction false} ReadNeverUnclosed(text: string, s: State)
    ensures Read(text, s).Err? ==> Read(text, s).error != UnclosedQuote
    decreases |text|
  {
    hide Read, Taken;
    if text == [] {
      ReadNothing(s);
    } else {
      ReadStep(text, s);
      TakesSome(text, s);
      if Next(text, s).Ok? { ReadNeverUnclosed(text[Taken(text, s)..], Next(text, s).value); }
    }
  }

  /** One record too many, or one field too many in a record, is refused by name. */
  lemma {:induction false} CeilingsRefused(records: seq<Record>, r: Record, rest: string, mark: bool)
    requires Printable(records) && WithinCeilings(records) && WellFormed(r)
    requires |r.cells| > 1_000 || |records| == 100_000
    requires records != [] && records[|records| - 1].ending == CR ==> !Starts(PrintRecord(r) + rest, '\n')
    requires r.ending == CR ==> !Starts(rest, '\n')
    requires mark || !Starts(PrintRecords(records) + (PrintRecord(r) + rest), BYTE_ORDER_MARK)
    ensures Parse(Document(mark, PrintRecords(records) + (PrintRecord(r) + rest)))
         == Err(if |r.cells| > 1_000 then TooManyFields else TooManyRows)
  {
    ReadRecords(records, PrintRecord(r) + rest, START);
    ReadRecord(r, rest, START.(rows := [] + Rows(records)));
  }
}
