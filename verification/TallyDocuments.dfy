/**
 * Well-nested voucher documents, printed one tag to a line, and what the scanner makes of them: its depth is
 * the true nesting, and every field, leg and bill reference is read at the level the document puts it.
 */
module TallyDocuments {
  import opened Text
  import opened TallyScan
  import opened TallyVouchers

  datatype Node =
    | Field(tag: string, attrs: string, raw: string)
    | Idle(line: string)
    | Paragraph(tag: string, attrs: string, first: string, middle: seq<string>, last: string)
    | Branch(tag: string, attrs: string, children: seq<Node>)

  /** Mid-paragraph text that does not close the paragraph's tag. */
  predicate KeepsOpen(tag: string, text: string) { !Contains(Upper(text), CloseTag(Upper(tag))) }

  predicate WellFormed(n: Node)
    decreases n
  {
    match n
    case Field(tag, attrs, _) => IsTagName(tag) && IsAttributes(attrs)
    case Idle(line) => line == "" || ShapeOf(line) == Other
    case Paragraph(tag, attrs, first, middle, last) =>
      && IsTagName(tag) && IsAttributes(attrs) && RunsOn(tag, first)
      && (forall t :: t in middle ==> KeepsOpen(tag, t)) && last != "" && !KeepsOpen(tag, last)
    case Branch(tag, attrs, children) =>
      && IsTagName(tag) && IsAttributes(attrs) && (attrs != [] ==> attrs[|attrs| - 1] != '/') && AllWellFormed(children)
  }

  predicate AllWellFormed(ns: seq<Node>)
    decreases ns
  {
    ns == [] || (WellFormed(ns[0]) && AllWellFormed(ns[1..]))
  }

  function Lines(n: Node): (lines: seq<string>)
    ensures |lines| >= 1
    decreases n
  {
    match n
    case Field(tag, attrs, raw) => [OpenTag(tag, attrs) + (raw + CloseTag(tag))]
    case Idle(line) => [line]
    case Paragraph(tag, attrs, first, middle, last) => [OpenTag(tag, attrs) + first] + middle + [last]
    case Branch(tag, attrs, children) => [OpenTag(tag, attrs)] + LinesOf(children) + [CloseTag(tag)]
  }

  function LinesOf(ns: seq<Node>): seq<string>
    decreases ns
  {
    if ns == [] then [] else Lines(ns[0]) + LinesOf(ns[1..])
  }

  // ---- running over concatenations ---------------------------------------------------------

  lemma {:induction false} RunConcat(o: Options, s: Scan, a: seq<string>, b: seq<string>)
    ensures Run(o, s, a + b) == Run(o, Run(o, s, a), b)
    decreases |b|
  {
    hide Step;
    if b == [] {
      assert a + b == a;
    } else {
      var n := |b| - 1;
      assert (a + b)[..|a + b| - 1] == a + b[..n];
      RunConcat(o, s, a, b[..n]);
    }
  }

  lemma RunOne(o: Options, s: Scan, line: string)
    ensures Run(o, s, [line]) == Step(o, s, line)
  {
    hide Step;
    assert [line][..0] == [];
    assert Run(o, s, [line][..0]) == s;
  }

  lemma RunAround(o: Options, s: Scan, open: string, body: seq<string>, close: string)
    ensures Run(o, s, [open] + body + [close]) == Step(o, Run(o, Step(o, s, open), body), close)
  {
    hide Step;
    RunConcat(o, s, [open] + body, [close]);
    RunConcat(o, s, [open], body);
    RunOne(o, s, open);
    RunOne(o, Run(o, Step(o, s, open), body), close);
  }

  /** Reading voucher content: nothing has failed and no value is running on. */
  predicate Reading(s: Scan) { s.sawEnvelope && s.inVoucher && s.failure == None && s.value == None }

  function Later(s: Scan, n: nat): Scan { s.(line := s.line + n) }

  lemma StepShape(o: Options, s: Scan, line: string, shape: Shape)
    requires Reading(s) && line != "" && ShapeOf(line) == shape
    ensures Step(o, s, line) == Inside(o, Later(s, 1), shape)
  {
    hide Inside, ShapeOf, OpensEnvelope;
  }

  lemma StepOpen(o: Options, s: Scan, tag: string, attrs: string)
    requires Reading(s) && WellFormed(Branch(tag, attrs, []))
    ensures Step(o, s, OpenTag(tag, attrs)) == OnOpen(Later(s, 1), Upper(tag))
  {
    hide Step, OnOpen, Upper, ShapeOf;
    OpenPrinted(tag, attrs);
    StepShape(o, s, OpenTag(tag, attrs), Opens(Upper(tag)));
  }

  lemma StepClose(o: Options, s: Scan, tag: string)
    requires Reading(s) && IsTagName(tag)
    ensures Step(o, s, CloseTag(tag)) == OnClose(o, Later(s, 1), Upper(tag))
  {
    hide Step, OnClose, Upper, ShapeOf;
    ClosePrinted(tag);
    StepShape(o, s, CloseTag(tag), Closes(Upper(tag)));
  }

  lemma FieldRead(o: Options, s: Scan, n: Node)
    requires Reading(s) && n.Field? && WellFormed(n)
    ensures Run(o, s, Lines(n)) == OnField(Later(s, 1), Upper(n.tag), o.clean(n.raw))
  {
    hide Step, OnField, Upper, ShapeOf;
    var line := OpenTag(n.tag, n.attrs) + (n.raw + CloseTag(n.tag));
    CompletePrinted(n.tag, n.attrs, n.raw);
    StepShape(o, s, line, Completes(Upper(n.tag), n.raw));
    RunOne(o, s, line);
  }

  lemma IdleRead(o: Options, s: Scan, n: Node)
    requires Reading(s) && n.Idle? && WellFormed(n)
    ensures Run(o, s, Lines(n)) == Later(s, 1)
  {
    hide ShapeOf;
    RunOne(o, s, n.line);
    if n.line != "" { StepShape(o, s, n.line, Other); }
  }

  lemma {:induction false} MiddleRead(o: Options, s: Scan, tag: string, middle: seq<string>)
    requires s.failure == None && s.value == Some(Upper(tag)) && forall t :: t in middle ==> KeepsOpen(tag, t)
    ensures Run(o, s, middle) == Later(s, |middle|)
    decreases |middle|
  {
    hide Inside, Outside, Upper, Contains, OpensEnvelope, ShapeOf;
    if middle != [] {
      var n := |middle| - 1;
      assert middle[n] in middle && forall t :: t in middle[..n] ==> t in middle;
      MiddleRead(o, s, tag, middle[..n]);
    }
  }

  lemma ParagraphRead(o: Options, s: Scan, n: Node)
    requires Reading(s) && n.Paragraph? && WellFormed(n)
    ensures Run(o, s, Lines(n)) == Later(s, |Lines(n)|)
  {
    hide Upper, ShapeOf, Step, KeepsOpen;
    var open := OpenTag(n.tag, n.attrs) + n.first;
    SpansPrinted(n.tag, n.attrs, n.first);
    StepShape(o, s, open, Spans(Upper(n.tag)));
    RunAround(o, s, open, n.middle, n.last);
    var t := Step(o, s, open);
    MiddleRead(o, t, n.tag, n.middle);
    LastRead(o, Later(t, |n.middle|), n.tag, n.last);
  }

  lemma LastRead(o: Options, s: Scan, tag: string, last: string)
    requires s.failure == None && s.value == Some(Upper(tag)) && last != "" && !KeepsOpen(tag, last)
    ensures Step(o, s, last) == Later(s, 1).(value := None)
  {
    hide Inside, Outside, Upper, Contains, OpensEnvelope, ShapeOf;
  }

  // ---- beneath the levels that are read ----------------------------------------------------------

  function IfNamed(name: string): seq<string> { if name == "" then [] else [name] }

  /** The names at any depth beneath these nodes. */
  function AllNames(o: Options, ns: seq<Node>): seq<string>
    decreases ns
  {
    if ns == [] then []
    else
      var rest := AllNames(o, ns[1..]);
      match ns[0]
      case Field(tag, _, raw) => if Upper(tag) == "NAME" then IfNamed(o.clean(raw)) + rest else rest
      case Branch(_, _, children) => AllNames(o, children) + rest
      case Idle(_) => rest
      case Paragraph(_, _, _, _, _) => rest
  }

  /** The names inside outermost bill allocations beneath these nodes. */
  function BillNames(o: Options, ns: seq<Node>): seq<string>
    decreases ns
  {
    if ns == [] then []
    else
      var rest := BillNames(o, ns[1..]);
      match ns[0]
      case Branch(tag, _, children) =>
        (if Upper(tag) == "BILLALLOCATIONS.LIST" then AllNames(o, children) else BillNames(o, children)) + rest
      case Field(_, _, _) => rest
      case Idle(_) => rest
      case Paragraph(_, _, _, _, _) => rest
  }

  function NamesFrom(o: Options, inBill: bool, ns: seq<Node>): seq<string> {
    if inBill then AllNames(o, ns) else BillNames(o, ns)
  }

  function AddBills(d: Draft, names: seq<string>): Draft
    decreases |names|
  {
    if names == [] then d else AddBill(AddBills(d, names[..|names| - 1]), names[|names| - 1])
  }

  lemma {:induction false} AddBillsConcat(d: Draft, a: seq<string>, b: seq<string>)
    ensures AddBills(d, a + b) == AddBills(AddBills(d, a), b)
    decreases |b|
  {
    if b == [] {
      assert a + b == a;
    } else {
      assert (a + b)[..|a + b| - 1] == a + b[..|b| - 1];
      AddBillsConcat(d, a, b[..|b| - 1]);
    }
  }

  /** Below the voucher's own level and outside a leg's: only bill references can be read here. */
  predicate Beneath(s: Scan) {
    Reading(s) && s.depth >= 1 && (s.depth == 1 ==> s.leg == None) && (s.bill.Some? ==> s.bill.value < s.depth)
  }

  lemma {:induction false} BeneathRead(o: Options, s: Scan, ns: seq<Node>)
    requires Beneath(s) && AllWellFormed(ns)
    ensures Run(o, s, LinesOf(ns))
         == Later(s, |LinesOf(ns)|).(draft := AddBills(s.draft, NamesFrom(o, s.bill.Some?, ns)))
    decreases ns
  {
    hide Step, Run, Upper, AddBills, NamesFrom;
    if ns == [] {
      NothingRead(o, s);
    } else {
      BeneathNode(o, s, ns[0]);
      var t := Run(o, s, Lines(ns[0]));
      BeneathRead(o, t, ns[1..]);
      RunConcat(o, s, Lines(ns[0]), LinesOf(ns[1..]));
      NamesConcat(o, s.bill.Some?, ns);
      AddBillsConcat(s.draft, NamesFrom(o, s.bill.Some?, [ns[0]]), NamesFrom(o, s.bill.Some?, ns[1..]));
    }
  }

  lemma NothingRead(o: Options, s: Scan)
    ensures Run(o, s, LinesOf([])) == s && LinesOf([]) == [] && Later(s, 0) == s
    ensures forall inBill :: NamesFrom(o, inBill, []) == []
    ensures forall d :: AddBills(d, []) == d
  {
  }

  lemma NamesConcat(o: Options, inBill: bool, ns: seq<Node>)
    requires ns != []
    ensures NamesFrom(o, inBill, ns) == NamesFrom(o, inBill, [ns[0]]) + NamesFrom(o, inBill, ns[1..])
  {
    hide Upper;
    assert [ns[0]][1..] == [];
    assert AllNames(o, [ns[0]][1..]) == [] && BillNames(o, [ns[0]][1..]) == [];
  }

  lemma {:induction false} BeneathNode(o: Options, s: Scan, n: Node)
    requires Beneath(s) && WellFormed(n)
    ensures Run(o, s, Lines(n)) == Later(s, |Lines(n)|).(draft := AddBills(s.draft, NamesFrom(o, s.bill.Some?, [n])))
    decreases n
  {
    hide Step, Run, Upper;
    match n
    case Field(tag, attrs, raw) =>
      FieldRead(o, s, n);
      FieldNames(o, s.bill.Some?, n, s.draft);
    case Idle(line) =>
      IdleRead(o, s, n);
      QuietNames(o, s.bill.Some?, n, s.draft);
    case Paragraph(tag, attrs, first, middle, last) =>
      ParagraphRead(o, s, n);
      QuietNames(o, s.bill.Some?, n, s.draft);
    case Branch(tag, attrs, children) =>
      var t := OnOpen(Later(s, 1), Upper(tag));
      StepOpen(o, s, tag, attrs);
      BeneathRead(o, t, children);
      RunAround(o, s, OpenTag(tag, attrs), LinesOf(children), CloseTag(tag));
      StepClose(o, Run(o, t, LinesOf(children)), tag);
      BranchNames(o, s.bill.Some?, n);
  }

  lemma FieldNames(o: Options, inBill: bool, n: Node, d: Draft)
    requires n.Field?
    ensures AddBills(d, NamesFrom(o, inBill, [n])) ==
      if inBill && Upper(n.tag) == "NAME" then AddBill(d, o.clean(n.raw)) else d
  {
    hide Upper;
    NamesConcat(o, inBill, [n]);
    assert AllNames(o, [n][1..]) == [] && BillNames(o, [n][1..]) == [];
    var name := o.clean(n.raw);
    assert AddBills(d, [name][..0]) == d;
    assert AddBills(d, [name]) == AddBill(d, name);
  }

  lemma QuietNames(o: Options, inBill: bool, n: Node, d: Draft)
    requires n.Idle? || n.Paragraph?
    ensures AddBills(d, NamesFrom(o, inBill, [n])) == d
  {
    assert AllNames(o, [n][1..]) == [] && BillNames(o, [n][1..]) == [];
  }

  lemma BranchNames(o: Options, inBill: bool, n: Node)
    requires n.Branch?
    ensures NamesFrom(o, inBill, [n]) == NamesFrom(o, inBill || Upper(n.tag) == BILL_TAG, n.children)
  {
    hide Upper;
    assert AllNames(o, [n][1..]) == [] && BillNames(o, [n][1..]) == [];
  }

  // ---- a leg's own level ---------------------------------------------------------------------------

  /** The cleaned text of the last of these nodes that is a field with this tag; what it was before when none is. */
  function TextOf(o: Options, ns: seq<Node>, tag: string, before: string): string
    decreases |ns|
  {
    if ns == [] then before
    else
      var n := ns[|ns| - 1];
      if n.Field? && Upper(n.tag) == tag then o.clean(n.raw) else TextOf(o, ns[..|ns| - 1], tag, before)
  }

  /** The ledger a leg names at its own level; a repeated tag replaces the earlier one. */
  function LedgerOf(o: Options, ns: seq<Node>, before: string): string { TextOf(o, ns, "LEDGERNAME", before) }

  /** A leg's own figure: the first readable AMOUNT at its own level. */
  function AmountOf(o: Options, ns: seq<Node>): Option<string>
    decreases |ns|
  {
    if ns == [] then None
    else
      var n := ns[0];
      if n.Field? && Upper(n.tag) == "AMOUNT" && ExactRupees(o.clean(n.raw)).Some? then ExactRupees(o.clean(n.raw))
      else AmountOf(o, ns[1..])
  }

  function LegAfter(o: Options, leg: Leg, ns: seq<Node>): Leg {
    Leg(LedgerOf(o, ns, leg.ledger), OrElse(leg.amount, AmountOf(o, ns)))
  }

  predicate AtLeg(s: Scan) { Reading(s) && s.depth == 1 && s.leg.Some? && s.bill == None }

  lemma {:induction false} TextOfFirst(o: Options, ns: seq<Node>, tag: string, before: string)
    requires ns != []
    ensures TextOf(o, ns, tag, before) == TextOf(o, ns[1..], tag, TextOf(o, [ns[0]], tag, before))
    decreases |ns|
  {
    hide Upper;
    if |ns| == 1 {
      assert ns == [ns[0]] && ns[1..] == [];
    } else {
      assert ns[..|ns| - 1][1..] == ns[1..][..|ns| - 2];
      TextOfFirst(o, ns[..|ns| - 1], tag, before);
    }
  }

  lemma {:induction false} LegRead(o: Options, s: Scan, ns: seq<Node>)
    requires AtLeg(s) && AllWellFormed(ns)
    ensures Run(o, s, LinesOf(ns)) == Later(s, |LinesOf(ns)|).(
      leg := Some(LegAfter(o, s.leg.value, ns)), draft := AddBills(s.draft, BillNames(o, ns)))
    decreases |ns|
  {
    hide Step, Run, Upper, AddBills, BillNames, TextOf, AmountOf, Lines;
    if ns == [] {
      NothingRead(o, s);
      NoLegFields(o, s.leg.value);
      assert NamesFrom(o, false, []) == [];
    } else {
      LegNode(o, s, ns[0]);
      var t := Run(o, s, Lines(ns[0]));
      LegRead(o, t, ns[1..]);
      RunConcat(o, s, Lines(ns[0]), LinesOf(ns[1..]));
      NamesConcat(o, false, ns);
      AddBillsConcat(s.draft, BillNames(o, [ns[0]]), BillNames(o, ns[1..]));
      TextOfFirst(o, ns, "LEDGERNAME", s.leg.value.ledger);
      AmountOfFirst(o, ns);
    }
  }

  lemma NoLegFields(o: Options, leg: Leg)
    ensures LegAfter(o, leg, []) == leg
  {
  }

  lemma AmountOfFirst(o: Options, ns: seq<Node>)
    requires ns != []
    ensures AmountOf(o, ns) == OrElse(AmountOf(o, [ns[0]]), AmountOf(o, ns[1..]))
  {
    hide Upper;
    assert AmountOf(o, [ns[0]][1..]) == None;
  }

  /** The figures a leg states at its own level, as they read. */
  function AmountsAt(o: Options, ns: seq<Node>): seq<Option<string>>
    decreases |ns|
  {
    if ns == [] then []
    else
      var n, rest := ns[0], AmountsAt(o, ns[1..]);
      if n.Field? && Upper(n.tag) == "AMOUNT" then [ExactRupees(o.clean(n.raw))] + rest else rest
  }

  predicate NoneReadable(readings: seq<Option<string>>) { forall r :: r in readings ==> r == None }

  lemma {:induction false} NothingReadable(o: Options, ns: seq<Node>)
    ensures AmountOf(o, ns) == None <==> NoneReadable(AmountsAt(o, ns))
    decreases |ns|
  {
    hide Upper, ExactRupees;
    if ns != [] {
      NothingReadable(o, ns[1..]);
      OneReadable(ExactRupees(o.clean(if ns[0].Field? then ns[0].raw else "")), AmountsAt(o, ns[1..]));
    }
  }

  lemma OneReadable(r: Option<string>, rest: seq<Option<string>>)
    ensures NoneReadable([r] + rest) <==> r == None && NoneReadable(rest)
  {
    var all := [r] + rest;
    assert r in all by { assert all[0] == r; }
    assert forall x :: x in rest ==> x in all;
    assert forall x :: x in all ==> x == r || x in rest;
  }

  /** A leg's figure is its first AMOUNT's reading exactly when that one is readable or no later one is. */
  lemma {:induction false} FirstAmountExactlyWhen(o: Options, ns: seq<Node>)
    requires AmountsAt(o, ns) != []
    ensures AmountOf(o, ns) == AmountsAt(o, ns)[0] <==> AmountsAt(o, ns)[0].Some? || NoneReadable(AmountsAt(o, ns)[1..])
    decreases |ns|
  {
    hide Upper, ExactRupees;
    var n := ns[0];
    if n.Field? && Upper(n.tag) == "AMOUNT" {
      NothingReadable(o, ns[1..]);
      assert AmountsAt(o, ns)[1..] == AmountsAt(o, ns[1..]);
    } else {
      FirstAmountExactlyWhen(o, ns[1..]);
    }
  }

  /** A leg whose first AMOUNT is a dash and whose second is 5 is stored at 5. */
  lemma SecondAmountTaken(o: Options)
    requires o.clean("-") == "-" && o.clean("5") == "5"
    ensures AmountsAt(o, [Field("AMOUNT", "", "-"), Field("AMOUNT", "", "5")]) == [None, Some("5.00")]
    ensures AmountOf(o, [Field("AMOUNT", "", "-"), Field("AMOUNT", "", "5")]) == Some("5.00")
  {
    hide Upper, ExactRupees;
    var dash, five := Field("AMOUNT", "", "-"), Field("AMOUNT", "", "5");
    assert Upper("AMOUNT") == "AMOUNT" by { AmountIsUpper(); }
    assert [dash, five][1..] == [five] && [five][1..] == [];
    DashAndFive();
  }

  lemma AmountIsUpper()
    ensures Upper("AMOUNT") == "AMOUNT"
  {
  }

  lemma DashAndFive()
    ensures ExactRupees("-") == None && ExactRupees("5") == Some("5.00")
  {
    assert DropSpaces("-") == "-" && DropSpaces("5") == "5";
    assert "-"[1..] == [] && "5"[..1] == "5";
    assert "5" + ".00" == "5.00";
  }

  lemma LegNode(o: Options, s: Scan, n: Node)
    requires AtLeg(s) && WellFormed(n)
    ensures Run(o, s, Lines(n)) == Later(s, |Lines(n)|).(
      leg := Some(LegAfter(o, s.leg.value, [n])), draft := AddBills(s.draft, BillNames(o, [n])))
  {
    hide Step, Run, Upper, AddBills, BillNames, LedgerOf, AmountOf;
    match n
    case Field(tag, attrs, raw) =>
      FieldRead(o, s, n);
      FieldNames(o, false, n, s.draft);
      OneLegField(o, s.leg.value, n);
    case Idle(line) =>
      IdleRead(o, s, n);
      QuietNames(o, false, n, s.draft);
      OneLegOther(o, s.leg.value, n);
    case Paragraph(tag, attrs, first, middle, last) =>
      ParagraphRead(o, s, n);
      QuietNames(o, false, n, s.draft);
      OneLegOther(o, s.leg.value, n);
    case Branch(tag, attrs, children) =>
      BranchRead(o, s, n);
      OneLegOther(o, s.leg.value, n);
  }

  lemma OneLegField(o: Options, leg: Leg, n: Node)
    requires n.Field?
    ensures LegAfter(o, leg, [n]) == LegField(leg, Upper(n.tag), o.clean(n.raw))
  {
    hide Upper, ExactRupees;
    assert TextOf(o, [n][..0], "LEDGERNAME", leg.ledger) == leg.ledger;
    assert AmountOf(o, [n][1..]) == None;
  }

  lemma OneLegOther(o: Options, leg: Leg, n: Node)
    requires !n.Field?
    ensures LegAfter(o, leg, [n]) == leg
  {
    assert TextOf(o, [n][..0], "LEDGERNAME", leg.ledger) == leg.ledger;
    assert AmountOf(o, [n][1..]) == None;
  }

  /** A list inside a leg, or a list of the voucher's own that is not a leg, is read for bill references alone. */
  lemma BranchRead(o: Options, s: Scan, n: Node)
    requires Reading(s) && n.Branch? && WellFormed(n) && s.bill == None
    requires AtLeg(s) || (s.depth == 0 && s.leg == None && !IsLegTag(Upper(n.tag)))
    ensures Run(o, s, Lines(n)) == Later(s, |Lines(n)|).(draft := AddBills(s.draft, BillNames(o, [n])))
  {
    hide Step, Run, Upper, AddBills, BillNames, AllNames;
    var t := OnOpen(Later(s, 1), Upper(n.tag));
    StepOpen(o, s, n.tag, n.attrs);
    BeneathRead(o, t, n.children);
    RunAround(o, s, OpenTag(n.tag, n.attrs), LinesOf(n.children), CloseTag(n.tag));
    StepClose(o, Run(o, t, LinesOf(n.children)), n.tag);
    BranchNames(o, false, n);
  }

  // ---- the voucher's own level -----------------------------------------------------------------------

  predicate AtTop(s: Scan) { Reading(s) && s.depth == 0 && s.leg == None && s.bill == None }

  /** What one child of a voucher contributes, read off the document's structure. */
  function AbsorbOne(o: Options, d: Draft, n: Node): Draft {
    match n
    case Field(tag, _, raw) => DirectField(d, Upper(tag), o.clean(raw))
    case Branch(tag, _, children) =>
      if IsLegTag(Upper(tag)) then
        AddEntry(AddBills(d, BillNames(o, children)), Leg(LedgerOf(o, children, ""), AmountOf(o, children)))
      else AddBills(d, BillNames(o, [n]))
    case Idle(_) => d
    case Paragraph(_, _, _, _, _) => d
  }

  function Absorb(o: Options, d: Draft, ns: seq<Node>): Draft
    decreases |ns|
  {
    if ns == [] then d else Absorb(o, AbsorbOne(o, d, ns[0]), ns[1..])
  }

  /**
   * On a well-nested body the scanner reads direct fields, legs and bill references exactly where the document
   * puts them, and comes back to the level it started from.
   */
  lemma {:induction false} BodyRead(o: Options, s: Scan, ns: seq<Node>)
    requires AtTop(s) && AllWellFormed(ns)
    ensures Run(o, s, LinesOf(ns)) == Later(s, |LinesOf(ns)|).(draft := Absorb(o, s.draft, ns))
    decreases |ns|
  {
    hide Step, Run, AbsorbOne, Lines, WellFormed;
    if ns == [] {
      NothingRead(o, s);
    } else {
      BodyNode(o, s, ns[0]);
      BodyRead(o, Run(o, s, Lines(ns[0])), ns[1..]);
      RunConcat(o, s, Lines(ns[0]), LinesOf(ns[1..]));
    }
  }

  lemma BodyNode(o: Options, s: Scan, n: Node)
    requires AtTop(s) && WellFormed(n)
    ensures Run(o, s, Lines(n)) == Later(s, |Lines(n)|).(draft := AbsorbOne(o, s.draft, n))
  {
    hide Step, Run, Upper, DirectField, AddBills, BillNames, IsLegTag;
    match n
    case Field(tag, attrs, raw) => FieldRead(o, s, n);
    case Idle(line) => IdleRead(o, s, n);
    case Paragraph(tag, attrs, first, middle, last) => ParagraphRead(o, s, n);
    case Branch(tag, attrs, children) =>
      if IsLegTag(Upper(tag)) { EntryRead(o, s, n); } else { BranchRead(o, s, n); }
  }

  lemma EntryRead(o: Options, s: Scan, n: Node)
    requires AtTop(s) && n.Branch? && WellFormed(n) && IsLegTag(Upper(n.tag))
    ensures var leg := Leg(LedgerOf(o, n.children, ""), AmountOf(o, n.children));
      Run(o, s, Lines(n)) ==
        Later(s, |Lines(n)|).(draft := AddEntry(AddBills(s.draft, BillNames(o, n.children)), leg))
  {
    hide Step, Run, Upper, AddBills, BillNames, AddEntry, LedgerOf, AmountOf;
    var t := OnOpen(Later(s, 1), Upper(n.tag));
    StepOpen(o, s, n.tag, n.attrs);
    LegRead(o, t, n.children);
    RunAround(o, s, OpenTag(n.tag, n.attrs), LinesOf(n.children), CloseTag(n.tag));
    StepClose(o, Run(o, t, LinesOf(n.children)), n.tag);
  }

  // ---- depth is nesting, line by line --------------------------------------------------------------------

  /** How many lists stand open after the first k lines. */
  function OpenLists(ns: seq<Node>, k: nat): nat
    requires k <= |LinesOf(ns)|
    decreases ns
  {
    if ns == [] then 0
    else if k >= |Lines(ns[0])| then OpenLists(ns[1..], k - |Lines(ns[0])|)
    else OpenWithin(ns[0], k)
  }

  function OpenWithin(n: Node, k: nat): nat
    requires k < |Lines(n)|
    decreases n
  {
    if n.Branch? && k > 0 then 1 + OpenLists(n.children, k - 1) else 0
  }

  /** Still inside the same voucher, d levels further down, with nothing imported or refused meanwhile. */
  predicate Deeper(s: Scan, t: Scan, d: nat) {
    && t.inVoucher && t.failure == None && t.sawEnvelope && t.sawEnvelopeEnd == s.sawEnvelopeEnd
    && t.records == s.records && t.refusals == s.refusals && t.voucherCount == s.voucherCount
    && t.depth == s.depth + d
  }

  lemma {:induction false} WholeBody(o: Options, s: Scan, ns: seq<Node>)
    requires Reading(s) && AllWellFormed(ns)
    ensures var t := Run(o, s, LinesOf(ns)); Reading(t) && Deeper(s, t, 0)
    decreases ns
  {
    hide Step, Run, Lines;
    if ns == [] {
      NothingRead(o, s);
    } else {
      WholeNode(o, s, ns[0]);
      WholeBody(o, Run(o, s, Lines(ns[0])), ns[1..]);
      RunConcat(o, s, Lines(ns[0]), LinesOf(ns[1..]));
    }
  }

  lemma OpenIsDeeper(s: Scan, tag: string)
    requires Reading(s)
    ensures var t := OnOpen(Later(s, 1), tag); Reading(t) && Deeper(s, t, 1)
  {
    hide AddEntry, IsLegTag;
  }

  lemma CloseIsShallower(o: Options, s: Scan, t: Scan, tag: string)
    requires Reading(s) && Reading(t) && Deeper(s, t, 1)
    ensures var u := OnClose(o, Later(t, 1), tag); Reading(u) && Deeper(s, u, 0)
  {
    hide AddEntry, IsLegTag, Finish;
  }

  lemma {:induction false} WholeNode(o: Options, s: Scan, n: Node)
    requires Reading(s) && WellFormed(n)
    ensures var t := Run(o, s, Lines(n)); Reading(t) && Deeper(s, t, 0)
    decreases n
  {
    hide Step, Run, Upper, DirectField, LegField, AddBill, OnOpen, OnClose;
    match n
    case Field(tag, attrs, raw) => FieldRead(o, s, n);
    case Idle(line) => IdleRead(o, s, n);
    case Paragraph(tag, attrs, first, middle, last) => ParagraphRead(o, s, n);
    case Branch(tag, attrs, children) =>
      var t := OnOpen(Later(s, 1), Upper(tag));
      StepOpen(o, s, tag, attrs);
      OpenIsDeeper(s, Upper(tag));
      WholeBody(o, t, children);
      RunAround(o, s, OpenTag(tag, attrs), LinesOf(children), CloseTag(tag));
      StepClose(o, Run(o, t, LinesOf(children)), tag);
      CloseIsShallower(o, s, Run(o, t, LinesOf(children)), Upper(tag));
  }

  /** After every line of a well-nested body the scanner's depth has grown by exactly the lists standing open. */
  lemma {:induction false} DepthIsNesting(o: Options, s: Scan, ns: seq<Node>, k: nat)
    requires Reading(s) && AllWellFormed(ns) && k <= |LinesOf(ns)|
    ensures Deeper(s, Run(o, s, LinesOf(ns)[..k]), OpenLists(ns, k))
    decreases ns
  {
    hide Step, Lines;
    if ns == [] {
    } else {
      var head, tail := Lines(ns[0]), LinesOf(ns[1..]);
      if k >= |head| {
        WholeNode(o, s, ns[0]);
        DepthIsNesting(o, Run(o, s, head), ns[1..], k - |head|);
        assert (head + tail)[..k] == head + tail[..k - |head|];
        RunConcat(o, s, head, tail[..k - |head|]);
      } else {
        assert (head + tail)[..k] == head[..k];
        DepthWithin(o, s, ns[0], k);
      }
    }
  }

  lemma {:induction false} DepthWithin(o: Options, s: Scan, n: Node, k: nat)
    requires Reading(s) && WellFormed(n) && k < |Lines(n)|
    ensures Deeper(s, Run(o, s, Lines(n)[..k]), OpenWithin(n, k))
    decreases n
  {
    hide Step, Upper, OnOpen, Run;
    if k == 0 {
      assert Lines(n)[..0] == [];
      NothingRead(o, s);
    } else if n.Paragraph? {
      ParagraphPrefix(o, s, n, k);
    } else {
      assert n.Branch?;
      var open, body := OpenTag(n.tag, n.attrs), LinesOf(n.children);
      var t := OnOpen(Later(s, 1), Upper(n.tag));
      StepOpen(o, s, n.tag, n.attrs);
      OpenIsDeeper(s, Upper(n.tag));
      DepthIsNesting(o, t, n.children, k - 1);
      assert Lines(n)[..k] == [open] + body[..k - 1];
      RunConcat(o, s, [open], body[..k - 1]);
      RunOne(o, s, open);
    }
  }

  lemma ParagraphPrefix(o: Options, s: Scan, n: Node, k: nat)
    requires Reading(s) && n.Paragraph? && WellFormed(n) && 0 < k < |Lines(n)|
    ensures Deeper(s, Run(o, s, Lines(n)[..k]), 0)
  {
    hide Step, Upper, ShapeOf, KeepsOpen;
    var open := OpenTag(n.tag, n.attrs) + n.first;
    SpansPrinted(n.tag, n.attrs, n.first);
    StepShape(o, s, open, Spans(Upper(n.tag)));
    assert Lines(n)[..k] == [open] + n.middle[..k - 1];
    RunConcat(o, s, [open], n.middle[..k - 1]);
    RunOne(o, s, open);
    assert forall t :: t in n.middle[..k - 1] ==> t in n.middle;
    MiddleRead(o, Step(o, s, open), n.tag, n.middle[..k - 1]);
  }

  // ---- a whole export ----------------------------------------------------------------------------------------

  datatype Part = Noise(line: string) | Element(tag: string, attrs: string, children: seq<Node>)

  predicate WellFormedPart(p: Part) {
    match p
    case Noise(line) => line == "" || (!OpensVoucher(line) && !ClosesEnvelope(line))
    case Element(tag, attrs, children) => Upper(tag) == "VOUCHER" && WellFormed(Branch(tag, attrs, children))
  }

  function PartLines(p: Part): seq<string> {
    match p
    case Noise(line) => [line]
    case Element(tag, attrs, children) => Lines(Branch(tag, attrs, children))
  }

  function PartsLines(ps: seq<Part>): seq<string>
    decreases |ps|
  {
    if ps == [] then [] else PartLines(ps[0]) + PartsLines(ps[1..])
  }

  /** Between two vouchers of an export whose envelope has opened. */
  predicate Between(s: Scan) { s.sawEnvelope && !s.inVoucher && s.value == None }

  /** The voucher a document element describes, judged where its closing tag stands. */
  function PartMeaning(o: Options, s: Scan, p: Part): Scan {
    if s.failure.Some? then s
    else
      match p
      case Noise(_) => Later(s, 1)
      case Element(tag, attrs, children) =>
        var body := Later(s, |PartLines(p)|).(
          inVoucher := true, draft := Absorb(o, NewDraft(s.line + 1), children), depth := 0, leg := None, bill := None);
        Finish(o, body).(inVoucher := false)
  }

  function PartsMeaning(o: Options, s: Scan, ps: seq<Part>): Scan
    decreases |ps|
  {
    if ps == [] then s else PartsMeaning(o, PartMeaning(o, s, ps[0]), ps[1..])
  }

  lemma {:induction false} RunFailed(o: Options, s: Scan, lines: seq<string>)
    requires s.failure.Some?
    ensures Run(o, s, lines) == s
    decreases |lines|
  {
    if lines != [] { RunFailed(o, s, lines[..|lines| - 1]); }
  }

  lemma VoucherOpens(tag: string, attrs: string)
    requires Upper(tag) == "VOUCHER" && WellFormed(Branch(tag, attrs, []))
    ensures var line := OpenTag(tag, attrs);
      line != "" && OpensVoucher(line) && !ClosesItself(line) && !ClosesEnvelope(line)
  {
    var line := OpenTag(tag, attrs);
    NotSelfClosing(tag, attrs);
    assert |tag| == |Upper(tag)| == 7;
    assert line[..8] == "<" + tag;
    assert Upper("<" + tag) == "<" + Upper(tag);
    assert line[8] == if attrs == [] then '>' else attrs[0];
    assert line[1] == tag[0] && IsTagChar(tag[0]);
  }

  lemma OpenVoucherStep(o: Options, s: Scan, tag: string, attrs: string)
    requires Between(s) && s.failure == None && Upper(tag) == "VOUCHER" && WellFormed(Branch(tag, attrs, []))
    ensures Step(o, s, OpenTag(tag, attrs))
         == Later(s, 1).(inVoucher := true, draft := NewDraft(s.line + 1), depth := 0, leg := None, bill := None)
  {
    hide Upper, OpensVoucher, ClosesItself, ClosesEnvelope, NewDraft, OpensEnvelope, ShapeOf;
    VoucherOpens(tag, attrs);
  }

  lemma ElementRead(o: Options, s: Scan, p: Part)
    requires Between(s) && s.failure == None && p.Element? && WellFormedPart(p)
    ensures Run(o, s, PartLines(p)) == PartMeaning(o, s, p)
  {
    hide Step, Run, Upper, Finish, Absorb, NewDraft;
    OpenVoucherStep(o, s, p.tag, p.attrs);
    var t := Step(o, s, OpenTag(p.tag, p.attrs));
    BodyRead(o, t, p.children);
    RunAround(o, s, OpenTag(p.tag, p.attrs), LinesOf(p.children), CloseTag(p.tag));
    StepClose(o, Run(o, t, LinesOf(p.children)), p.tag);
  }

  lemma NoiseRead(o: Options, s: Scan, line: string)
    requires Between(s) && s.failure == None && WellFormedPart(Noise(line))
    ensures Run(o, s, [line]) == Later(s, 1)
  {
    hide OpensVoucher, ClosesEnvelope, OpensEnvelope;
    RunOne(o, s, line);
  }

  lemma PartRead(o: Options, s: Scan, p: Part)
    requires Between(s) && WellFormedPart(p)
    ensures Run(o, s, PartLines(p)) == PartMeaning(o, s, p) && Between(PartMeaning(o, s, p))
    ensures PartMeaning(o, s, p).sawEnvelopeEnd == s.sawEnvelopeEnd
  {
    hide Step, Run, Decide, RecordOf, Absorb;
    if s.failure.Some? {
      RunFailed(o, s, PartLines(p));
    } else if p.Noise? {
      NoiseRead(o, s, p.line);
    } else {
      ElementRead(o, s, p);
    }
  }

  lemma {:induction false} PartsRead(o: Options, s: Scan, ps: seq<Part>)
    requires Between(s) && forall p :: p in ps ==> WellFormedPart(p)
    ensures Run(o, s, PartsLines(ps)) == PartsMeaning(o, s, ps) && Between(PartsMeaning(o, s, ps))
    ensures PartsMeaning(o, s, ps).sawEnvelopeEnd == s.sawEnvelopeEnd
    decreases |ps|
  {
    hide Step, Run, PartMeaning, PartLines, WellFormedPart;
    if ps == [] {
      NothingRead(o, s);
    } else {
      assert ps[0] in ps && forall p :: p in ps[1..] ==> p in ps;
      PartRead(o, s, ps[0]);
      PartsRead(o, PartMeaning(o, s, ps[0]), ps[1..]);
      RunConcat(o, s, PartLines(ps[0]), PartsLines(ps[1..]));
    }
  }

  datatype Export = Export(preamble: seq<string>, opening: string, parts: seq<Part>, closing: string)

  /** A line before the envelope: blank, or one of the first twenty and no tag the scanner looks for. */
  predicate IsPreamble(line: string, index: nat) {
    line == "" || (index < 20 && !OpensEnvelope(line) && !OpensVoucher(line) && !ClosesEnvelope(line))
  }

  predicate AllPreamble(lines: seq<string>) { forall i :: 0 <= i < |lines| ==> IsPreamble(lines[i], i) }

  predicate WellFormedExport(e: Export) {
    && AllPreamble(e.preamble) && OpensEnvelope(e.opening) && ClosesEnvelope(e.closing)
    && forall p :: p in e.parts ==> WellFormedPart(p)
  }

  function ExportLines(e: Export): seq<string> { e.preamble + ([e.opening] + PartsLines(e.parts) + [e.closing]) }

  /** The scanner behind an envelope that opened on this line. */
  function Opened(line: nat): Scan { START.(line := line, sawEnvelope := true) }

  lemma PreambleLine(o: Options, line: string, index: nat)
    requires IsPreamble(line, index)
    ensures Step(o, START.(line := index), line) == START.(line := index + 1)
  {
    hide OpensVoucher, ClosesEnvelope, OpensEnvelope, Inside;
  }

  lemma {:induction false} PreambleRead(o: Options, lines: seq<string>)
    requires AllPreamble(lines)
    ensures Run(o, START, lines) == START.(line := |lines|)
    decreases |lines|
  {
    hide Step, IsPreamble;
    if lines != [] {
      var n := |lines| - 1;
      assert forall i :: 0 <= i < n ==> lines[..n][i] == lines[i];
      PreambleRead(o, lines[..n]);
      PreambleLine(o, lines[n], n);
    }
  }

  lemma OpeningRead(o: Options, before: nat, opening: string)
    requires OpensEnvelope(opening)
    ensures Step(o, START.(line := before), opening) == Opened(before + 1)
  {
    assert opening[0] == '<' && opening[1] == 'E';
    assert opening[..8][1] == 'E';
    assert !OpensVoucher(opening) && !ClosesEnvelope(opening);
  }

  lemma ClosingRead(o: Options, s: Scan, closing: string)
    requires Between(s) && s.failure == None && ClosesEnvelope(closing)
    ensures Step(o, s, closing) == Later(s, 1).(sawEnvelopeEnd := true)
  {
    assert closing[1] == '/';
    assert !OpensVoucher(closing) by { assert closing[..8][1] == '/'; }
    hide OpensVoucher, ClosesEnvelope, OpensEnvelope;
  }

  // ---- the lines a file is told by -----------------------------------------------------------------

  ghost predicate BeginsEnvelope(line: string) { exists rest :: line == "<ENVELOPE" + rest }

  ghost predicate EndsEnvelope(line: string) { exists rest :: line == "</ENVELOPE" + rest }

  ghost predicate BeginsVoucher(line: string) {
    exists tag, c, rest :: Upper(tag) == "VOUCHER" && (IsSpace(c) || c == '>') && line == "<" + tag + ([c] + rest)
  }

  lemma EnvelopeLines(line: string)
    ensures OpensEnvelope(line) <==> BeginsEnvelope(line)
    ensures ClosesEnvelope(line) <==> EndsEnvelope(line)
  {
    if OpensEnvelope(line) { assert line == "<ENVELOPE" + line[9..]; }
    if ClosesEnvelope(line) { assert line == "</ENVELOPE" + line[10..]; }
  }

  lemma VoucherLines(line: string)
    ensures OpensVoucher(line) <==> BeginsVoucher(line)
  {
    if OpensVoucher(line) {
      var tag := line[1..8];
      assert line == [line[0]] + tag + ([line[8]] + line[9..]);
      assert Upper(line[..8])[0] == '<';
      assert Upper(tag) == Upper(line[..8])[1..];
    }
    if BeginsVoucher(line) {
      var tag, c, rest :| Upper(tag) == "VOUCHER" && (IsSpace(c) || c == '>') && line == "<" + tag + ([c] + rest);
      assert |tag| == 7 && line[..8] == "<" + tag && line[8] == c;
    }
  }

  /** An element that opens and closes itself on one line is no voucher. */
  lemma SelfClosedVoucher(o: Options, s: Scan, line: string)
    requires Between(s) && s.failure == None && BeginsVoucher(line) && |line| >= 2 && line[|line| - 2..] == "/>"
    ensures var t := Step(o, s, line);
      && Between(t) && t.failure == None && t.line == s.line + 1 && t.voucherCount == s.voucherCount
      && t.records == s.records && t.refusals == s.refusals && t.sawEnvelopeEnd == s.sawEnvelopeEnd
  {
    hide OpensVoucher, BeginsVoucher, NewDraft, OpensEnvelope, ClosesEnvelope;
    VoucherLines(line);
    assert line[1] != '/' by { BeginsWithoutSlash(line); }
    assert !ClosesEnvelope(line) by { EnvelopeLines(line); }
  }

  lemma BeginsWithoutSlash(line: string)
    requires BeginsVoucher(line)
    ensures |line| >= 2 && line[1] != '/'
  {
    var tag, c, rest :| Upper(tag) == "VOUCHER" && (IsSpace(c) || c == '>') && line == "<" + tag + ([c] + rest);
    assert |tag| == 7 && line[1] == tag[0] && UpperChar(tag[0]) == 'V';
  }

  /** Before its envelope a file is read in vain: the reader stays where it started, or has refused it. */
  predicate BeforeEnvelope(s: Scan, read: nat) {
    || s.failure == Some(NoEnvelope)
    || (s.failure == None && !s.sawEnvelope && !s.inVoucher && s.value == None && s.line == read)
  }

  lemma LineBeforeEnvelope(o: Options, s: Scan, line: string, read: nat)
    requires BeforeEnvelope(s, read) && !OpensEnvelope(line) && !OpensVoucher(line)
    ensures BeforeEnvelope(Step(o, s, line), read + 1)
  {
    hide OpensVoucher, OpensEnvelope, ClosesEnvelope, Inside;
  }

  lemma {:induction false} NothingBeforeEnvelope(o: Options, lines: seq<string>)
    requires forall l :: l in lines ==> !BeginsEnvelope(l) && !BeginsVoucher(l)
    ensures BeforeEnvelope(Run(o, START, lines), |lines|)
    decreases |lines|
  {
    hide OpensVoucher, BeginsVoucher, OpensEnvelope, BeginsEnvelope, Step;
    if lines != [] {
      var n := |lines| - 1;
      assert lines[n] in lines && forall l :: l in lines[..n] ==> l in lines;
      NothingBeforeEnvelope(o, lines[..n]);
      EnvelopeLines(lines[n]);
      VoucherLines(lines[n]);
      LineBeforeEnvelope(o, Run(o, START, lines[..n]), lines[n], n);
    }
  }

  /**
   * A file without an envelope is refused as no Tally export, and so is one whose first twenty lines show neither an
   * envelope nor a voucher and whose next line with any ink is no envelope.
   */
  lemma EnvelopeExpected(o: Options, lines: seq<string>, k: nat)
    requires k <= |lines|
    requires forall i :: 0 <= i < k ==> !BeginsEnvelope(Trim(lines[i])) && !BeginsVoucher(Trim(lines[i]))
    requires k == |lines| || (k >= 20 && Trim(lines[k]) != "" && !BeginsEnvelope(Trim(lines[k])))
    ensures ReadAll(o, lines) == Refused(NoEnvelope)
  {
    hide OpensVoucher, BeginsVoucher, OpensEnvelope, ClosesEnvelope, BeginsEnvelope, Trim, Inside, Outside;
    var t := TrimAll(lines);
    forall l | l in t[..k] ensures !BeginsEnvelope(l) && !BeginsVoucher(l) {
      var i :| 0 <= i < k && t[..k][i] == l;
      assert t[i] == Trim(lines[i]);
    }
    NothingBeforeEnvelope(o, t[..k]);
    if k < |lines| {
      var s := Run(o, START, t[..k]);
      EnvelopeLines(t[k]);
      assert Step(o, s, t[k]).failure == Some(NoEnvelope);
      assert t == t[..k] + ([t[k]] + t[k + 1..]);
      RunConcat(o, START, t[..k], [t[k]] + t[k + 1..]);
      RunConcat(o, s, [t[k]], t[k + 1..]);
      RunOne(o, s, t[k]);
      RunFailed(o, Step(o, s, t[k]), t[k + 1..]);
    } else {
      assert t[..k] == t;
    }
  }

  /** A whole export, however its lines are indented, yields exactly what its document structure says. */
  lemma ExportRead(o: Options, lines: seq<string>, e: Export)
    requires WellFormedExport(e) && TrimAll(lines) == ExportLines(e)
    ensures var s := PartsMeaning(o, Opened(|e.preamble| + 1), e.parts);
      ReadAll(o, lines) ==
        if s.failure.Some? then Refused(s.failure.value) else Read(s.records, s.voucherCount, s.refusals)
  {
    hide Step, Run, PartsMeaning, PartsLines, WellFormedPart, TrimAll, AllPreamble;
    var n := |e.preamble|;
    PreambleRead(o, e.preamble);
    RunConcat(o, START, e.preamble, [e.opening] + PartsLines(e.parts) + [e.closing]);
    OpeningRead(o, n, e.opening);
    PartsRead(o, Opened(n + 1), e.parts);
    RunAround(o, START.(line := n), e.opening, PartsLines(e.parts), e.closing);
    var s := PartsMeaning(o, Opened(n + 1), e.parts);
    if s.failure.Some? {
      RunFailed(o, s, [e.closing]);
      RunOne(o, s, e.closing);
    } else {
      ClosingRead(o, s, e.closing);
    }
  }

  // ---- a file that stops early ---------------------------------------------------------------------------------

  predicate Unfinished(s: Scan) { s.failure.Some? || (s.sawEnvelope && (s.inVoucher || !s.sawEnvelopeEnd)) }

  lemma ElementPrefix(o: Options, s: Scan, p: Part, k: nat)
    requires Between(s) && s.failure == None && !s.sawEnvelopeEnd
    requires p.Element? && WellFormedPart(p) && k < |PartLines(p)|
    ensures Unfinished(Run(o, s, PartLines(p)[..k]))
  {
    hide Step, Upper, NewDraft;
    var open, body := OpenTag(p.tag, p.attrs), LinesOf(p.children);
    if k == 0 {
      assert PartLines(p)[..0] == [];
    } else {
      OpenVoucherStep(o, s, p.tag, p.attrs);
      var t := Step(o, s, open);
      DepthIsNesting(o, t, p.children, k - 1);
      assert PartLines(p)[..k] == [open] + body[..k - 1];
      RunConcat(o, s, [open], body[..k - 1]);
      RunOne(o, s, open);
    }
  }

  lemma {:induction false} PartsPrefix(o: Options, s: Scan, ps: seq<Part>, k: nat)
    requires Between(s) && !s.sawEnvelopeEnd && (forall p :: p in ps ==> WellFormedPart(p)) && k <= |PartsLines(ps)|
    ensures Unfinished(Run(o, s, PartsLines(ps)[..k]))
    decreases |ps|
  {
    hide Step, PartMeaning, PartLines, WellFormedPart;
    if s.failure.Some? {
      RunFailed(o, s, PartsLines(ps)[..k]);
    } else if ps == [] {
      assert PartsLines(ps)[..k] == [];
    } else {
      var head, tail := PartLines(ps[0]), PartsLines(ps[1..]);
      assert ps[0] in ps && forall p :: p in ps[1..] ==> p in ps;
      if k >= |head| {
        PartRead(o, s, ps[0]);
        PartsPrefix(o, PartMeaning(o, s, ps[0]), ps[1..], k - |head|);
        assert (head + tail)[..k] == head + tail[..k - |head|];
        RunConcat(o, s, head, tail[..k - |head|]);
      } else {
        assert (head + tail)[..k] == head[..k];
        if ps[0].Element? { ElementPrefix(o, s, ps[0], k); } else { NoisePrefix(o, s, ps[0], k); }
      }
    }
  }

  lemma NoisePrefix(o: Options, s: Scan, p: Part, k: nat)
    requires p.Noise? && k < |PartLines(p)|
    ensures Run(o, s, PartLines(p)[..k]) == s
  {
    assert PartLines(p)[..k] == [];
  }

  /** Every proper line-prefix of an export is refused, so nothing of it is imported. */
  lemma TruncatedExportRefused(o: Options, lines: seq<string>, e: Export, k: nat)
    requires WellFormedExport(e) && TrimAll(lines) == ExportLines(e) && k < |lines|
    ensures ReadAll(o, lines[..k]).Refused?
  {
    hide Step, PartsLines, WellFormedPart, TrimAll, AllPreamble;
    var n, body := |e.preamble|, PartsLines(e.parts);
    TrimPrefix(lines, k);
    if k <= n {
      assert TrimAll(lines[..k]) == e.preamble[..k];
      assert AllPreamble(e.preamble[..k]) by { PreamblePrefix(e.preamble, k); }
      PreambleRead(o, e.preamble[..k]);
    } else {
      assert TrimAll(lines[..k]) == e.preamble + ([e.opening] + body[..k - n - 1]);
      PreambleRead(o, e.preamble);
      RunConcat(o, START, e.preamble, [e.opening] + body[..k - n - 1]);
      RunConcat(o, START.(line := n), [e.opening], body[..k - n - 1]);
      RunOne(o, START.(line := n), e.opening);
      OpeningRead(o, n, e.opening);
      PartsPrefix(o, Opened(n + 1), e.parts, k - n - 1);
    }
  }

  lemma PreamblePrefix(lines: seq<string>, k: nat)
    requires AllPreamble(lines) && k <= |lines|
    ensures AllPreamble(lines[..k])
  {
  }

  lemma TrimPrefix(lines: seq<string>, k: nat)
    requires k <= |lines|
    ensures TrimAll(lines[..k]) == TrimAll(lines)[..k]
  {
  }

  // ---- what bill references are --------------------------------------------------------------------------------

  /** The names at the bill allocation's own level. */
  function OwnNames(o: Options, ns: seq<Node>): seq<string>
    decreases |ns|
  {
    if ns == [] then []
    else
      var rest := OwnNames(o, ns[1..]);
      if ns[0].Field? && Upper(ns[0].tag) == "NAME" then IfNamed(o.clean(ns[0].raw)) + rest else rest
  }

  /** The names further down. */
  function DeepNames(o: Options, ns: seq<Node>): seq<string>
    decreases |ns|
  {
    if ns == [] then []
    else
      var rest := DeepNames(o, ns[1..]);
      if ns[0].Branch? then AllNames(o, ns[0].children) + rest else rest
  }

  lemma {:induction false} NamesCounted(o: Options, ns: seq<Node>)
    ensures |AllNames(o, ns)| == |OwnNames(o, ns)| + |DeepNames(o, ns)|
    ensures DeepNames(o, ns) == [] ==> AllNames(o, ns) == OwnNames(o, ns)
    decreases |ns|
  {
    hide Upper;
    if ns != [] { NamesCounted(o, ns[1..]); }
  }

  /** As many of the names as the ceiling leaves room for. */
  function Fitting(d: Draft, names: seq<string>): seq<string>
    requires |d.billReferences| <= MAX_MATCH_KEYS
  {
    if |names| <= MAX_MATCH_KEYS - |d.billReferences| then names else names[..MAX_MATCH_KEYS - |d.billReferences|]
  }

  lemma {:induction false} AddBillsFitting(d: Draft, names: seq<string>)
    requires |d.billReferences| <= MAX_MATCH_KEYS && "" !in names
    ensures AddBills(d, names) == d.(billReferences := d.billReferences + Fitting(d, names))
    decreases |names|
  {
    hide AddBill, Fitting;
    NoneFitting(d);
    if names != [] {
      var init, last := names[..|names| - 1], names[|names| - 1];
      assert last in names && "" !in init;
      AddBillsFitting(d, init);
      assert names == init + [last];
      FittingSnoc(d, init, last);
    }
  }

  lemma NoneFitting(d: Draft)
    requires |d.billReferences| <= MAX_MATCH_KEYS
    ensures d.(billReferences := d.billReferences + Fitting(d, [])) == d
  {
  }

  lemma FittingSnoc(d: Draft, init: seq<string>, last: string)
    requires |d.billReferences| <= MAX_MATCH_KEYS && last != ""
    ensures AddBill(d.(billReferences := d.billReferences + Fitting(d, init)), last)
         == d.(billReferences := d.billReferences + Fitting(d, init + [last]))
  {
    var room := MAX_MATCH_KEYS - |d.billReferences|;
    assert |init| >= room ==> Fitting(d, init + [last]) == Fitting(d, init) == init[..room];
    assert |init| < room ==>
      Fitting(d, init) == init && d.billReferences + (init + [last]) == d.billReferences + init + [last];
  }

  lemma {:induction false} NamesAreNamed(o: Options, ns: seq<Node>)
    ensures "" !in AllNames(o, ns) && "" !in OwnNames(o, ns)
    decreases ns
  {
    hide Upper;
    if ns != [] {
      NamesAreNamed(o, ns[1..]);
      if ns[0].Branch? { NamesAreNamed(o, ns[0].children); }
    }
  }

  /**
   * A bill allocation's references are its own names exactly when nothing beneath it carries a NAME as well; past
   * the ceiling, exactly when the names that still fit are the same.
   */
  lemma OwnLevelOnly(o: Options, d: Draft, ns: seq<Node>)
    requires |d.billReferences| <= MAX_MATCH_KEYS
    ensures AllNames(o, ns) == OwnNames(o, ns) <==> DeepNames(o, ns) == []
    ensures AddBills(d, AllNames(o, ns)) == AddBills(d, OwnNames(o, ns)) <==>
      Fitting(d, AllNames(o, ns)) == Fitting(d, OwnNames(o, ns))
    ensures |d.billReferences| + |AllNames(o, ns)| <= MAX_MATCH_KEYS ==>
      (AddBills(d, AllNames(o, ns)) == AddBills(d, OwnNames(o, ns)) <==> DeepNames(o, ns) == [])
  {
    hide AllNames, OwnNames, DeepNames, AddBills;
    var a, b := AllNames(o, ns), OwnNames(o, ns);
    NamesCounted(o, ns);
    NamesAreNamed(o, ns);
    AddBillsFitting(d, a);
    AddBillsFitting(d, b);
    if d.billReferences + Fitting(d, a) == d.billReferences + Fitting(d, b) {
      assert Fitting(d, a) == (d.billReferences + Fitting(d, a))[|d.billReferences|..];
      assert Fitting(d, b) == (d.billReferences + Fitting(d, b))[|d.billReferences|..];
    }
  }

  /** A cost category inside a bill allocation is collected as a second document number. */
  lemma CostCategoryCollected(o: Options)
    requires o.clean("INV-1") == "INV-1" && o.clean("Freight") == "Freight"
    ensures var category := Branch("CATEGORYALLOCATIONS.LIST", "", [Field("NAME", "", "Freight")]);
      BillNames(o, [Branch(BILL_TAG, "", [Field("NAME", "", "INV-1"), category])]) == ["INV-1", "Freight"]
  {
    var name := Field("NAME", "", "Freight");
    var own := Field("NAME", "", "INV-1");
    var category := Branch("CATEGORYALLOCATIONS.LIST", "", [name]);
    assert Upper("NAME") == "NAME" && Upper(BILL_TAG) == BILL_TAG;
    assert AllNames(o, [name][1..]) == [];
    assert AllNames(o, [name]) == ["Freight"];
    var kids := [own, category];
    assert kids[1..] == [category] && [category][1..] == [];
    assert AllNames(o, [category]) == ["Freight"];
    assert AllNames(o, kids) == ["INV-1", "Freight"];
    var bill := Branch(BILL_TAG, "", kids);
    assert BillNames(o, [bill][1..]) == [];
  }
}
