/**
 * Reading vouchers out of a TallyPrime export (tally-vouchers.ts): a scanner that counts the export's own
 * tags, one line at a time.  Entity decoding and control-character removal are the parameter `clean`.
 */
module TallyVouchers {
  import opened Text
  import opened Decimal
  import opened Money
  import opened TallyScan

  const MAX_VOUCHERS: nat := 50000
  const MAX_ENTRIES: nat := 100
  const MAX_SOURCE_FIELDS: nat := 80

  /** The voucher types kept, and how a raw value is cleaned. */
  datatype Options = Options(types: set<string>, clean: string -> string)

  datatype Entry = Entry(ledger: string, amount: Option<string>)

  /** The voucher being read, as its fields stand so far. */
  datatype Draft = Draft(
    line: nat, guid: string, alterId: string, date: string, voucherType: string, voucherNumber: string,
    reference: string, partyLedger: string, partyGstin: string, narration: string, cancelled: bool, optional: bool,
    entries: seq<Entry>, tooManyEntries: bool, billReferences: seq<string>, sourceFields: map<string, string>)

  datatype Record = Record(
    guid: string, alterId: Option<nat>, voucherType: string, date: string, voucherNumber: Option<string>,
    reference: Option<string>, partyLedger: string, partyGstin: Option<string>, narration: Option<string>,
    cancelled: bool, optional: bool, entries: seq<Entry>, billReferences: seq<string>, amount: string,
    sourceFields: map<string, string>, lineNumber: nat)

  datatype Reason =
    NoGuid | GuidTooLong | TooManyLegs | NoDate | NoParty | NoDocumentNumber | PartyTooLong | RepeatedGuid

  datatype Refusal = Refusal(lineNumber: nat, voucherNumber: Option<string>, reason: Reason)

  datatype Failure = NoEnvelope | TooManyVouchers | Truncated

  datatype Outcome = Read(records: seq<Record>, voucherCount: nat, refusals: seq<Refusal>) | Refused(failure: Failure)

  /** The accounting leg being read. */
  datatype Leg = Leg(ledger: string, amount: Option<string>)

  /** Where the scanner stands between two lines. */
  datatype Scan = Scan(
    line: nat, records: seq<Record>, refusals: seq<Refusal>, voucherCount: nat,
    sawEnvelope: bool, sawEnvelopeEnd: bool, inVoucher: bool, draft: Draft, depth: nat,
    leg: Option<Leg>, bill: Option<nat>, value: Option<string>, failure: Option<Failure>)

  // ---- the value of a voucher ---------------------------------------------------------

  function EntryPaise(e: Entry): int {
    if e.amount.Some? && ToPaise(e.amount.value).Some? then ToPaise(e.amount.value).value else 0
  }

  function Debits(entries: seq<Entry>): nat {
    if entries == [] then 0
    else
      var before, p := Debits(entries[..|entries| - 1]), EntryPaise(entries[|entries| - 1]);
      if p < 0 then before - p else before
  }

  function Credits(entries: seq<Entry>): nat {
    if entries == [] then 0
    else
      var before, p := Credits(entries[..|entries| - 1]), EntryPaise(entries[|entries| - 1]);
      if p < 0 then before else before + p
  }

  /** The first leg that names the party and carries a figure. */
  function PartyLeg(party: string, entries: seq<Entry>): Option<string> {
    if entries == [] then None
    else if entries[0].ledger == party && entries[0].amount.Some? then entries[0].amount
    else PartyLeg(party, entries[1..])
  }

  function Magnitude(figure: string): string { if StartsWith(figure, "-") then figure[1..] else figure }

  /** The party line's own figure, else the larger side of the double entry. */
  function ValueText(party: string, entries: seq<Entry>): string {
    if PartyLeg(party, entries).Some? then Magnitude(PartyLeg(party, entries).value)
    else PaiseText(Max(Debits(entries), Credits(entries)))
  }

  method VoucherValue(party: string, entries: seq<Entry>) returns (text: string)
    ensures text == ValueText(party, entries)
  {
    for i := 0 to |entries|
      invariant PartyLeg(party, entries) == PartyLeg(party, entries[i..])
    {
      assert entries[i..][1..] == entries[i + 1..];
      if entries[i].ledger == party && entries[i].amount.Some? {
        return Magnitude(entries[i].amount.value);
      }
    }
    var debits: nat, credits: nat := 0, 0;
    for i := 0 to |entries|
      invariant debits == Debits(entries[..i]) && credits == Credits(entries[..i])
    {
      assert entries[..i + 1][..i] == entries[..i];
      var paise := EntryPaise(entries[i]);
      if paise < 0 { debits := debits - paise; } else { credits := credits + paise; }
    }
    assert entries[..|entries|] == entries;
    text := PaiseText(if debits > credits then debits else credits);
  }

  /** Every figure the scanner stores is one the money reader accepts. */
  predicate LegalFigure(amount: Option<string>) {
    amount.Some? ==>
      && ToPaise(amount.value).Some?
      && (if StartsWith(amount.value, "-")
          then ToPaise(amount.value).value <= 0 && ToPaise(amount.value[1..]) == Some(-ToPaise(amount.value).value)
          else ToPaise(amount.value).value >= 0)
  }

  predicate Legal(e: Entry) { LegalFigure(e.amount) }

  predicate AllLegal(entries: seq<Entry>) { forall e :: e in entries ==> Legal(e) }

  lemma {:induction false} PartyLegIsLegal(party: string, entries: seq<Entry>)
    requires AllLegal(entries)
    ensures PartyLeg(party, entries).Some? ==> Legal(Entry(party, PartyLeg(party, entries)))
  {
    if entries != [] {
      assert entries[0] in entries && forall e :: e in entries[1..] ==> e in entries;
      PartyLegIsLegal(party, entries[1..]);
    }
  }

  /** The value printed is the exact magnitude of the party line, or the larger of the two sides. */
  lemma ValueMeaning(party: string, entries: seq<Entry>)
    requires AllLegal(entries)
    ensures ToPaise(ValueText(party, entries)) == Some(
        if PartyLeg(party, entries).Some? then Abs(EntryPaise(Entry(party, PartyLeg(party, entries))))
        else Max(Debits(entries), Credits(entries)))
  {
    hide ToPaise, PaiseText;
    if PartyLeg(party, entries).Some? {
      PartyLegIsLegal(party, entries);
    } else {
      PaiseRoundTrip(Max(Debits(entries), Credits(entries)));
    }
  }

  // ---- one voucher -----------------------------------------------------------------------

  predicate IsLegTag(tag: string) { tag == "ALLLEDGERENTRIES.LIST" || tag == "LEDGERENTRIES.LIST" }

  const BILL_TAG := "BILLALLOCATIONS.LIST"

  function NewDraft(line: nat): Draft {
    Draft(line, "", "", "", "", "", "", "", "", "", false, false, [], false, [], map[])
  }

  /** A leg without a ledger is dropped; one past the ceiling spoils the voucher. */
  function AddEntry(d: Draft, leg: Leg): Draft {
    if leg.ledger == "" then d
    else if |d.entries| >= MAX_ENTRIES then d.(tooManyEntries := true)
    else d.(entries := d.entries + [Entry(leg.ledger, leg.amount)])
  }

  function AddBill(d: Draft, name: string): Draft {
    if name != "" && |d.billReferences| < MAX_MATCH_KEYS then d.(billReferences := d.billReferences + [name]) else d
  }

  datatype DirectTag =
    | Guid | AlterId | Date | VoucherTypeName | VoucherNumber | Reference | PartyLedgerName | PartyGstin | Narration
    | IsCancelled | IsOptional | Elsewhere

  function DirectTagOf(tag: string): DirectTag {
    if tag == "GUID" then Guid
    else if tag == "ALTERID" then AlterId
    else if tag == "DATE" then Date
    else if tag == "VOUCHERTYPENAME" then VoucherTypeName
    else if tag == "VOUCHERNUMBER" then VoucherNumber
    else if tag == "REFERENCE" then Reference
    else if tag == "PARTYLEDGERNAME" then PartyLedgerName
    else if tag == "PARTYGSTIN" then PartyGstin
    else if tag == "NARRATION" then Narration
    else if tag == "ISCANCELLED" then IsCancelled
    else if tag == "ISOPTIONAL" then IsOptional
    else Elsewhere
  }

  predicate IsYes(value: string) { value == "Yes" }

  function SetField(d: Draft, field: DirectTag, value: string): Draft {
    match field
    case Guid => d.(guid := value)
    case AlterId => d.(alterId := value)
    case Date => d.(date := value)
    case VoucherTypeName => d.(voucherType := value)
    case VoucherNumber => d.(voucherNumber := value)
    case Reference => d.(reference := value)
    case PartyLedgerName => d.(partyLedger := value)
    case PartyGstin => d.(partyGstin := value)
    case Narration => d.(narration := value)
    case IsCancelled => d.(cancelled := IsYes(value))
    case IsOptional => d.(optional := IsYes(value))
    case Elsewhere => d
  }

  function DirectField(d: Draft, tag: string, value: string): Draft {
    var e := SetField(d, DirectTagOf(tag), value);
    if |d.sourceFields| < MAX_SOURCE_FIELDS && KeepSourceField(tag, value) then
      e.(sourceFields := d.sourceFields[tag := value])
    else e
  }

  function LegField(leg: Leg, tag: string, value: string): Leg {
    if tag == "LEDGERNAME" then leg.(ledger := value)
    else if tag == "AMOUNT" && leg.amount == None then leg.(amount := ExactRupees(value))
    else leg
  }

  function Named(d: Draft): string { if d.voucherNumber != "" then d.voucherNumber else d.reference }

  function Cut(s: string, limit: nat): string { if |s| <= limit then s else s[..limit] }

  function TrimmedOrNone(value: string, limit: nat): Option<string> {
    var t := Trim(Cut(value, limit));
    if t == "" then None else Some(t)
  }

  predicate IsUpperOrDigit(c: char) { 'A' <= c <= 'Z' || IsDigit(c) }

  /** Two digits, then the PAN arm or the deductor arm. */
  predicate IsGstin(s: string) {
    && |s| == 15 && IsDigit(s[0]) && IsDigit(s[1])
    && ((&& (forall i :: 2 <= i < 7 ==> 'A' <= s[i] <= 'Z') && (forall i :: 7 <= i < 11 ==> IsDigit(s[i]))
         && 'A' <= s[11] <= 'Z' && IsUpperOrDigit(s[12]) && s[13] == 'Z' && IsUpperOrDigit(s[14]))
        || ((forall i :: 2 <= i < 14 ==> IsUpperOrDigit(s[i])) && s[14] == 'D'))
  }

  datatype Decision = Skip | Refuse(reason: Reason) | Keep

  predicate HasNoNumber(d: Draft) { d.voucherNumber == "" && d.reference == "" && d.billReferences == [] }

  /** The first check that fails decides. */
  function Decide(o: Options, d: Draft, guids: set<string>): Decision {
    var stripped := d.cancelled || d.optional;
    if d.voucherType !in o.types then Skip
    else if d.guid == "" then Refuse(NoGuid)
    else if |d.guid| > 80 then Refuse(GuidTooLong)
    else if d.tooManyEntries then Refuse(TooManyLegs)
    else if TallyDate(d.date) == None then Refuse(NoDate)
    else if d.partyLedger == "" && !stripped then Refuse(NoParty)
    else if !stripped && d.voucherType == "Sales" && HasNoNumber(d) then Refuse(NoDocumentNumber)
    else if |d.partyLedger| > 300 then Refuse(PartyTooLong)
    else if d.guid in guids then Refuse(RepeatedGuid)
    else Keep
  }

  function RecordOf(d: Draft): Record
    requires TallyDate(d.date).Some?
  {
    Record(d.guid, if 1 <= |d.alterId| <= 15 && AllDigits(d.alterId) then Some(TextNat(d.alterId)) else None,
           d.voucherType, TallyDate(d.date).value, TrimmedOrNone(d.voucherNumber, 60), TrimmedOrNone(d.reference, 200),
           d.partyLedger, if IsGstin(Upper(d.partyGstin)) then Some(Upper(d.partyGstin)) else None,
           TrimmedOrNone(d.narration, 2000), d.cancelled, d.optional, d.entries, d.billReferences,
           ValueText(d.partyLedger, d.entries), d.sourceFields, d.line)
  }

  function RefusalOf(d: Draft, reason: Reason): Refusal {
    Refusal(d.line, if Named(d) != "" then Some(Cut(Named(d), 60)) else None, reason)
  }

  function GuidsOf(records: seq<Record>): set<string> { set r | r in records :: r.guid }

  function Finish(o: Options, s: Scan): Scan {
    var t := CloseLeg(s).(voucherCount := s.voucherCount + 1);
    match Decide(o, t.draft, GuidsOf(t.records))
    case Skip => t
    case Refuse(reason) =>
      if |t.refusals| < MAX_REFUSALS then t.(refusals := t.refusals + [RefusalOf(t.draft, reason)]) else t
    case Keep =>
      if |t.records| >= MAX_VOUCHERS then t.(failure := Some(TooManyVouchers))
      else t.(records := t.records + [RecordOf(t.draft)])
  }

  // ---- one line ------------------------------------------------------------------------------

  function CloseLeg(s: Scan): Scan {
    if s.leg == None then s else s.(leg := None, draft := AddEntry(s.draft, s.leg.value))
  }

  predicate OpensEnvelope(line: string) { StartsWith(line, "<ENVELOPE") }

  predicate ClosesEnvelope(line: string) { StartsWith(line, "</ENVELOPE") }

  /** A one-line element, which Tally does not write, must not leave the scanner inside a voucher. */
  predicate ClosesItself(line: string) { EndsWith(line, "/>") }

  predicate OpensVoucher(line: string) {
    |line| >= 9 && Upper(line[..8]) == "<VOUCHER" && (IsSpace(line[8]) || line[8] == '>')
  }

  function OnClose(o: Options, s: Scan, tag: string): Scan {
    if tag == "VOUCHER" && s.depth == 0 then Finish(o, s).(inVoucher := false)
    else if s.leg.Some? && s.depth == 1 && IsLegTag(tag) then CloseLeg(s).(depth := 0)
    else if s.depth > 0 then
      s.(depth := s.depth - 1, bill := if s.bill.Some? && s.depth - 1 <= s.bill.value then None else s.bill)
    else s
  }

  function OnField(s: Scan, tag: string, value: string): Scan {
    if s.depth == 0 then s.(draft := DirectField(s.draft, tag, value))
    else if s.leg.Some? && s.depth == 1 then s.(leg := Some(LegField(s.leg.value, tag, value)))
    else if s.bill.Some? && tag == "NAME" then s.(draft := AddBill(s.draft, value))
    else s
  }

  function OnOpen(s: Scan, tag: string): Scan {
    var t := if s.depth == 0 && IsLegTag(tag) then CloseLeg(s).(leg := Some(Leg("", None))) else s;
    t.(bill := if s.bill == None && tag == BILL_TAG then Some(s.depth) else s.bill, depth := s.depth + 1)
  }

  function Inside(o: Options, s: Scan, shape: Shape): Scan {
    match shape
    case Closes(tag) => OnClose(o, s, tag)
    case Completes(tag, raw) => OnField(s, tag, o.clean(raw))
    case Opens(tag) => OnOpen(s, tag)
    case Spans(tag) => s.(value := Some(tag))
    case Other => s
  }

  function Outside(s: Scan, line: string): Scan {
    var t := s.(sawEnvelopeEnd := s.sawEnvelopeEnd || ClosesEnvelope(line));
    if !OpensVoucher(line) then t
    else t.(inVoucher := !ClosesItself(line), draft := NewDraft(s.line), depth := 0, leg := None, bill := None)
  }

  /** One trimmed line.  Nothing happens once the whole file has been refused. */
  function Step(o: Options, before: Scan, line: string): Scan {
    var s := before.(line := before.line + 1);
    if before.failure.Some? then before
    else if line == "" then s
    else if s.value.Some? then
      if Contains(Upper(line), CloseTag(s.value.value)) then s.(value := None) else s
    else if !s.sawEnvelope && !OpensEnvelope(line) && s.line > 20 then s.(failure := Some(NoEnvelope))
    else
      var t := s.(sawEnvelope := s.sawEnvelope || OpensEnvelope(line));
      if t.inVoucher then Inside(o, t, ShapeOf(line)) else Outside(t, line)
  }

  function Run(o: Options, s: Scan, lines: seq<string>): Scan {
    if lines == [] then s else Step(o, Run(o, s, lines[..|lines| - 1]), lines[|lines| - 1])
  }

  const START := Scan(0, [], [], 0, false, false, false, NewDraft(0), 0, None, None, None, None)

  /** What the end of the file makes of where the scanner stands. */
  function Conclude(s: Scan): Outcome {
    if s.failure.Some? then Refused(s.failure.value)
    else if !s.sawEnvelope then Refused(NoEnvelope)
    else if s.inVoucher then Refused(Truncated)
    else if !s.sawEnvelopeEnd then Refused(Truncated)
    else Read(s.records, s.voucherCount, s.refusals)
  }

  function TrimAll(lines: seq<string>): (t: seq<string>)
    ensures |t| == |lines|
  {
    seq(|lines|, i requires 0 <= i < |lines| => Trim(lines[i]))
  }

  function ReadAll(o: Options, lines: seq<string>): Outcome { Conclude(Run(o, START, TrimAll(lines))) }

  lemma CloseExcludes(line: string)
    ensures CloseOf(line).Some? ==> CompleteOf(line) == None && OpenOf(line) == None && SpansOf(line) == None
  {
  }

  // ---- the scanner itself ------------------------------------------------------------------------

  class VoucherScanner {
    const options: Options
    var records: seq<Record>
    var refusals: seq<Refusal>
    var seenGuids: set<string>
    var voucherCount: nat
    var sawEnvelope: bool
    var sawEnvelopeEnd: bool
    var inVoucher: bool
    var draft: Draft
    var depth: nat
    var leg: Option<Leg>
    var billAllocationDepth: Option<nat>
    var openValueTag: Option<string>
    var lineNumber: nat
    var failure: Option<Failure>

    ghost predicate Valid() reads this { seenGuids == GuidsOf(records) }

    /** The scanner as a value. */
    ghost function Now(): Scan reads this {
      Scan(lineNumber, records, refusals, voucherCount, sawEnvelope, sawEnvelopeEnd, inVoucher, draft, depth,
           leg, billAllocationDepth, openValueTag, failure)
    }

    constructor (o: Options)
      ensures Valid() && Now() == START && options == o
    {
      options, records, refusals, seenGuids, voucherCount := o, [], [], {}, 0;
      sawEnvelope, sawEnvelopeEnd, inVoucher, draft, depth := false, false, false, NewDraft(0), 0;
      leg, billAllocationDepth, openValueTag, lineNumber, failure := None, None, None, 0, None;
    }

    method CloseEntry()
      modifies this`leg, this`draft
      ensures Now() == CloseLeg(old(Now()))
    {
      if leg == None { return; }
      var closed := leg.value;
      leg := None;
      if closed.ledger == "" { return; }
      if |draft.entries| >= MAX_ENTRIES {
        draft := draft.(tooManyEntries := true);
        return;
      }
      draft := draft.(entries := draft.entries + [Entry(closed.ledger, closed.amount)]);
    }

    method RefuseVoucher(reason: Reason)
      modifies this`refusals
      ensures refusals ==
        if |old(refusals)| < MAX_REFUSALS then old(refusals) + [RefusalOf(draft, reason)] else old(refusals)
    {
      if |refusals| < MAX_REFUSALS { refusals := refusals + [RefusalOf(draft, reason)]; }
    }

    method FinishVoucher()
      requires Valid()
      modifies this`leg, this`draft, this`voucherCount, this`refusals, this`records, this`seenGuids, this`failure
      ensures Valid() && Now() == Finish(options, old(Now()))
    {
      hide Decide, RecordOf, RefusalOf, CloseLeg, GuidsOf;
      CloseEntry();
      voucherCount := voucherCount + 1;
      match Decide(options, draft, seenGuids)
      case Skip =>
      case Refuse(reason) => RefuseVoucher(reason);
      case Keep => KeepVoucher();
    }

    method KeepVoucher()
      requires Valid() && Decide(options, draft, seenGuids) == Keep
      modifies this`records, this`seenGuids, this`failure
      ensures Valid()
      ensures if |old(records)| >= MAX_VOUCHERS then failure == Some(TooManyVouchers) && records == old(records)
              else records == old(records) + [RecordOf(draft)] && failure == old(failure)
    {
      if |records| >= MAX_VOUCHERS {
        failure := Some(TooManyVouchers);
        return;
      }
      var amount := VoucherValue(draft.partyLedger, draft.entries);
      ghost var before := records;
      records := records + [RecordOf(draft).(amount := amount)];
      seenGuids := seenGuids + {draft.guid};
      assert forall r :: r in records <==> r in before || r == RecordOf(draft);
    }

    method ReadOutside(line: string)
      modifies this`sawEnvelopeEnd, this`inVoucher, this`draft, this`depth, this`leg, this`billAllocationDepth
      ensures Now() == Outside(old(Now()), line)
    {
      hide OpensVoucher, ClosesItself, NewDraft, ClosesEnvelope;
      if ClosesEnvelope(line) { sawEnvelopeEnd := true; }
      if !OpensVoucher(line) { return; }
      inVoucher, draft, depth, leg, billAllocationDepth := true, NewDraft(lineNumber), 0, None, None;
      if ClosesItself(line) { inVoucher := false; }
    }

    method ReadField(tag: string, value: string)
      modifies this`draft, this`leg
      ensures Now() == OnField(old(Now()), tag, value)
    {
      if depth == 0 {
        draft := DirectField(draft, tag, value);
      } else if leg.Some? && depth == 1 {
        if tag == "LEDGERNAME" { leg := Some(leg.value.(ledger := value)); }
        else if tag == "AMOUNT" && leg.value.amount == None { leg := Some(leg.value.(amount := ExactRupees(value))); }
      } else if billAllocationDepth.Some? && tag == "NAME" && value != "" {
        if |draft.billReferences| < MAX_MATCH_KEYS {
          draft := draft.(billReferences := draft.billReferences + [value]);
        }
      }
    }

    method ReadOpening(tag: string)
      modifies this`leg, this`draft, this`billAllocationDepth, this`depth
      ensures Now() == OnOpen(old(Now()), tag)
    {
      if depth == 0 && IsLegTag(tag) {
        CloseEntry();
        leg := Some(Leg("", None));
      }
      if billAllocationDepth == None && tag == BILL_TAG { billAllocationDepth := Some(depth); }
      depth := depth + 1;
    }

    /** Inside a voucher: the closing shapes first, then a complete field, then an opening, then a value running on. */
    method ReadInside(line: string)
      requires Valid() && inVoucher
      modifies this
      ensures Valid() && Now() == Inside(options, old(Now()), ShapeOf(line))
    {
      hide CloseOf, CompleteOf, OpenOf, SpansOf, Upper, EndsWith, OnField, OnOpen, Finish, CloseLeg, IsLegTag, HeadOf;
      CloseExcludes(line);
      var closing := CloseOf(line);
      if closing.Some? && Upper(closing.value) == "VOUCHER" && depth == 0 {
        FinishVoucher();
        inVoucher := false;
        return;
      }
      if leg.Some? && depth == 1 && closing.Some? && IsLegTag(Upper(closing.value)) {
        CloseEntry();
        depth := depth - 1;
        return;
      }
      var complete := CompleteOf(line);
      if complete.Some? {
        ReadField(Upper(complete.value.tag), options.clean(complete.value.raw));
        return;
      }
      var opening := OpenOf(line);
      if opening.Some? && !EndsWith(line, "/>") {
        ReadOpening(Upper(opening.value));
        return;
      }
      if closing.Some? && depth > 0 {
        depth := depth - 1;
        if billAllocationDepth.Some? && depth <= billAllocationDepth.value { billAllocationDepth := None; }
        return;
      }
      var spanning := SpansOf(line);
      if spanning.Some? { openValueTag := Some(Upper(spanning.value)); }
    }

    method ReadLine(raw: string)
      requires Valid() && failure == None
      modifies this
      ensures Valid() && Now() == Step(options, old(Now()), Trim(raw))
    {
      hide Inside, Outside, Contains, Upper, Trim, ShapeOf, OpensEnvelope;
      lineNumber := lineNumber + 1;
      var line := Trim(raw);
      if line == "" { return; }
      if openValueTag.Some? {
        if Contains(Upper(line), CloseTag(openValueTag.value)) { openValueTag := None; }
        return;
      }
      if !sawEnvelope {
        if OpensEnvelope(line) { sawEnvelope := true; }
        else if lineNumber > 20 {
          failure := Some(NoEnvelope);
          return;
        }
      }
      if inVoucher { ReadInside(line); } else { ReadOutside(line); }
    }
  }

  method ReadTallyVoucherRecords(o: Options, lines: seq<string>) returns (outcome: Outcome)
    ensures outcome == ReadAll(o, lines)
  {
    var scanner := new VoucherScanner(o);
    var trimmed := TrimAll(lines);
    for i := 0 to |lines|
      invariant scanner.Valid() && scanner.options == o && scanner.failure == None
      invariant scanner.Now() == Run(o, START, trimmed[..i])
    {
      scanner.ReadLine(lines[i]);
      assert trimmed[..i + 1][..i] == trimmed[..i];
      if scanner.failure.Some? {
        RunStaysFailed(o, START, trimmed, i + 1);
        return Refused(scanner.failure.value);
      }
    }
    assert trimmed[..|lines|] == trimmed;
    if !scanner.sawEnvelope { return Refused(NoEnvelope); }
    if scanner.inVoucher { return Refused(Truncated); }
    if !scanner.sawEnvelopeEnd { return Refused(Truncated); }
    outcome := Read(scanner.records, scanner.voucherCount, scanner.refusals);
  }

  lemma {:induction false} RunStaysFailed(o: Options, s: Scan, lines: seq<string>, k: nat)
    requires k <= |lines| && Run(o, s, lines[..k]).failure.Some?
    ensures Run(o, s, lines) == Run(o, s, lines[..k])
    decreases |lines| - k
  {
    if k < |lines| {
      assert lines[..k + 1][..k] == lines[..k];
      RunStaysFailed(o, s, lines, k + 1);
    } else {
      assert lines[..k] == lines;
    }
  }

  // ---- whatever the file ---------------------------------------------------------------------------

  predicate DraftFits(d: Draft) {
    && |d.entries| <= MAX_ENTRIES && |d.billReferences| <= MAX_MATCH_KEYS && |d.sourceFields| <= MAX_SOURCE_FIELDS
    && AllLegal(d.entries)
  }

  /** The bounds the register's columns set, met before a record is kept. */
  predicate RecordFits(o: Options, r: Record) {
    && r.voucherType in o.types && 1 <= |r.guid| <= 80 && |r.partyLedger| <= 300
    && (r.partyLedger != "" || r.cancelled || r.optional)
    && |r.entries| <= MAX_ENTRIES && |r.billReferences| <= MAX_MATCH_KEYS && |r.sourceFields| <= MAX_SOURCE_FIELDS
    && AllLegal(r.entries) && r.amount == ValueText(r.partyLedger, r.entries)
  }

  predicate DistinctGuids(records: seq<Record>) {
    forall i, j :: 0 <= i < j < |records| ==> records[i].guid != records[j].guid
  }

  predicate Sound(o: Options, s: Scan) {
    && DistinctGuids(s.records) && (forall r :: r in s.records ==> RecordFits(o, r))
    && |s.records| <= MAX_VOUCHERS && |s.refusals| <= MAX_REFUSALS && |s.records| + |s.refusals| <= s.voucherCount
    && DraftFits(s.draft) && (s.leg.Some? ==> LegalFigure(s.leg.value.amount))
  }

  lemma KeptFits(o: Options, d: Draft, guids: set<string>)
    requires DraftFits(d) && Decide(o, d, guids) == Keep
    ensures RecordFits(o, RecordOf(d)) && RecordOf(d).guid == d.guid && d.guid !in guids
  {
    hide AllLegal, ValueText, TrimmedOrNone, IsGstin;
  }

  lemma CloseLegSound(o: Options, s: Scan)
    requires Sound(o, s)
    ensures Sound(o, CloseLeg(s))
  {
    hide RecordFits, LegalFigure;
  }

  lemma CloseLegKeeps(s: Scan)
    ensures CloseLeg(s).records == s.records && CloseLeg(s).refusals == s.refusals
    ensures CloseLeg(s).voucherCount == s.voucherCount
  {
    hide AddEntry;
  }

  lemma FinishSound(o: Options, s: Scan)
    requires Sound(o, s)
    ensures Sound(o, Finish(o, s))
  {
    hide RecordFits, DraftFits, Decide, RecordOf, RefusalOf, CloseLeg, LegalFigure;
    CloseLegKeeps(s);
    CloseLegSound(o, s);
    var t := CloseLeg(s);
    if Decide(o, t.draft, GuidsOf(t.records)) == Keep {
      KeptFits(o, t.draft, GuidsOf(t.records));
      assert forall r :: r in t.records ==> r.guid in GuidsOf(t.records);
      assert forall i :: 0 <= i < |t.records| ==> t.records[i] in t.records;
    }
  }

  lemma SetFieldKeeps(d: Draft, field: DirectTag, value: string)
    ensures var e := SetField(d, field, value);
      e.entries == d.entries && e.billReferences == d.billReferences && e.sourceFields == d.sourceFields
  {
    hide IsYes;
  }

  lemma DirectFieldFits(d: Draft, tag: string, value: string)
    requires DraftFits(d)
    ensures DraftFits(DirectField(d, tag, value))
  {
    hide KeepSourceField, AllLegal, SetField, DirectTagOf;
    SetFieldKeeps(d, DirectTagOf(tag), value);
  }

  lemma FieldSound(o: Options, s: Scan, tag: string, value: string)
    requires Sound(o, s)
    ensures Sound(o, OnField(s, tag, value))
  {
    hide RecordFits, DirectField, DraftFits, DistinctGuids, LegField, AddBill, LegalFigure;
    DirectFieldFits(s.draft, tag, value);
    BillFits(s.draft, value);
    if s.leg.Some? { LegFieldLegal(s.leg.value, tag, value); }
  }

  lemma LegFieldLegal(leg: Leg, tag: string, value: string)
    requires LegalFigure(leg.amount)
    ensures LegalFigure(LegField(leg, tag, value).amount)
  {
    hide ExactRupees, ToPaise;
    ExactRupeesRead(value);
  }

  lemma BillFits(d: Draft, name: string)
    requires DraftFits(d)
    ensures DraftFits(AddBill(d, name))
  {
  }

  predicate Untouched(s: Scan, t: Scan) {
    && t.records == s.records && t.refusals == s.refusals && t.voucherCount == s.voucherCount
    && t.draft == s.draft && t.leg == s.leg
  }

  lemma UntouchedSound(o: Options, s: Scan, t: Scan)
    requires Sound(o, s) && Untouched(s, t)
    ensures Sound(o, t)
  {
  }

  lemma StepSound(o: Options, s: Scan, line: string)
    requires Sound(o, s)
    ensures Sound(o, Step(o, s, line))
  {
    hide Sound, Inside, Outside, ShapeOf, Contains, Upper, OpensEnvelope;
    var t := s.(line := s.line + 1, sawEnvelope := s.sawEnvelope || OpensEnvelope(line));
    UntouchedSound(o, s, t);
    InsideSound(o, t, ShapeOf(line));
    OutsideSound(o, t, line);
    if Untouched(s, Step(o, s, line)) { UntouchedSound(o, s, Step(o, s, line)); }
  }

  lemma OutsideSound(o: Options, s: Scan, line: string)
    requires Sound(o, s)
    ensures Sound(o, Outside(s, line))
  {
    hide RecordFits, OpensVoucher, ClosesEnvelope, ClosesItself;
  }

  lemma InsideSound(o: Options, s: Scan, shape: Shape)
    requires Sound(o, s)
    ensures Sound(o, Inside(o, s, shape))
  {
    hide RecordFits, Finish, CloseLeg, DraftFits, DistinctGuids, IsLegTag, OnField;
    CloseLegSound(o, s);
    FinishSound(o, s);
    if shape.Completes? { FieldSound(o, s, shape.tag, o.clean(shape.raw)); }
  }

  lemma {:induction false} RunSound(o: Options, lines: seq<string>)
    ensures Sound(o, Run(o, START, lines))
    decreases |lines|
  {
    hide Step, RecordFits;
    if lines != [] {
      RunSound(o, lines[..|lines| - 1]);
      StepSound(o, Run(o, START, lines[..|lines| - 1]), lines[|lines| - 1]);
    }
  }

  /** Whatever the bytes: no GUID is returned twice, every record fits its columns, and nothing is counted twice. */
  lemma AnyFileIsSound(o: Options, lines: seq<string>)
    requires ReadAll(o, lines).Read?
    ensures var outcome := ReadAll(o, lines);
      && DistinctGuids(outcome.records) && (forall r :: r in outcome.records ==> RecordFits(o, r))
      && |outcome.records| <= MAX_VOUCHERS && |outcome.refusals| <= MAX_REFUSALS
      && |outcome.records| + |outcome.refusals| <= outcome.voucherCount
  {
    hide Run, RecordFits;
    RunSound(o, TrimAll(lines));
  }
}
