/**
 * The scanner feeding the two readers of its records: what it guarantees of any file is what matching sales vouchers
 * and reconciling receipts require.
 */
module TallyImport {
  import opened Text
  import opened Decimal
  import opened Money
  import opened TallyVouchers
  import Match = TallyMatch
  import Reconcile = TallyReconcile
  import Receipts = TallyReceipts
  import Documents = TallyDocuments
  import Records = TallyRecords
  import Links = TallyLinks

  // ---- sales vouchers ---------------------------------------------------------------------

  function SalesOptions(clean: string -> string): Options { Options({"Sales", "Credit Note", "Debit Note"}, clean) }

  function TypeOf(voucherType: string): Match.VoucherType {
    if voucherType == "Sales" then Match.Sales
    else if voucherType == "Credit Note" then Match.CreditNote
    else Match.DebitNote
  }

  /** A record as the matcher sees it, its value in paise. */
  function VoucherOf(r: Record): Match.Voucher {
    Match.Voucher(r.guid, TypeOf(r.voucherType), r.voucherNumber, r.reference, r.partyLedger, r.partyGstin,
                  r.billReferences, if ToPaise(r.amount).Some? then ToPaise(r.amount).value else 0)
  }

  /** Cancelled and optional vouchers are counted by the caller and never matched. */
  function LiveVouchers(records: seq<Record>): seq<Match.Voucher> {
    if records == [] then []
    else
      var before, r := LiveVouchers(records[..|records| - 1]), records[|records| - 1];
      if r.cancelled || r.optional then before else before + [VoucherOf(r)]
  }

  lemma {:induction false} LiveComeFromRecords(records: seq<Record>)
    ensures forall v :: v in LiveVouchers(records) ==> exists r :: r in records && v == VoucherOf(r)
    decreases |records|
  {
    hide VoucherOf;
    if records != [] {
      var init, last := records[..|records| - 1], records[|records| - 1];
      LiveComeFromRecords(init);
      assert last in records && forall r :: r in init ==> r in records;
    }
  }

  lemma {:induction false} LiveGuidsDistinct(records: seq<Record>)
    requires DistinctGuids(records)
    ensures Reconcile.DistinctGuids(LiveVouchers(records))
    decreases |records|
  {
    if records != [] {
      var init, last := records[..|records| - 1], records[|records| - 1];
      LiveGuidsDistinct(init);
      LiveComeFromRecords(init);
      forall v | v in LiveVouchers(init) ensures v.guid != last.guid {
        var r :| r in init && v == VoucherOf(r);
        var i :| 0 <= i < |init| && init[i] == r;
        assert records[i] == r;
      }
    }
  }

  /** Every kept record has an exact value, which is never negative: the party line's figure, or the larger side. */
  lemma RecordValueExact(o: Options, r: Record)
    requires RecordFits(o, r)
    ensures ToPaise(r.amount).Some? && VoucherOf(r).amount >= 0
    ensures VoucherOf(r).amount ==
      if PartyLeg(r.partyLedger, r.entries).Some? then
        Abs(EntryPaise(Entry(r.partyLedger, PartyLeg(r.partyLedger, r.entries))))
      else Max(Debits(r.entries), Credits(r.entries))
  {
    hide ToPaise, EntryPaise;
    ValueMeaning(r.partyLedger, r.entries);
  }

  /** The sales read and its match; None when the file is refused. */
  method ImportSales(
      clean: string -> string, lines: seq<string>, invoices: seq<Match.Invoice>, existing: seq<Match.ExistingLink>)
    returns (result: Option<Match.MatchResult>)
    requires Reconcile.DistinctIds(invoices)
    ensures result.Some? <==> ReadAll(SalesOptions(clean), lines).Read?
    ensures result.Some? ==>
      var vouchers := LiveVouchers(ReadAll(SalesOptions(clean), lines).records);
      var graph := Reconcile.GraphOf(vouchers, invoices, existing);
      && Reconcile.LinksOf(result.value.links, vouchers, invoices, graph)
      && result.value.unmatched == Reconcile.Unmatched(vouchers, invoices)
      && result.value.serialCollisions == Reconcile.TotalCollisions(vouchers, invoices)
      && result.value.componentCount == |Reconcile.Classes(graph)|
      && result.value.disputedComponentCount == |Reconcile.DisputedClasses(graph)|
  {
    hide ReadAll, RecordFits, Reconcile.LinksOf, Reconcile.GraphOf, Reconcile.Unmatched;
    hide Reconcile.TotalCollisions, Reconcile.Classes, Reconcile.DisputedClasses;
    var outcome := ReadTallyVoucherRecords(SalesOptions(clean), lines);
    if outcome.Refused? { return None; }
    AnyFileIsSound(SalesOptions(clean), lines);
    LiveGuidsDistinct(outcome.records);
    var vouchers := LiveVouchers(outcome.records);
    var matched := Reconcile.MatchTallyVouchers(vouchers, invoices, existing);
    result := Some(matched);
  }

  // ---- what is matched, and what a link stands on ------------------------------------------------

  /** The voucher the matcher sees says what the record says, its value in paise. */
  predicate SaysTheSame(r: Record, v: Match.Voucher) {
    && v.guid == r.guid && v.voucherNumber == r.voucherNumber && v.reference == r.reference
    && v.billReferences == r.billReferences && v.partyLedger == r.partyLedger && v.partyGstin == r.partyGstin
    && Some(v.amount) == ToPaise(r.amount)
    && (v.voucherType == Match.Sales <==> r.voucherType == "Sales")
    && (v.voucherType == Match.CreditNote <==> r.voucherType == "Credit Note")
    && (v.voucherType == Match.DebitNote <==> r.voucherType == "Debit Note")
  }

  predicate IsLive(r: Record) { !r.cancelled && !r.optional }

  lemma VoucherSaysTheSame(clean: string -> string, r: Record)
    requires RecordFits(SalesOptions(clean), r)
    ensures SaysTheSame(r, VoucherOf(r))
  {
    hide ToPaise, ValueText, AllLegal;
    RecordValueExact(SalesOptions(clean), r);
  }

  lemma {:induction false} LiveAreMatched(records: seq<Record>, r: Record)
    requires r in records && IsLive(r)
    ensures VoucherOf(r) in LiveVouchers(records)
    decreases |records|
  {
    hide VoucherOf;
    var n := |records| - 1;
    assert records == records[..n] + [records[n]];
    if r != records[n] { LiveAreMatched(records[..n], r); }
  }

  lemma {:induction false} MatchedAreLive(records: seq<Record>, v: Match.Voucher)
    requires v in LiveVouchers(records)
    ensures exists r :: r in records && IsLive(r) && v == VoucherOf(r)
    decreases |records|
  {
    hide VoucherOf;
    var n := |records| - 1;
    assert records == records[..n] + [records[n]];
    if v in LiveVouchers(records[..n]) { MatchedAreLive(records[..n], v); }
  }

  ghost predicate IsMatchOf(
      links: seq<Match.InvoiceLink>, records: seq<Record>, invoices: seq<Match.Invoice>,
      existing: seq<Match.ExistingLink>)
  {
    var vouchers := LiveVouchers(records);
    Reconcile.LinksOf(links, vouchers, invoices, Reconcile.GraphOf(vouchers, invoices, existing))
  }

  /** The record carries this document number in one of its three fields. */
  predicate RecordCarries(r: Record, s: string) {
    r.voucherNumber == Some(s) || r.reference == Some(s) || s in r.billReferences
  }

  predicate LinkStands(links: seq<Match.InvoiceLink>, r: Record, inv: Match.Invoice) {
    exists l :: l in links && SaysTheSame(r, l.voucher) && l.invoiceId == inv.id && l.how == Match.ExactNumber
  }

  /** Out of any file: a live Sales record that carries an invoice's number is linked to that invoice. */
  lemma RecordLinked(
      clean: string -> string, lines: seq<string>, invoices: seq<Match.Invoice>, existing: seq<Match.ExistingLink>,
      links: seq<Match.InvoiceLink>, r: Record, inv: Match.Invoice, s: string)
    requires ReadAll(SalesOptions(clean), lines).Read? && Reconcile.DistinctIds(invoices) && inv in invoices
    requires IsMatchOf(links, ReadAll(SalesOptions(clean), lines).records, invoices, existing)
    requires r in ReadAll(SalesOptions(clean), lines).records && IsLive(r) && r.voucherType == "Sales"
    requires |r.billReferences| <= 38 && RecordCarries(r, s) && Links.SameNumber(s, inv.invoiceNumber)
    ensures LinkStands(links, r, inv)
  {
    hide ReadAll, RecordFits, VoucherOf, Reconcile.LinksOf, Reconcile.GraphOf, Links.SameNumber, ToPaise;
    var records := ReadAll(SalesOptions(clean), lines).records;
    AnyFileIsSound(SalesOptions(clean), lines);
    VoucherSaysTheSame(clean, r);
    LiveAreMatched(records, r);
    var vouchers, v := LiveVouchers(records), VoucherOf(r);
    Links.NumberLinks(links, vouchers, invoices, Reconcile.GraphOf(vouchers, invoices, existing), v, inv, s);
  }

  /** What a link stands on: a live Sales record that carries a number leading to the invoice. */
  predicate StandsOn(l: Match.InvoiceLink, r: Record, inv: Match.Invoice, s: string) {
    && IsLive(r) && r.voucherType == "Sales" && SaysTheSame(r, l.voucher)
    && inv.id == l.invoiceId && RecordCarries(r, s)
    && match l.how
       case ExactNumber => Links.SameNumber(s, inv.invoiceNumber)
       case SerialTolerant => Links.SameSerial(s, inv.invoiceNumber) && Links.Vouched(l.voucher, inv)
  }

  lemma LinkStandsOnRecord(
      clean: string -> string, lines: seq<string>, invoices: seq<Match.Invoice>, existing: seq<Match.ExistingLink>,
      links: seq<Match.InvoiceLink>, l: Match.InvoiceLink) returns (r: Record, inv: Match.Invoice, s: string)
    requires ReadAll(SalesOptions(clean), lines).Read?
    requires IsMatchOf(links, ReadAll(SalesOptions(clean), lines).records, invoices, existing) && l in links
    ensures r in ReadAll(SalesOptions(clean), lines).records && inv in invoices && StandsOn(l, r, inv, s)
  {
    hide ReadAll, RecordFits, VoucherOf, Reconcile.LinksOf, Reconcile.GraphOf, ToPaise;
    hide Links.SameNumber, Links.SameSerial, Links.Vouched;
    var records := ReadAll(SalesOptions(clean), lines).records;
    var vouchers := LiveVouchers(records);
    AnyFileIsSound(SalesOptions(clean), lines);
    Links.LinksAreGrounded(links, vouchers, invoices, Reconcile.GraphOf(vouchers, invoices, existing), l);
    s, inv :| Links.Grounded(l, invoices, s, inv);
    MatchedAreLive(records, l.voucher);
    r :| r in records && IsLive(r) && l.voucher == VoucherOf(r);
    VoucherSaysTheSame(clean, r);
  }

  /** A voucher element states this document number, as far as its column stores it. */
  ghost predicate Shows(o: Options, ns: seq<Documents.Node>, s: string) {
    || Records.StoredWithin(60, Records.Stated(o, ns, "VOUCHERNUMBER"), Some(s))
    || Records.StoredWithin(200, Records.Stated(o, ns, "REFERENCE"), Some(s))
    || s in Records.FirstForty(Documents.BillNames(o, ns))
  }

  /** The element a link was made from: a live Sales voucher of the file that states the number it was made by. */
  ghost predicate MadeFrom(
      clean: string -> string, l: Match.InvoiceLink, invoices: seq<Match.Invoice>, p: Documents.Part)
  {
    && p.Element?
    && var o, ns := SalesOptions(clean), p.children;
    && Records.Stated(o, ns, "GUID") == l.voucher.guid && Records.Stated(o, ns, "VOUCHERTYPENAME") == "Sales"
    && Records.Stated(o, ns, "ISCANCELLED") != "Yes" && Records.Stated(o, ns, "ISOPTIONAL") != "Yes"
    && exists s, inv :: Shows(o, ns, s) && LeadsTo(l, invoices, s, inv)
  }

  predicate LeadsTo(l: Match.InvoiceLink, invoices: seq<Match.Invoice>, s: string, inv: Match.Invoice) {
    && inv in invoices && inv.id == l.invoiceId
    && (|| Links.SameNumber(s, inv.invoiceNumber)
        || (Links.SameSerial(s, inv.invoiceNumber) && Links.Vouched(l.voucher, inv)))
  }

  /** From the file to the register: every link is made from a voucher element of the export. */
  lemma LinksComeFromElements(
      clean: string -> string, lines: seq<string>, e: Documents.Export, invoices: seq<Match.Invoice>,
      existing: seq<Match.ExistingLink>, links: seq<Match.InvoiceLink>, l: Match.InvoiceLink)
    requires Documents.WellFormedExport(e) && TrimAll(lines) == Documents.ExportLines(e)
    requires ReadAll(SalesOptions(clean), lines).Read?
    requires IsMatchOf(links, ReadAll(SalesOptions(clean), lines).records, invoices, existing) && l in links
    ensures exists i :: 0 <= i < |e.parts| && MadeFrom(clean, l, invoices, e.parts[i])
  {
    hide ReadAll, IsMatchOf, Documents.WellFormedExport, TrimAll, Documents.ExportLines, ToPaise;
    hide Links.SameNumber, Links.SameSerial, Links.Vouched, Records.Stated, Records.Describes, Records.FirstForty;
    hide Records.StoredWithin, Documents.BillNames;
    var o := SalesOptions(clean);
    var r, inv, s := LinkStandsOnRecord(clean, lines, invoices, existing, links, l);
    Records.RecordsDescribed(o, lines, e);
    assert Records.DescribesOne(o, r, e.parts);
    var i, line :| 0 <= i < |e.parts| && e.parts[i].Element? && Records.Describes(o, r, e.parts[i].children, line);
    ShownByElement(o, r, e.parts[i].children, line, s);
    assert LeadsTo(l, invoices, s, inv);
    assert MadeFrom(clean, l, invoices, e.parts[i]);
  }

  lemma ShownByElement(o: Options, r: Record, ns: seq<Documents.Node>, line: nat, s: string)
    requires Records.Describes(o, r, ns, line) && RecordCarries(r, s)
    ensures Shows(o, ns, s)
    ensures Records.Stated(o, ns, "GUID") == r.guid && Records.Stated(o, ns, "VOUCHERTYPENAME") == r.voucherType
    ensures Records.Stated(o, ns, "ISCANCELLED") == "Yes" <==> r.cancelled
    ensures Records.Stated(o, ns, "ISOPTIONAL") == "Yes" <==> r.optional
  {
    hide Records.Stated, Records.FirstForty, Records.StoredWithin, Documents.BillNames;
  }

  /** A sales import adds nothing for an element of any other type, and a record or a refusal for one of its three. */
  lemma SalesElementsOnly(clean: string -> string, s: Scan, tag: string, attrs: string, children: seq<Documents.Node>)
    requires s.failure == None && s.leg == None
    ensures var o := SalesOptions(clean);
      var t := Documents.PartMeaning(o, s, Documents.Element(tag, attrs, children));
      var ours := Records.Stated(o, children, "VOUCHERTYPENAME") in {"Sales", "Credit Note", "Debit Note"};
      && (!ours ==> t.records == s.records && t.refusals == s.refusals && t.failure == None)
      && (ours ==>
            if |s.records| < 50000 && |s.refusals| < 200 then
              |t.records| + |t.refusals| == |s.records| + |s.refusals| + 1
            else |t.records| + |t.refusals| <= |s.records| + |s.refusals| + 1)
  {
    hide Records.Stated, Documents.PartMeaning, Records.ElementOutcome;
    var o, p := SalesOptions(clean), Documents.Element(tag, attrs, children);
    Records.ElementRecorded(o, s, tag, attrs, children);
    OutcomeCounts(o, s, Documents.PartMeaning(o, s, p), children, s.line + 1);
  }

  lemma OutcomeCounts(o: Options, s: Scan, t: Scan, ns: seq<Documents.Node>, line: nat)
    requires Records.ElementOutcome(o, s, t, ns, line)
    ensures var ours := Records.Stated(o, ns, "VOUCHERTYPENAME") in o.types;
      && (!ours ==> t.records == s.records && t.refusals == s.refusals && t.failure == None)
      && (ours && |s.records| < 50000 && |s.refusals| < 200 ==>
            |t.records| + |t.refusals| == |s.records| + |s.refusals| + 1)
      && (ours ==> |t.records| + |t.refusals| <= |s.records| + |s.refusals| + 1)
  {
    hide Records.Stated, Records.Complaint, Records.Describes, Records.NamedAs, GuidsOf;
  }

  // ---- receipts --------------------------------------------------------------------------------

  function ReceiptOptions(clean: string -> string): Options { Options({"Receipt"}, clean) }

  method ImportReceipts(c: Receipts.Census, clean: string -> string, lines: seq<string>)
    returns (sorted: Option<Receipts.Sorted>)
    ensures sorted.Some? <==> ReadAll(ReceiptOptions(clean), lines).Read?
    ensures sorted.Some? ==> sorted.value == Receipts.SortAll(c, ReadAll(ReceiptOptions(clean), lines).records)
  {
    hide ReadAll, Receipts.SortAll;
    var outcome := ReadTallyVoucherRecords(ReceiptOptions(clean), lines);
    if outcome.Refused? { return None; }
    var read := Receipts.ReadTallyReceipts(c, outcome.records);
    sorted := Some(read);
  }

  /** Out of any file at all: what is accepted as a receipt balances, wherever no ledger is counted twice. */
  lemma AcceptedReceiptsBalance(c: Receipts.Census, clean: string -> string, lines: seq<string>, v: Record)
    requires ReadAll(ReceiptOptions(clean), lines).Read? && v in ReadAll(ReceiptOptions(clean), lines).records
    ensures v.voucherType == "Receipt"
    ensures Receipts.FateOf(c, v).Accepted? ==>
      Receipts.Shape(c, v) == None && Receipts.Total(v.entries) + Receipts.Total(Receipts.Overlaps(c, v)) == 0
    ensures Receipts.NoOverlap(c, v) && Receipts.FateOf(c, v).Accepted? ==> Receipts.Total(v.entries) == 0
    ensures Receipts.NoOverlap(c, v) && Receipts.Total(v.entries) == 0 ==>
      Receipts.FateOf(c, v) != Receipts.RefusedAs(Receipts.Unbalanced)
  {
    hide ReadAll, Receipts.FateOf, Receipts.Shape, Receipts.NoOverlap;
    AnyFileIsSound(ReceiptOptions(clean), lines);
    assert RecordFits(ReceiptOptions(clean), v);
    Receipts.AcceptedExactlyWhen(c, v);
    if Receipts.NoOverlap(c, v) { Receipts.BalancedExactlyWhen(c, v); }
  }
}
