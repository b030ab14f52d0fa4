/**
 * Deciding what a TallyPrime receipt is (tally-receipts.ts): skipped, refused by name, or a payment whose
 * deductions are folded one line per ledger.  Every figure is whole paise.
 */
module TallyReceipts {
  import opened Text
  import opened Decimal
  import opened Money
  import opened TallyMatch
  import opened TallyVouchers

  // ---- the census ---------------------------------------------------------------------

  /** One ledger as the census holds it. */
  datatype Facts = Facts(
    groupPath: seq<string>, isCustomer: bool, plCode: Option<string>, contactId: Option<string>)

  /** The census, and the reader that finds a work code in a ledger's name. */
  datatype Census = Census(ledgers: map<string, Facts>, readPlCode: string -> Option<string>)

  const BANK_GROUPS: seq<string> := ["bank accounts", "bank od a/c", "bank occ a/c", "cash-in-hand"]

  predicate HasGroup(path: seq<string>, group: string) { exists g :: g in path && Lower(g) == group }

  predicate HasGroupPrefix(path: seq<string>, prefix: string) { exists g :: g in path && StartsWith(Lower(g), prefix) }

  predicate InGroup(c: Census, ledger: string, group: string) {
    ledger in c.ledgers && HasGroup(c.ledgers[ledger].groupPath, group)
  }

  predicate IsBank(c: Census, ledger: string) {
    ledger in c.ledgers && exists b :: b in BANK_GROUPS && HasGroup(c.ledgers[ledger].groupPath, b)
  }

  predicate IsCustomer(c: Census, ledger: string) { ledger in c.ledgers && c.ledgers[ledger].isCustomer }

  predicate IsRoundOff(ledger: string) {
    Contains(Squeeze(ledger), "ROUNDOFF") || Contains(Squeeze(ledger), "ROUNDINGOFF")
  }

  datatype Head = LiquidatedDamages | GstTds | IncomeTaxTds | SecurityDeposit | OtherHead

  function DeductionHead(c: Census, ledger: string): Head {
    if Squeeze(ledger) == "CONTRACUALDEDUCTION" || Squeeze(ledger) == "CONTRACTUALDEDUCTION" then LiquidatedDamages
    else if InGroup(c, ledger, "gst- tds") then GstTds
    else if InGroup(c, ledger, "tds on railway bills")
         || (ledger in c.ledgers && HasGroupPrefix(c.ledgers[ledger].groupPath, "tds & sat ay")) then IncomeTaxTds
    else if InGroup(c, ledger, "railway security deposits") then SecurityDeposit
    else OtherHead
  }

  function PlCodeOf(c: Census, ledger: string): Option<string> {
    if ledger in c.ledgers && c.ledgers[ledger].plCode.Some? then c.ledgers[ledger].plCode else c.readPlCode(ledger)
  }

  // ---- legs --------------------------------------------------------------------------------

  /** Tally's sign convention: negative is a debit; a leg without a figure is neither. */
  predicate IsDebit(e: Entry) { e.amount.Some? && StartsWith(e.amount.value, "-") }

  predicate IsCredit(e: Entry) { e.amount.Some? && !IsDebit(e) }

  predicate IsSilent(e: Entry) { e.amount == None }

  predicate IsBankLine(c: Census, e: Entry) { IsDebit(e) && IsBank(c, e.ledger) }

  predicate IsRoundOffLine(e: Entry) { e.amount.Some? && IsRoundOff(e.ledger) }

  predicate IsHeadLine(c: Census, e: Entry) {
    !IsCredit(e) && !IsBank(c, e.ledger) && !IsRoundOff(e.ledger)
  }

  predicate IsUncensused(c: Census, e: Entry) { !IsCredit(e) && e.ledger !in c.ledgers }

  predicate IsCustomerCredit(c: Census, e: Entry) { IsCredit(e) && IsCustomer(c, e.ledger) }

  predicate IsStrayCredit(c: Census, e: Entry) {
    IsCredit(e) && !IsCustomer(c, e.ledger) && !IsRoundOff(e.ledger)
  }

  function Filter(p: Entry -> bool, es: seq<Entry>): (r: seq<Entry>)
    ensures forall e :: e in r <==> e in es && p(e)
  {
    if es == [] then []
    else
      var rest := Filter(p, es[..|es| - 1]);
      if p(es[|es| - 1]) then rest + [es[|es| - 1]] else rest
  }

  function Total(es: seq<Entry>): int {
    if es == [] then 0 else Total(es[..|es| - 1]) + EntryPaise(es[|es| - 1])
  }

  /** The figure of a leg without its sign. */
  function Kept(e: Entry): nat { Abs(EntryPaise(e)) }

  function TotalKept(es: seq<Entry>): nat {
    if es == [] then 0 else TotalKept(es[..|es| - 1]) + Kept(es[|es| - 1])
  }

  // ---- the fold by ledger --------------------------------------------------------------------

  datatype Deduction = Deduction(
    head: Head, ledger: string, amount: nat, amountMissing: bool, plCode: Option<string>, legCount: nat)

  /** The line already held for a ledger; the number of lines when there is none. */
  function LineAt(lines: seq<Deduction>, ledger: string): (i: nat)
    ensures i <= |lines|
    ensures i < |lines| ==> lines[i].ledger == ledger
    ensures forall j :: 0 <= j < i ==> lines[j].ledger != ledger
  {
    if lines == [] || lines[0].ledger == ledger then 0 else 1 + LineAt(lines[1..], ledger)
  }

  /** One more leg: added to its ledger's line, in place, or a line of its own at the end. */
  function FoldLeg(c: Census, lines: seq<Deduction>, e: Entry): seq<Deduction> {
    var head, code, at := DeductionHead(c, e.ledger), PlCodeOf(c, e.ledger), LineAt(lines, e.ledger);
    if at == |lines| then lines + [Deduction(head, e.ledger, Kept(e), IsSilent(e), code, 1)]
    else
      var already := lines[at];
      lines[at := Deduction(head, e.ledger, already.amount + Kept(e), already.amountMissing && IsSilent(e),
                            OrElse(already.plCode, code), already.legCount + 1)]
  }

  function Folded(c: Census, heads: seq<Entry>): seq<Deduction> {
    if heads == [] then [] else FoldLeg(c, Folded(c, heads[..|heads| - 1]), heads[|heads| - 1])
  }

  /** The work a security deposit names so far, and whether two were named. */
  datatype DepositCode = DepositCode(code: Option<string>, ambiguous: bool)

  function DepositLeg(c: Census, d: DepositCode, e: Entry): DepositCode {
    var code := PlCodeOf(c, e.ledger);
    if DeductionHead(c, e.ledger) != SecurityDeposit || code == None then d
    else DepositCode(OrElse(d.code, code), d.ambiguous || (d.code.Some? && d.code != code))
  }

  function DepositOf(c: Census, heads: seq<Entry>): DepositCode {
    if heads == [] then DepositCode(None, false)
    else DepositLeg(c, DepositOf(c, heads[..|heads| - 1]), heads[|heads| - 1])
  }

  // ---- one voucher's fate ---------------------------------------------------------------------

  datatype Receipt = Receipt(
    voucher: Record, counterparty: string, contactId: Option<string>, gross: int, net: int, deductionTotal: int,
    roundOff: int, roundOffLineCount: nat, deductions: seq<Deduction>, depositPlCode: Option<string>)

  datatype SkipReason = BankParty | NoDeduction

  datatype RefusalKind =
    UncensusedLedger | NoCustomerCredit | TwoParty | CreditedHead | CustomerAsHead | NoBankLine | ZeroGross | Unbalanced

  datatype Fate =
    Cancelled | Optional | Skipped(why: SkipReason) | RefusedAs(kind: RefusalKind) | Accepted(receipt: Receipt)

  function BankLines(c: Census, v: Record): seq<Entry> { Filter(e => IsBankLine(c, e), v.entries) }

  /** The debited round-offs, then the credited ones. */
  function RoundOffLines(v: Record): seq<Entry> {
    Filter(e => IsDebit(e) && IsRoundOffLine(e), v.entries) + Filter(e => IsCredit(e) && IsRoundOffLine(e), v.entries)
  }

  /** The debited heads, then the silent ones. */
  function HeadLines(c: Census, v: Record): seq<Entry> {
    Filter(e => IsDebit(e) && IsHeadLine(c, e), v.entries) + Filter(e => IsSilent(e) && IsHeadLine(c, e), v.entries)
  }

  function CustomerCredits(c: Census, v: Record): seq<Entry> { Filter(e => IsCustomerCredit(c, e), v.entries) }

  function RoundOff(v: Record): int { -Total(RoundOffLines(v)) }

  function Net(c: Census, v: Record): int { RoundOff(v) - Total(BankLines(c, v)) }

  /** The first check short of the arithmetic that fails; None when the arithmetic decides. */
  function Shape(c: Census, v: Record): (fate: Option<Fate>)
    ensures fate.Some? ==> !fate.value.Accepted? && fate.value != RefusedAs(Unbalanced)
    ensures fate == None ==> |CustomerCredits(c, v)| == 1 && EntryPaise(CustomerCredits(c, v)[0]) > 0
  {
    if v.cancelled then Some(Cancelled)
    else if v.optional then Some(Optional)
    else if IsBank(c, v.partyLedger) then Some(Skipped(BankParty))
    else if HeadLines(c, v) == [] then Some(Skipped(NoDeduction))
    else if exists e :: e in v.entries && IsUncensused(c, e) then Some(RefusedAs(UncensusedLedger))
    else if CustomerCredits(c, v) == [] then Some(RefusedAs(NoCustomerCredit))
    else if |CustomerCredits(c, v)| > 1 then Some(RefusedAs(TwoParty))
    else if exists e :: e in v.entries && IsStrayCredit(c, e) then Some(RefusedAs(CreditedHead))
    else if exists e :: e in v.entries && IsHeadLine(c, e) && IsCustomer(c, e.ledger) then
      Some(RefusedAs(CustomerAsHead))
    else if BankLines(c, v) == [] then Some(RefusedAs(NoBankLine))
    else if EntryPaise(CustomerCredits(c, v)[0]) <= 0 then Some(RefusedAs(ZeroGross))
    else None
  }

  function ReceiptOf(c: Census, v: Record): Receipt
    requires |CustomerCredits(c, v)| == 1
  {
    var credit, heads := CustomerCredits(c, v)[0], HeadLines(c, v);
    var deposit := DepositOf(c, heads);
    Receipt(v, credit.ledger, if credit.ledger in c.ledgers then c.ledgers[credit.ledger].contactId else None,
            EntryPaise(credit), Net(c, v), TotalKept(heads), RoundOff(v), |RoundOffLines(v)|, Folded(c, heads),
            if deposit.ambiguous then None else deposit.code)
  }

  function FateOf(c: Census, v: Record): Fate {
    if Shape(c, v).Some? then Shape(c, v).value
    else
      var receipt := ReceiptOf(c, v);
      if receipt.gross != receipt.net + receipt.deductionTotal then RefusedAs(Unbalanced) else Accepted(receipt)
  }

  // ---- the reader ------------------------------------------------------------------------------

  method Select(p: Entry -> bool, entries: seq<Entry>) returns (kept: seq<Entry>)
    ensures kept == Filter(p, entries)
  {
    kept := [];
    for i := 0 to |entries|
      invariant kept == Filter(p, entries[..i])
    {
      assert entries[..i + 1][..i] == entries[..i];
      if p(entries[i]) { kept := kept + [entries[i]]; }
    }
    assert entries[..|entries|] == entries;
  }

  method AddUp(entries: seq<Entry>) returns (total: int)
    ensures total == Total(entries)
  {
    total := 0;
    for i := 0 to |entries|
      invariant total == Total(entries[..i])
    {
      assert entries[..i + 1][..i] == entries[..i];
      total := total + EntryPaise(entries[i]);
    }
    assert entries[..|entries|] == entries;
  }

  method FoldHeads(c: Census, heads: seq<Entry>) returns (lines: seq<Deduction>, total: nat, deposit: DepositCode)
    ensures lines == Folded(c, heads) && total == TotalKept(heads) && deposit == DepositOf(c, heads)
  {
    hide FoldLeg, DepositLeg;
    lines, total, deposit := [], 0, DepositCode(None, false);
    for i := 0 to |heads|
      invariant lines == Folded(c, heads[..i]) && total == TotalKept(heads[..i]) && deposit == DepositOf(c, heads[..i])
    {
      assert heads[..i + 1][..i] == heads[..i];
      lines, total, deposit := FoldLeg(c, lines, heads[i]), total + Kept(heads[i]), DepositLeg(c, deposit, heads[i]);
    }
    assert heads[..|heads|] == heads;
  }

  /** The arithmetic of a voucher every earlier check has let through. */
  method Reconcile(c: Census, v: Record) returns (fate: Fate)
    requires Shape(c, v) == None
    ensures fate == FateOf(c, v)
  {
    hide Folded, DepositOf, TotalKept, Total, Shape;
    hide IsHeadLine, IsBankLine, IsCustomerCredit, IsRoundOffLine, IsDebit, IsCredit, IsSilent;
    var credits := Select(e => IsCustomerCredit(c, e), v.entries);
    var debitedRoundOffs := Select(e => IsDebit(e) && IsRoundOffLine(e), v.entries);
    var creditedRoundOffs := Select(e => IsCredit(e) && IsRoundOffLine(e), v.entries);
    var banks := Select(e => IsBankLine(c, e), v.entries);
    var debitedHeads := Select(e => IsDebit(e) && IsHeadLine(c, e), v.entries);
    var silentHeads := Select(e => IsSilent(e) && IsHeadLine(c, e), v.entries);
    var roundOff := AddUp(debitedRoundOffs + creditedRoundOffs);
    var toBank := AddUp(banks);
    var lines, deductions, deposit := FoldHeads(c, debitedHeads + silentHeads);
    var gross, net := EntryPaise(credits[0]), -roundOff - toBank;
    if gross != net + deductions { return RefusedAs(Unbalanced); }
    var counterparty := credits[0].ledger;
    var contact := if counterparty in c.ledgers then c.ledgers[counterparty].contactId else None;
    var code := if deposit.ambiguous then None else deposit.code;
    fate := Accepted(Receipt(v, counterparty, contact, gross, net, deductions, -roundOff,
                             |debitedRoundOffs + creditedRoundOffs|, lines, code));
  }

  datatype Sorted = Sorted(
    receipts: seq<Receipt>, skipped: seq<Record>, refused: seq<Record>, cancelled: seq<Record>, optional: seq<Record>)

  function PutIn(c: Census, s: Sorted, v: Record): Sorted {
    match FateOf(c, v)
    case Cancelled => s.(cancelled := s.cancelled + [v])
    case Optional => s.(optional := s.optional + [v])
    case Skipped(_) => s.(skipped := s.skipped + [v])
    case RefusedAs(_) => s.(refused := s.refused + [v])
    case Accepted(receipt) => s.(receipts := s.receipts + [receipt])
  }

  function SortAll(c: Census, vs: seq<Record>): Sorted {
    if vs == [] then Sorted([], [], [], [], []) else PutIn(c, SortAll(c, vs[..|vs| - 1]), vs[|vs| - 1])
  }

  method ReadTallyReceipts(c: Census, vouchers: seq<Record>) returns (sorted: Sorted)
    ensures sorted == SortAll(c, vouchers)
  {
    hide Shape, ReceiptOf, FateOf;
    sorted := Sorted([], [], [], [], []);
    for i := 0 to |vouchers|
      invariant sorted == SortAll(c, vouchers[..i])
    {
      assert vouchers[..i + 1][..i] == vouchers[..i];
      var fate := Classify(c, vouchers[i]);
      match fate {
        case Cancelled => sorted := sorted.(cancelled := sorted.cancelled + [vouchers[i]]);
        case Optional => sorted := sorted.(optional := sorted.optional + [vouchers[i]]);
        case Skipped(_) => sorted := sorted.(skipped := sorted.skipped + [vouchers[i]]);
        case RefusedAs(_) => sorted := sorted.(refused := sorted.refused + [vouchers[i]]);
        case Accepted(receipt) => sorted := sorted.(receipts := sorted.receipts + [receipt]);
      }
    }
    assert vouchers[..|vouchers|] == vouchers;
  }

  method Classify(c: Census, v: Record) returns (fate: Fate)
    ensures fate == FateOf(c, v)
  {
    hide ReceiptOf;
    var early := Shape(c, v);
    if early.Some? { fate := early.value; } else { fate := Reconcile(c, v); }
  }

  // ---- acceptance is double-entry balance ---------------------------------------------------------

  /** A round-off ledger that is also the customer credited or a bank debited: its figure is counted twice. */
  predicate IsOverlap(c: Census, e: Entry) { (IsCustomerCredit(c, e) || IsBankLine(c, e)) && IsRoundOff(e.ledger) }

  function Overlaps(c: Census, v: Record): seq<Entry> { Filter(e => IsOverlap(c, e), v.entries) }

  lemma {:induction false} TotalConcat(a: seq<Entry>, b: seq<Entry>)
    ensures Total(a + b) == Total(a) + Total(b)
    decreases |b|
  {
    if b == [] {
      assert a + b == a;
    } else {
      assert (a + b)[..|a + b| - 1] == a + b[..|b| - 1];
      TotalConcat(a, b[..|b| - 1]);
    }
  }

  lemma FilterLast(p: Entry -> bool, es: seq<Entry>)
    requires es != []
    ensures var e := es[|es| - 1];
      Total(Filter(p, es)) == Total(Filter(p, es[..|es| - 1])) + (if p(e) then EntryPaise(e) else 0)
  {
    var rest, e := Filter(p, es[..|es| - 1]), es[|es| - 1];
    assert (rest + [e])[..|rest|] == rest;
  }

  /** What the reader adds up, over some of the legs. */
  function Counted(c: Census, es: seq<Entry>): int {
    Total(Filter(e => IsCustomerCredit(c, e), es)) + Total(Filter(e => IsBankLine(c, e), es))
    + Total(Filter(e => IsDebit(e) && IsRoundOffLine(e), es)) + Total(Filter(e => IsCredit(e) && IsRoundOffLine(e), es))
    + Total(Filter(e => IsDebit(e) && IsHeadLine(c, e), es)) + Total(Filter(e => IsSilent(e) && IsHeadLine(c, e), es))
  }

  /** How often one leg enters that sum: once, twice on an overlap, and not at all on a stray credit. */
  function Times(c: Census, e: Entry): nat {
    (if IsCustomerCredit(c, e) then 1 else 0) + (if IsBankLine(c, e) then 1 else 0)
    + (if IsRoundOffLine(e) then 1 else 0) + (if IsHeadLine(c, e) then 1 else 0)
  }

  lemma CountedLast(c: Census, es: seq<Entry>)
    requires es != []
    ensures Counted(c, es) == Counted(c, es[..|es| - 1]) + Times(c, es[|es| - 1]) * EntryPaise(es[|es| - 1])
  {
    hide Filter, Total, IsBank, IsCustomer, IsRoundOff, EntryPaise;
    FilterLast(e => IsCustomerCredit(c, e), es);
    FilterLast(e => IsBankLine(c, e), es);
    FilterLast(e => IsDebit(e) && IsRoundOffLine(e), es);
    FilterLast(e => IsCredit(e) && IsRoundOffLine(e), es);
    FilterLast(e => IsDebit(e) && IsHeadLine(c, e), es);
    FilterLast(e => IsSilent(e) && IsHeadLine(c, e), es);
  }

  lemma LegCounts(c: Census, e: Entry)
    requires !IsStrayCredit(c, e)
    ensures Times(c, e) * EntryPaise(e) == EntryPaise(e) + (if IsOverlap(c, e) then EntryPaise(e) else 0)
  {
    hide IsBank, IsCustomer, IsRoundOff, EntryPaise;
    assert IsSilent(e) ==> EntryPaise(e) == 0 by { SilentIsNothing(e); }
    assert Times(c, e) == if IsOverlap(c, e) then 2 else if IsSilent(e) then Times(c, e) else 1;
  }

  lemma SilentIsNothing(e: Entry)
    ensures IsSilent(e) ==> EntryPaise(e) == 0
  {
  }

  lemma {:induction false} CountedIsLegs(c: Census, es: seq<Entry>)
    requires forall e :: e in es ==> !IsStrayCredit(c, e)
    ensures Counted(c, es) == Total(es) + Total(Filter(e => IsOverlap(c, e), es))
    decreases |es|
  {
    hide IsBank, IsCustomer, IsRoundOff, EntryPaise, IsStrayCredit, IsOverlap, Times;
    if es == [] {
    } else {
      var init, last := es[..|es| - 1], es[|es| - 1];
      assert last in es && forall e :: e in init ==> e in es;
      CountedIsLegs(c, init);
      CountedLast(c, es);
      FilterLast(e => IsOverlap(c, e), es);
      LegCounts(c, last);
    }
  }

  lemma {:induction false} HeadsAreDebits(es: seq<Entry>)
    requires AllLegal(es) && forall e :: e in es ==> !IsCredit(e)
    ensures TotalKept(es) == -Total(es)
    decreases |es|
  {
    hide Legal;
    if es != [] {
      var init, last := es[..|es| - 1], es[|es| - 1];
      assert last in es && forall e :: e in init ==> e in es;
      HeadsAreDebits(init);
      assert EntryPaise(last) <= 0 by { DebitSign(last); }
    }
  }

  lemma DebitSign(e: Entry)
    requires Legal(e) && !IsCredit(e)
    ensures EntryPaise(e) <= 0
  {
  }

  /** What keeps a receipt from reconciling is its own imbalance, plus whatever was counted twice. */
  lemma GapIsImbalance(c: Census, v: Record)
    requires AllLegal(v.entries) && Shape(c, v) == None
    ensures var r := ReceiptOf(c, v);
      r.gross - (r.net + r.deductionTotal) == Total(v.entries) + Total(Overlaps(c, v))
  {
    hide IsBank, IsCustomer, IsRoundOff, EntryPaise, Legal, Filter, Folded, DepositOf;
    var credits, heads := CustomerCredits(c, v), HeadLines(c, v);
    assert credits == [credits[0]];
    OneTotal(credits[0]);
    HeadsAreDebits(heads);
    SplitTotals(c, v);
    CountedIsLegs(c, v.entries);
  }

  lemma OneTotal(e: Entry)
    ensures Total([e]) == EntryPaise(e)
  {
    assert [e][..0] == [];
    assert Total([e][..0]) == 0;
  }

  lemma SplitTotals(c: Census, v: Record)
    ensures Total(CustomerCredits(c, v)) + Total(BankLines(c, v)) + Total(RoundOffLines(v)) + Total(HeadLines(c, v))
         == Counted(c, v.entries)
  {
    hide Filter, Total, IsBankLine, IsHeadLine, IsCustomerCredit, IsRoundOffLine, IsDebit, IsCredit, IsSilent;
    TotalConcat(Filter(e => IsDebit(e) && IsRoundOffLine(e), v.entries),
                Filter(e => IsCredit(e) && IsRoundOffLine(e), v.entries));
    TotalConcat(Filter(e => IsDebit(e) && IsHeadLine(c, e), v.entries),
                Filter(e => IsSilent(e) && IsHeadLine(c, e), v.entries));
  }

  /** A voucher that gets as far as the arithmetic is accepted exactly when its legs and overlaps cancel. */
  lemma AcceptedExactlyWhen(c: Census, v: Record)
    requires AllLegal(v.entries)
    ensures FateOf(c, v).Accepted? <==> Shape(c, v) == None && Total(v.entries) + Total(Overlaps(c, v)) == 0
    ensures FateOf(c, v) == RefusedAs(Unbalanced) <==>
      Shape(c, v) == None && Total(v.entries) + Total(Overlaps(c, v)) != 0
  {
    hide ReceiptOf, Total, Overlaps;
    if Shape(c, v) == None { GapIsImbalance(c, v); }
  }

  predicate NoOverlap(c: Census, v: Record) { forall e :: e in v.entries ==> !IsOverlap(c, e) }

  lemma {:induction false} NothingFiltered(p: Entry -> bool, es: seq<Entry>)
    requires forall e :: e in es ==> !p(e)
    ensures Filter(p, es) == []
  {
    if Filter(p, es) != [] { assert Filter(p, es)[0] in Filter(p, es); }
  }

  /**
   * With no ledger both round-off and customer or bank: accepted only if balanced, and balanced is never unbalanced.
   */
  lemma BalancedExactlyWhen(c: Census, v: Record)
    requires AllLegal(v.entries) && NoOverlap(c, v)
    ensures FateOf(c, v).Accepted? ==> Total(v.entries) == 0
    ensures Total(v.entries) == 0 ==> FateOf(c, v) != RefusedAs(Unbalanced)
  {
    hide FateOf, Shape;
    AcceptedExactlyWhen(c, v);
    NothingFiltered(e => IsOverlap(c, e), v.entries);
  }

  // ---- a customer whose name reads as a round-off ------------------------------------------------

  lemma {:induction false} SqueezeClean(s: string)
    requires forall i :: 0 <= i < |s| ==> IsAlphanumeric(s[i])
    ensures Squeeze(s) == s
    decreases |s|
  {
    assert Upper(s) == s;
    if s != [] {
      SqueezeClean(s[1..]);
      assert Upper(s[1..]) == s[1..];
    }
  }

  lemma {:induction false} ContainsFits(s: string, part: string)
    ensures Contains(s, part) ==> |part| <= |s|
    decreases |s|
  {
    if s != [] { ContainsFits(s[1..], part); }
  }

  lemma FilterSnoc(p: Entry -> bool, es: seq<Entry>, e: Entry)
    ensures Filter(p, es + [e]) == if p(e) then Filter(p, es) + [e] else Filter(p, es)
  {
    assert (es + [e])[..|es|] == es;
  }

  /** A customer ledger called ROUNDOFF, a bank and a deduction head. */
  function OverlapCensus(readPlCode: string -> Option<string>): Census {
    Census(map["ROUNDOFF" := Facts([], true, None, None), "BANK" := Facts(["bank accounts"], false, None, None),
               "COPY" := Facts([], false, None, None)], readPlCode)
  }

  function Credited(ledger: string, paise: nat): Entry { Entry(ledger, Some(PaiseText(paise))) }

  function Debited(ledger: string, paise: nat): Entry
    requires paise > 0
  {
    Entry(ledger, Some(PaiseText(0 - paise)))
  }

  function OverlapVoucher(bank: nat, withheld: nat): Record
    requires bank > 0 && withheld > 0
  {
    Record("g", None, "Receipt", "2026-04-01", None, None, "ROUNDOFF", None, None, false, false,
           [Credited("ROUNDOFF", 10000)] + [Debited("BANK", bank)] + [Debited("COPY", withheld)],
           [], "100.00", map[], 1)
  }

  lemma RoundOffNames()
    ensures IsRoundOff("ROUNDOFF") && !IsRoundOff("BANK") && !IsRoundOff("COPY")
  {
    hide Squeeze;
    SqueezeClean("ROUNDOFF");
    SqueezeClean("BANK");
    SqueezeClean("COPY");
    ContainsFits("BANK", "ROUNDOFF");
    ContainsFits("BANK", "ROUNDINGOFF");
    ContainsFits("COPY", "ROUNDOFF");
    ContainsFits("COPY", "ROUNDINGOFF");
  }

  lemma LedgerKinds(c: Census)
    requires c == OverlapCensus(c.readPlCode)
    ensures IsCustomer(c, "ROUNDOFF") && !IsCustomer(c, "BANK") && !IsCustomer(c, "COPY")
    ensures !IsBank(c, "ROUNDOFF") && IsBank(c, "BANK") && !IsBank(c, "COPY")
  {
    var group := BANK_GROUPS[0];
    assert Lower("bank accounts") == "bank accounts";
    assert group in BANK_GROUPS && HasGroup(["bank accounts"], group);
  }

  lemma FigureSides(ledger: string, paise: nat)
    ensures IsCredit(Credited(ledger, paise)) && EntryPaise(Credited(ledger, paise)) == paise
    ensures Legal(Credited(ledger, paise))
    ensures paise > 0 ==>
      var leg := Debited(ledger, paise); IsDebit(leg) && EntryPaise(leg) == 0 - paise && Legal(leg)
  {
    hide ToPaise, UnsignedPaiseText;
    PaiseRoundTrip(paise);
    PaiseRoundTrip(0 - paise);
    UnsignedRoundTrip(paise);
    if paise > 0 { assert PaiseText(0 - paise)[1..] == PaiseText(paise); }
  }

  lemma OverlapLegs(c: Census, bank: nat, withheld: nat)
    requires bank > 0 && withheld > 0 && c == OverlapCensus(c.readPlCode)
    ensures var v := OverlapVoucher(bank, withheld);
      && AllLegal(v.entries) && Shape(c, v) == None
      && Total(v.entries) == 10000 - bank - withheld && Total(Overlaps(c, v)) == 10000
  {
    hide EntryPaise, Legal, PaiseText, IsRoundOff, IsCustomer, IsBank, Total, Shape;
    var v := OverlapVoucher(bank, withheld);
    var k, b, h := Credited("ROUNDOFF", 10000), Debited("BANK", bank), Debited("COPY", withheld);
    RoundOffNames();
    LedgerKinds(c);
    FigureSides("ROUNDOFF", 10000);
    FigureSides("BANK", bank);
    FigureSides("COPY", withheld);
    assert v.entries == [] + [k] + [b] + [h];
    ThreeLegs(k, b, h, e => IsCustomerCredit(c, e));
    ThreeLegs(k, b, h, e => IsOverlap(c, e));
    ThreeTotal(k, b, h);
    OneTotal(k);
    OverlapShape(c, v, k, b, h);
  }

  lemma ThreeTotal(k: Entry, b: Entry, h: Entry)
    ensures Total([k] + [b] + [h]) == EntryPaise(k) + EntryPaise(b) + EntryPaise(h)
  {
    hide EntryPaise;
    OneTotal(k);
    OneTotal(b);
    OneTotal(h);
    TotalConcat([k], [b]);
    TotalConcat([k] + [b], [h]);
  }

  lemma ThreeLegs(k: Entry, b: Entry, h: Entry, p: Entry -> bool)
    requires p(k) && !p(b) && !p(h)
    ensures Filter(p, [k] + [b] + [h]) == [k]
  {
    FilterSnoc(p, [k] + [b], h);
    FilterSnoc(p, [k], b);
    FilterSnoc(p, [], k);
    assert [] + [k] == [k];
  }

  lemma OverlapShape(c: Census, v: Record, k: Entry, b: Entry, h: Entry)
    requires v.entries == [k] + [b] + [h] && !v.cancelled && !v.optional && !IsBank(c, v.partyLedger)
    requires k.ledger in c.ledgers && b.ledger in c.ledgers && h.ledger in c.ledgers
    requires IsCredit(k) && IsCustomer(c, k.ledger) && EntryPaise(k) > 0 && CustomerCredits(c, v) == [k]
    requires IsDebit(b) && IsBank(c, b.ledger) && !IsRoundOff(b.ledger)
    requires IsDebit(h) && !IsBank(c, h.ledger) && !IsRoundOff(h.ledger) && !IsCustomer(c, h.ledger)
    ensures Shape(c, v) == None
  {
    hide EntryPaise, IsRoundOff, IsCustomer, IsBank, Filter;
    assert h in v.entries && b in v.entries;
    assert h in HeadLines(c, v);
    assert b in BankLines(c, v);
    assert forall e :: e in v.entries ==> e == k || e == b || e == h;
  }

  /** Where that happens a voucher out of balance by 100 rupees is accepted, and a balanced one is refused. */
  lemma OverlapMisjudged(readPlCode: string -> Option<string>)
    ensures var c := OverlapCensus(readPlCode);
      && FateOf(c, OverlapVoucher(15000, 5000)).Accepted? && Total(OverlapVoucher(15000, 5000).entries) == -10000
      && FateOf(c, OverlapVoucher(6000, 4000)) == RefusedAs(Unbalanced)
      && Total(OverlapVoucher(6000, 4000).entries) == 0
  {
    hide FateOf, Shape, Overlaps, Total, OverlapVoucher, AllLegal;
    var c := OverlapCensus(readPlCode);
    OverlapLegs(c, 15000, 5000);
    AcceptedExactlyWhen(c, OverlapVoucher(15000, 5000));
    OverlapLegs(c, 6000, 4000);
    AcceptedExactlyWhen(c, OverlapVoucher(6000, 4000));
  }

  // ---- what a folded line is ------------------------------------------------------------------------

  function LegsOn(heads: seq<Entry>, ledger: string): seq<Entry> { Filter((e: Entry) => e.ledger == ledger, heads) }

  predicate AllSilent(es: seq<Entry>) { forall e :: e in es ==> IsSilent(e) }

  /** The one line a ledger's legs come to. */
  function LineOf(c: Census, heads: seq<Entry>, ledger: string): Deduction {
    var legs := LegsOn(heads, ledger);
    Deduction(DeductionHead(c, ledger), ledger, TotalKept(legs), AllSilent(legs), PlCodeOf(c, ledger), |legs|)
  }

  predicate DistinctLedgers(lines: seq<Deduction>) {
    forall i, j :: 0 <= i < j < |lines| ==> lines[i].ledger != lines[j].ledger
  }

  function LineLedgers(lines: seq<Deduction>): set<string> { set d | d in lines :: d.ledger }

  function LegLedgers(heads: seq<Entry>): set<string> { set e | e in heads :: e.ledger }

  /** One line to each ledger the legs name, and on it what that ledger's legs come to. */
  predicate Summarises(c: Census, lines: seq<Deduction>, heads: seq<Entry>) {
    && DistinctLedgers(lines) && LineLedgers(lines) == LegLedgers(heads)
    && forall i {:trigger lines[i]} :: 0 <= i < |lines| ==> lines[i] == LineOf(c, heads, lines[i].ledger)
  }

  lemma LegsOnSnoc(heads: seq<Entry>, e: Entry, ledger: string)
    ensures LegsOn(heads + [e], ledger) ==
      if e.ledger == ledger then LegsOn(heads, ledger) + [e] else LegsOn(heads, ledger)
  {
    assert (heads + [e])[..|heads|] == heads;
  }

  lemma KeptSnoc(es: seq<Entry>, e: Entry)
    ensures TotalKept(es + [e]) == TotalKept(es) + Kept(e)
    ensures AllSilent(es + [e]) <==> AllSilent(es) && IsSilent(e)
  {
    assert (es + [e])[..|es|] == es;
    assert forall x :: x in es + [e] <==> x in es || x == e;
  }

  /** One more leg changes its own ledger's line as FoldLeg does, and no other ledger's. */
  lemma LineGrows(c: Census, heads: seq<Entry>, e: Entry, ledger: string)
    ensures var before, after := LineOf(c, heads, ledger), LineOf(c, heads + [e], ledger);
      after == if e.ledger != ledger then before
               else before.(amount := before.amount + Kept(e), amountMissing := before.amountMissing && IsSilent(e),
                            legCount := before.legCount + 1)
  {
    hide Filter, LegsOn, DeductionHead, PlCodeOf, Kept, AllSilent, TotalKept;
    LegsOnSnoc(heads, e, ledger);
    KeptSnoc(LegsOn(heads, ledger), e);
  }

  lemma FirstLineOf(c: Census, heads: seq<Entry>, ledger: string)
    requires forall e :: e in heads ==> e.ledger != ledger
    ensures LineOf(c, heads, ledger) == Deduction(DeductionHead(c, ledger), ledger, 0, true, PlCodeOf(c, ledger), 0)
  {
    NothingFiltered((e: Entry) => e.ledger == ledger, heads);
  }

  lemma FoldLegSummarises(c: Census, lines: seq<Deduction>, heads: seq<Entry>, e: Entry)
    requires Summarises(c, lines, heads)
    ensures Summarises(c, FoldLeg(c, lines, e), heads + [e])
  {
    hide LineOf, FoldLeg, LineAt, LineLedgers, LegLedgers;
    var after := FoldLeg(c, lines, e);
    forall i {:trigger after[i]} | 0 <= i < |after| ensures after[i] == LineOf(c, heads + [e], after[i].ledger) {
      LineFolded(c, lines, heads, e, i);
    }
    FoldLegLedgers(c, lines, e);
    LegLedgersSnoc(heads, e);
  }

  lemma LegLedgersSnoc(heads: seq<Entry>, e: Entry)
    ensures LegLedgers(heads + [e]) == LegLedgers(heads) + {e.ledger}
  {
    assert forall x :: x in heads + [e] <==> x in heads || x == e;
  }

  lemma LineLedgersGrow(lines: seq<Deduction>, after: seq<Deduction>, at: nat)
    requires at < |after| && |lines| <= |after| && (|after| == |lines| || (|after| == |lines| + 1 && at == |lines|))
    requires forall i :: 0 <= i < |lines| ==> after[i].ledger == lines[i].ledger
    ensures LineLedgers(after) == LineLedgers(lines) + {after[at].ledger}
  {
    forall l | l in LineLedgers(after) ensures l in LineLedgers(lines) + {after[at].ledger} {
      var i :| 0 <= i < |after| && after[i].ledger == l;
      assert i < |lines| ==> lines[i] in lines;
    }
    forall l | l in LineLedgers(lines) ensures l in LineLedgers(after) {
      var i :| 0 <= i < |lines| && lines[i].ledger == l;
      assert after[i] in after;
    }
  }

  lemma FoldLegLedgers(c: Census, lines: seq<Deduction>, e: Entry)
    requires DistinctLedgers(lines)
    ensures DistinctLedgers(FoldLeg(c, lines, e))
    ensures LineLedgers(FoldLeg(c, lines, e)) == LineLedgers(lines) + {e.ledger}
  {
    hide DeductionHead, PlCodeOf, Kept, LineLedgers;
    LineLedgersGrow(lines, FoldLeg(c, lines, e), LineAt(lines, e.ledger));
  }

  /** Each line of the fold is its ledger's line over the longer list of legs. */
  lemma LineFolded(c: Census, lines: seq<Deduction>, heads: seq<Entry>, e: Entry, i: nat)
    requires Summarises(c, lines, heads) && i < |FoldLeg(c, lines, e)|
    ensures FoldLeg(c, lines, e)[i] == LineOf(c, heads + [e], FoldLeg(c, lines, e)[i].ledger)
  {
    hide LineOf, DeductionHead, PlCodeOf, Kept, DistinctLedgers;
    var at := LineAt(lines, e.ledger);
    if i < |lines| && i != at {
      SummarisesApart(c, lines, heads, i, at);
      LineGrows(c, heads, e, lines[i].ledger);
    } else {
      LineGrows(c, heads, e, e.ledger);
      if at == |lines| {
        NotYetSeen(c, lines, heads, e.ledger);
        FirstLineOf(c, heads, e.ledger);
      } else {
        LineAccounts(c, heads, e.ledger);
      }
    }
  }

  lemma SummarisesApart(c: Census, lines: seq<Deduction>, heads: seq<Entry>, i: nat, at: nat)
    requires Summarises(c, lines, heads) && i < |lines| && at <= |lines| && i != at
    ensures lines[i] == LineOf(c, heads, lines[i].ledger)
    ensures at < |lines| ==> lines[at].ledger != lines[i].ledger
  {
    hide LineOf;
  }

  lemma NotYetSeen(c: Census, lines: seq<Deduction>, heads: seq<Entry>, ledger: string)
    requires Summarises(c, lines, heads) && LineAt(lines, ledger) == |lines|
    ensures forall e :: e in heads ==> e.ledger != ledger
  {
    hide LineOf, DistinctLedgers;
    assert ledger !in LineLedgers(lines);
    assert forall e :: e in heads ==> e.ledger in LegLedgers(heads);
  }

  lemma LineAccounts(c: Census, heads: seq<Entry>, ledger: string)
    ensures LineOf(c, heads, ledger).plCode == PlCodeOf(c, ledger)
    ensures LineOf(c, heads, ledger).head == DeductionHead(c, ledger)
    ensures LineOf(c, heads, ledger).ledger == ledger
  {
  }

  lemma {:induction false} FoldedSummarises(c: Census, heads: seq<Entry>)
    ensures Summarises(c, Folded(c, heads), heads)
    decreases |heads|
  {
    hide FoldLeg, Summarises;
    if heads == [] {
      NothingSummarised(c);
    } else {
      var init, last := heads[..|heads| - 1], heads[|heads| - 1];
      FoldedSummarises(c, init);
      FoldLegSummarises(c, Folded(c, init), init, last);
      assert init + [last] == heads;
    }
  }

  lemma NothingSummarised(c: Census)
    ensures Summarises(c, [], [])
  {
  }

  function SumAmounts(lines: seq<Deduction>): nat {
    if lines == [] then 0 else SumAmounts(lines[..|lines| - 1]) + lines[|lines| - 1].amount
  }

  function SumCounts(lines: seq<Deduction>): nat {
    if lines == [] then 0 else SumCounts(lines[..|lines| - 1]) + lines[|lines| - 1].legCount
  }

  lemma {:induction false} SumsChangeAt(lines: seq<Deduction>, at: nat, d: Deduction)
    requires at < |lines|
    ensures SumAmounts(lines[at := d]) == SumAmounts(lines) - lines[at].amount + d.amount
    ensures SumCounts(lines[at := d]) == SumCounts(lines) - lines[at].legCount + d.legCount
    decreases |lines|
  {
    var n := |lines| - 1;
    if at < n {
      assert lines[at := d][..n] == lines[..n][at := d];
      SumsChangeAt(lines[..n], at, d);
    } else {
      assert lines[at := d][..n] == lines[..n];
    }
  }

  /** The fold loses nothing: amounts and leg counts add up to the legs that went in. */
  lemma {:induction false} FoldLosesNothing(c: Census, heads: seq<Entry>)
    ensures SumAmounts(Folded(c, heads)) == TotalKept(heads)
    ensures SumCounts(Folded(c, heads)) == |heads|
    decreases |heads|
  {
    hide DeductionHead, PlCodeOf, Kept;
    if heads != [] {
      var init, e := heads[..|heads| - 1], heads[|heads| - 1];
      FoldLosesNothing(c, init);
      var lines := Folded(c, init);
      var at := LineAt(lines, e.ledger);
      if at < |lines| {
        SumsChangeAt(lines, at, Folded(c, heads)[at]);
      } else {
        assert Folded(c, heads)[..|lines|] == lines;
      }
    }
  }

  /** An accepted receipt: its gross is what reached the bank plus every folded line, one line to a ledger. */
  lemma ReceiptReconciles(c: Census, v: Record)
    requires FateOf(c, v).Accepted?
    ensures var r := FateOf(c, v).receipt;
      && r.voucher == v && r.gross > 0
      && r.gross == r.net + SumAmounts(r.deductions)
      && r.net == r.roundOff - Total(BankLines(c, v))
      && SumCounts(r.deductions) == |HeadLines(c, v)|
      && Summarises(c, r.deductions, HeadLines(c, v))
  {
    hide Folded, TotalKept, SumAmounts, SumCounts, Filter, Summarises, Shape;
    hide BankLines, RoundOffLines, HeadLines, CustomerCredits;
    FoldLosesNothing(c, HeadLines(c, v));
    FoldedSummarises(c, HeadLines(c, v));
  }

  predicate IsCodedDeposit(c: Census, e: Entry) {
    DeductionHead(c, e.ledger) == SecurityDeposit && PlCodeOf(c, e.ledger).Some?
  }

  lemma {:induction false} DepositMeaning(c: Census, heads: seq<Entry>)
    ensures var d := DepositOf(c, heads);
      && (d.code == None ==> forall e :: e in heads ==> !IsCodedDeposit(c, e))
      && (d.code.Some? ==> exists e :: e in heads && IsCodedDeposit(c, e) && PlCodeOf(c, e.ledger) == d.code)
      && (d.ambiguous <==> exists e :: e in heads && IsCodedDeposit(c, e) && PlCodeOf(c, e.ledger) != d.code)
    decreases |heads|
  {
    hide DeductionHead, PlCodeOf;
    if heads != [] {
      var init, last := heads[..|heads| - 1], heads[|heads| - 1];
      DepositMeaning(c, init);
      assert forall e :: e in heads <==> e in init || e == last;
    }
  }

  /** The work code proposed is the one every coded security-deposit leg names, when they all name one. */
  lemma DepositCodeExactlyWhen(c: Census, v: Record, code: string)
    requires FateOf(c, v).Accepted?
    ensures FateOf(c, v).receipt.depositPlCode == Some(code) <==>
      && (exists e :: e in HeadLines(c, v) && IsCodedDeposit(c, e))
      && (forall e :: e in HeadLines(c, v) && IsCodedDeposit(c, e) ==> PlCodeOf(c, e.ledger) == Some(code))
  {
    hide DeductionHead, PlCodeOf, DepositOf, Shape, HeadLines;
    DepositMeaning(c, HeadLines(c, v));
  }

  // ---- every voucher lands in exactly one list ------------------------------------------------------------

  function VouchersOf(receipts: seq<Receipt>): seq<Record> {
    if receipts == [] then [] else VouchersOf(receipts[..|receipts| - 1]) + [receipts[|receipts| - 1].voucher]
  }

  lemma VouchersOfSnoc(receipts: seq<Receipt>, r: Receipt)
    ensures VouchersOf(receipts + [r]) == VouchersOf(receipts) + [r.voucher]
  {
    assert (receipts + [r])[..|receipts|] == receipts;
  }

  function AllOf(s: Sorted): multiset<Record> {
    multiset(VouchersOf(s.receipts)) + multiset(s.skipped) + multiset(s.refused)
    + multiset(s.cancelled) + multiset(s.optional)
  }

  lemma PutInOne(c: Census, s: Sorted, v: Record)
    ensures AllOf(PutIn(c, s, v)) == AllOf(s) + multiset{v}
  {
    hide FateOf, VouchersOf;
    if FateOf(c, v).Accepted? {
      AcceptedIsOf(c, v);
      VouchersOfSnoc(s.receipts, FateOf(c, v).receipt);
    }
  }

  /** The five lists together hold every voucher exactly as often as the export did. */
  lemma {:induction false} EachInOneList(c: Census, vs: seq<Record>)
    ensures AllOf(SortAll(c, vs)) == multiset(vs)
    decreases |vs|
  {
    hide FateOf, PutIn, AllOf;
    if vs == [] {
      NoVouchers();
    } else {
      var init, v := vs[..|vs| - 1], vs[|vs| - 1];
      EachInOneList(c, init);
      PutInOne(c, SortAll(c, init), v);
      assert vs == init + [v];
    }
  }

  lemma NoVouchers()
    ensures AllOf(Sorted([], [], [], [], [])) == multiset{}
  {
  }

  /** And each list holds only the vouchers that belong there. */
  lemma {:induction false} ListsAgreeWithFates(c: Census, vs: seq<Record>)
    ensures var s := SortAll(c, vs);
      && (forall r :: r in s.receipts ==> FateOf(c, r.voucher) == Accepted(r))
      && (forall v :: v in s.skipped ==> FateOf(c, v).Skipped?)
      && (forall v :: v in s.refused ==> FateOf(c, v).RefusedAs?)
      && (forall v :: v in s.cancelled ==> FateOf(c, v) == Cancelled)
      && (forall v :: v in s.optional ==> FateOf(c, v) == Optional)
    decreases |vs|
  {
    hide FateOf;
    if vs != [] {
      var init, v := vs[..|vs| - 1], vs[|vs| - 1];
      ListsAgreeWithFates(c, init);
      if FateOf(c, v).Accepted? { AcceptedIsOf(c, v); }
    }
  }

  lemma AcceptedIsOf(c: Census, v: Record)
    requires FateOf(c, v).Accepted?
    ensures FateOf(c, v).receipt.voucher == v
  {
    hide Shape;
  }
}
