/**
 * What becomes of a TallyPrime receipt (tally-receipts.ts), in terms of its legs and the census: which receipts are
 * passed over or refused and why, which head each deduction is booked to, and what the figures of a receipt add up.
 */
module TallyDeductions {
  import opened Text
  import opened Decimal
  import opened Money
  import opened TallyMatch
  import opened TallyVouchers
  import opened TallyReceipts

  // ---- ledgers -----------------------------------------------------------------------------

  /** The group ancestry the census holds of a ledger; nothing of one it does not hold. */
  function PathOf(c: Census, ledger: string): seq<string> {
    if ledger in c.ledgers then c.ledgers[ledger].groupPath else []
  }

  predicate Under(c: Census, ledger: string, group: string) { exists g :: g in PathOf(c, ledger) && Lower(g) == group }

  predicate UnderPrefix(c: Census, ledger: string, prefix: string) {
    exists g :: g in PathOf(c, ledger) && |g| >= |prefix| && Lower(g)[..|prefix|] == prefix
  }

  predicate Banked(c: Census, ledger: string) {
    || Under(c, ledger, "bank accounts") || Under(c, ledger, "bank od a/c")
    || Under(c, ledger, "bank occ a/c") || Under(c, ledger, "cash-in-hand")
  }

  lemma BankExactlyWhen(c: Census, ledger: string)
    ensures IsBank(c, ledger) <==> Banked(c, ledger)
  {
    var b := BANK_GROUPS;
    assert b[0] in b && b[1] in b && b[2] in b && b[3] in b;
    assert forall g :: g in b <==> g == b[0] || g == b[1] || g == b[2] || g == b[3];
  }

  /** A ledger whose squeezed name holds one of the two spellings of a round-off. */
  ghost predicate Rounding(ledger: string) {
    Holds(Squeeze(ledger), "ROUNDOFF") || Holds(Squeeze(ledger), "ROUNDINGOFF")
  }

  lemma RoundingExactlyWhen(ledger: string)
    ensures IsRoundOff(ledger) <==> Rounding(ledger)
  {
    hide Squeeze, Contains, Holds;
    ContainsExactlyWhen(Squeeze(ledger), "ROUNDOFF");
    ContainsExactlyWhen(Squeeze(ledger), "ROUNDINGOFF");
  }

  predicate Customer(c: Census, ledger: string) { ledger in c.ledgers && c.ledgers[ledger].isCustomer }

  // ---- heads ----------------------------------------------------------------------------------

  predicate NamesDamages(ledger: string) { Squeeze(ledger) in {"CONTRACUALDEDUCTION", "CONTRACTUALDEDUCTION"} }

  /** The head of a ledger: damages by name, then the three groups in their order, and one bucket for the rest. */
  predicate HeadExactlyWhen(c: Census, ledger: string, head: Head) {
    var damages, gst := NamesDamages(ledger), Under(c, ledger, "gst- tds");
    var income := Under(c, ledger, "tds on railway bills") || UnderPrefix(c, ledger, "tds & sat ay");
    var deposit := Under(c, ledger, "railway security deposits");
    && (head == LiquidatedDamages <==> damages)
    && (head == GstTds <==> gst && !damages)
    && (head == IncomeTaxTds <==> income && !gst && !damages)
    && (head == SecurityDeposit <==> deposit && !income && !gst && !damages)
    && (head == OtherHead <==> !deposit && !income && !gst && !damages)
  }

  lemma PrefixGroup(path: seq<string>, prefix: string)
    ensures HasGroupPrefix(path, prefix) <==> exists g :: g in path && |g| >= |prefix| && Lower(g)[..|prefix|] == prefix
  {
    forall g: string ensures StartsWith(Lower(g), prefix) <==> |g| >= |prefix| && Lower(g)[..|prefix|] == prefix {
      assert |Lower(g)| == |g|;
    }
  }

  lemma LedgerHead(c: Census, ledger: string)
    ensures HeadExactlyWhen(c, ledger, DeductionHead(c, ledger))
  {
    hide Squeeze, Lower, HasGroupPrefix;
    PrefixGroup(PathOf(c, ledger), "tds & sat ay");
  }

  /** The work code on a line: the census's, else the one the ledger's name spells. */
  predicate CodedAs(c: Census, ledger: string, code: Option<string>) {
    code == if ledger in c.ledgers && c.ledgers[ledger].plCode != None then c.ledgers[ledger].plCode
            else c.readPlCode(ledger)
  }

  // ---- legs -----------------------------------------------------------------------------------

  predicate Debit(e: Entry) { e.amount.Some? && e.amount.value != "" && e.amount.value[0] == '-' }

  predicate Credit(e: Entry) { e.amount.Some? && !Debit(e) }

  lemma SidesWrittenOut(e: Entry)
    ensures (IsDebit(e) <==> Debit(e)) && (IsCredit(e) <==> Credit(e))
  {
    if e.amount.Some? && e.amount.value != "" { assert e.amount.value[..1] == [e.amount.value[0]]; }
  }

  /** A leg that withholds: debited or without a figure, to no bank and no round-off. */
  ghost predicate Withholds(c: Census, e: Entry) { !Credit(e) && !Banked(c, e.ledger) && !Rounding(e.ledger) }

  lemma WithholdsExactlyWhen(c: Census, e: Entry)
    ensures IsHeadLine(c, e) <==> Withholds(c, e)
  {
    hide IsBank, Banked, IsRoundOff, Rounding;
    SidesWrittenOut(e);
    BankExactlyWhen(c, e.ledger);
    RoundingExactlyWhen(e.ledger);
  }

  // ---- sums over the legs ------------------------------------------------------------------------

  /** The legs that credit a customer. */
  ghost function Payments(c: Census): Entry -> bool { e => Credit(e) && Customer(c, e.ledger) }

  /** The legs with a figure on a round-off ledger. */
  ghost function RoundOffs(): Entry -> bool { (e: Entry) => e.amount.Some? && Rounding(e.ledger) }

  /** The legs that debit a bank. */
  ghost function Bankings(c: Census): Entry -> bool { e => Debit(e) && Banked(c, e.ledger) }

  ghost function Withholdings(c: Census): Entry -> bool { e => Withholds(c, e) }

  ghost function WithholdingsOn(c: Census, ledger: string): Entry -> bool {
    (e: Entry) => Withholds(c, e) && e.ledger == ledger
  }

  /** The sum of the figures, in paise, of the legs that p picks. */
  ghost function SumWhere(p: Entry -> bool, es: seq<Entry>): int {
    if es == [] then 0
    else SumWhere(p, es[..|es| - 1]) + if p(es[|es| - 1]) then EntryPaise(es[|es| - 1]) else 0
  }

  ghost function CountWhere(p: Entry -> bool, es: seq<Entry>): nat {
    if es == [] then 0 else CountWhere(p, es[..|es| - 1]) + if p(es[|es| - 1]) then 1 else 0
  }

  lemma {:induction false} FilterAdds(p: Entry -> bool, es: seq<Entry>)
    ensures Total(Filter(p, es)) == SumWhere(p, es) && |Filter(p, es)| == CountWhere(p, es)
    decreases |es|
  {
    hide EntryPaise;
    if es != [] {
      FilterAdds(p, es[..|es| - 1]);
      FilterLast(p, es);
    }
  }

  lemma {:induction false} SameWhere(p: Entry -> bool, q: Entry -> bool, es: seq<Entry>)
    requires forall e :: e in es ==> p(e) == q(e)
    ensures SumWhere(p, es) == SumWhere(q, es) && CountWhere(p, es) == CountWhere(q, es)
    decreases |es|
  {
    hide EntryPaise;
    if es != [] {
      assert es[|es| - 1] in es && forall e :: e in es[..|es| - 1] ==> e in es;
      SameWhere(p, q, es[..|es| - 1]);
    }
  }

  /** Two kinds of leg that no leg is both of. */
  lemma {:induction false} EitherWhere(p: Entry -> bool, q: Entry -> bool, r: Entry -> bool, es: seq<Entry>)
    requires forall e :: e in es ==> !(p(e) && q(e)) && (r(e) <==> p(e) || q(e))
    ensures SumWhere(p, es) + SumWhere(q, es) == SumWhere(r, es)
    ensures CountWhere(p, es) + CountWhere(q, es) == CountWhere(r, es)
    decreases |es|
  {
    hide EntryPaise;
    if es != [] {
      assert es[|es| - 1] in es && forall e :: e in es[..|es| - 1] ==> e in es;
      EitherWhere(p, q, r, es[..|es| - 1]);
    }
  }

  // ---- fates -----------------------------------------------------------------------------------

  ghost predicate Uncensused(c: Census, v: Record) {
    exists e :: e in v.entries && !Credit(e) && e.ledger !in c.ledgers
  }

  ghost function Payers(c: Census, v: Record): nat { CountWhere(Payments(c), v.entries) }

  ghost predicate StrayCredit(c: Census, v: Record) {
    exists e :: e in v.entries && Credit(e) && !Customer(c, e.ledger) && !Rounding(e.ledger)
  }

  ghost predicate AnyWithheld(c: Census, v: Record) { exists e :: e in v.entries && Withholds(c, e) }

  ghost predicate CustomerWithheld(c: Census, v: Record) {
    exists e :: e in v.entries && Withholds(c, e) && Customer(c, e.ledger)
  }

  ghost predicate ReachesBank(c: Census, v: Record) { exists e :: e in v.entries && Debit(e) && Banked(c, e.ledger) }

  /** What the one customer credited is credited with. */
  ghost function Paid(c: Census, v: Record): int { SumWhere(Payments(c), v.entries) }

  /** The fates short of the arithmetic, each with what sets it apart from those asked before it. */
  ghost predicate FateExactlyWhen(c: Census, v: Record, fate: Fate) {
    var live := !v.cancelled && !v.optional;
    var party := live && !Banked(c, v.partyLedger);
    var withheld := party && AnyWithheld(c, v);
    var censused := withheld && !Uncensused(c, v);
    var single := censused && Payers(c, v) == 1;
    var clean := single && !StrayCredit(c, v);
    var headed := clean && !CustomerWithheld(c, v);
    var banked := headed && ReachesBank(c, v);
    && (fate == Cancelled <==> v.cancelled)
    && (fate == Optional <==> v.optional && !v.cancelled)
    && (fate == Skipped(BankParty) <==> live && !party)
    && (fate == Skipped(NoDeduction) <==> party && !withheld)
    && (fate == RefusedAs(UncensusedLedger) <==> withheld && !censused)
    && (fate == RefusedAs(NoCustomerCredit) <==> censused && Payers(c, v) == 0)
    && (fate == RefusedAs(TwoParty) <==> censused && Payers(c, v) > 1)
    && (fate == RefusedAs(CreditedHead) <==> single && !clean)
    && (fate == RefusedAs(CustomerAsHead) <==> clean && !headed)
    && (fate == RefusedAs(NoBankLine) <==> headed && !banked)
    && (fate == RefusedAs(ZeroGross) <==> banked && Paid(c, v) <= 0)
    && (fate.Accepted? || fate == RefusedAs(Unbalanced) <==> banked && Paid(c, v) > 0)
  }

  lemma PayersAreCredits(c: Census, v: Record)
    ensures |CustomerCredits(c, v)| == Payers(c, v) && Total(CustomerCredits(c, v)) == Paid(c, v)
  {
    hide Filter, EntryPaise, SumWhere, CountWhere;
    FilterAdds(e => IsCustomerCredit(c, e), v.entries);
    forall e ensures IsCustomerCredit(c, e) == (Credit(e) && Customer(c, e.ledger)) { SidesWrittenOut(e); }
    SameWhere(e => IsCustomerCredit(c, e), Payments(c), v.entries);
  }

  lemma HeadsExist(c: Census, v: Record)
    ensures HeadLines(c, v) == [] <==> !AnyWithheld(c, v)
    ensures BankLines(c, v) == [] <==> !ReachesBank(c, v)
  {
    hide IsHeadLine, Withholds, Banked, IsBank, IsRoundOff;
    var heads, banks := HeadLines(c, v), BankLines(c, v);
    forall e: Entry
      ensures IsHeadLine(c, e) <==> Withholds(c, e)
      ensures IsBankLine(c, e) <==> Debit(e) && Banked(c, e.ledger)
      ensures IsHeadLine(c, e) ==> IsDebit(e) || IsSilent(e)
    {
      WithholdsExactlyWhen(c, e);
      SidesWrittenOut(e);
      BankExactlyWhen(c, e.ledger);
      HeadIsNoCredit(c, e);
    }
    assert forall e :: e in heads <==> e in v.entries && IsHeadLine(c, e);
    assert heads != [] ==> heads[0] in heads;
    assert banks != [] ==> banks[0] in banks;
  }

  lemma HeadIsNoCredit(c: Census, e: Entry)
    ensures IsHeadLine(c, e) ==> IsDebit(e) || IsSilent(e)
  {
  }

  lemma Strays(c: Census, v: Record)
    ensures (exists e :: e in v.entries && IsUncensused(c, e)) <==> Uncensused(c, v)
    ensures (exists e :: e in v.entries && IsStrayCredit(c, e)) <==> StrayCredit(c, v)
    ensures (exists e :: e in v.entries && IsHeadLine(c, e) && IsCustomer(c, e.ledger)) <==> CustomerWithheld(c, v)
  {
    hide IsHeadLine, Withholds, IsRoundOff, Rounding;
    forall e: Entry
      ensures IsHeadLine(c, e) <==> Withholds(c, e)
      ensures IsUncensused(c, e) <==> !Credit(e) && e.ledger !in c.ledgers
      ensures IsStrayCredit(c, e) <==> Credit(e) && !Customer(c, e.ledger) && !Rounding(e.ledger)
    {
      WithholdsExactlyWhen(c, e);
      SidesWrittenOut(e);
      RoundingExactlyWhen(e.ledger);
    }
  }

  /** Which fate a receipt meets, short of whether it balances. */
  lemma FatesExactlyWhen(c: Census, v: Record)
    ensures FateExactlyWhen(c, v, FateOf(c, v))
  {
    hide CustomerCredits, HeadLines, BankLines, IsUncensused, IsStrayCredit, IsHeadLine, IsCustomer, Customer;
    hide ReceiptOf;
    hide Uncensused, Payers, StrayCredit, AnyWithheld, CustomerWithheld, ReachesBank, Paid, Banked, IsBank, EntryPaise;
    PayersAreCredits(c, v);
    HeadsExist(c, v);
    Strays(c, v);
    BankExactlyWhen(c, v.partyLedger);
    if |CustomerCredits(c, v)| == 1 {
      assert CustomerCredits(c, v) == [CustomerCredits(c, v)[0]];
      OneTotal(CustomerCredits(c, v)[0]);
    }
  }

  // ---- an accepted receipt ---------------------------------------------------------------------------

  /** What an accepted receipt states of its legs. */
  ghost predicate StatesLegs(c: Census, v: Record, r: Receipt) {
    && r.voucher == v
    && (exists e :: e in v.entries && Credit(e) && Customer(c, e.ledger) && r.counterparty == e.ledger)
    && r.counterparty in c.ledgers && r.contactId == c.ledgers[r.counterparty].contactId
    && r.gross == Paid(c, v)
    && r.roundOff == -SumWhere(RoundOffs(), v.entries)
    && r.roundOffLineCount == CountWhere(RoundOffs(), v.entries)
    && r.net == r.roundOff - SumWhere(Bankings(c), v.entries)
    && r.deductionTotal == -SumWhere(Withholdings(c), v.entries)
  }

  /** One line to each ledger withheld on, with the head, the figure, the work code and the legs of that ledger. */
  ghost predicate StatesDeductions(c: Census, v: Record, lines: seq<Deduction>) {
    && (forall i, j :: 0 <= i < j < |lines| ==> lines[i].ledger != lines[j].ledger)
    && (forall e :: e in v.entries && Withholds(c, e) ==> exists i :: 0 <= i < |lines| && lines[i].ledger == e.ledger)
    && forall i {:trigger lines[i]} :: 0 <= i < |lines| ==> StatesDeduction(c, v, lines[i])
  }

  ghost predicate StatesDeduction(c: Census, v: Record, d: Deduction) {
    && HeadExactlyWhen(c, d.ledger, d.head)
    && CodedAs(c, d.ledger, d.plCode)
    && d.amount == -SumWhere(WithholdingsOn(c, d.ledger), v.entries)
    && d.legCount == CountWhere(WithholdingsOn(c, d.ledger), v.entries) && d.legCount > 0
    && (d.amountMissing <==> forall e :: e in v.entries && Withholds(c, e) && e.ledger == d.ledger ==> e.amount == None)
  }

  lemma NothingToFilter(p: Entry -> bool)
    ensures Filter(p, []) == []
  {
  }

  lemma {:induction false} FilterAcross(p: Entry -> bool, a: seq<Entry>, b: seq<Entry>)
    ensures Filter(p, a + b) == Filter(p, a) + Filter(p, b)
    decreases |b|
  {
    hide Filter;
    if b == [] {
      NothingToFilter(p);
      assert a + b == a;
    } else {
      var init, last := b[..|b| - 1], b[|b| - 1];
      FilterAcross(p, a, init);
      assert b == init + [last];
      assert a + b == (a + init) + [last];
      FilterSnoc(p, a + init, last);
      FilterSnoc(p, init, last);
    }
  }

  lemma {:induction false} FilterWithin(p: Entry -> bool, q: Entry -> bool, es: seq<Entry>)
    ensures Filter(q, Filter(p, es)) == Filter(e => p(e) && q(e), es)
    decreases |es|
  {
    if es != [] {
      var init, last := es[..|es| - 1], es[|es| - 1];
      FilterWithin(p, q, init);
      assert es == init + [last];
      FilterSnoc(p, init, last);
      FilterSnoc(e => p(e) && q(e), init, last);
      if p(last) { FilterSnoc(q, Filter(p, init), last); }
    }
  }

  lemma HeadSides(c: Census, e: Entry)
    ensures IsHeadLine(c, e) ==> (IsDebit(e) <==> !IsSilent(e))
  {
  }

  /** The heads that q picks, debited and silent together. */
  lemma HeadsWhere(c: Census, v: Record, q: Entry -> bool, r: Entry -> bool)
    requires forall e :: r(e) <==> Withholds(c, e) && q(e)
    ensures Total(Filter(q, HeadLines(c, v))) == SumWhere(r, v.entries)
    ensures |Filter(q, HeadLines(c, v))| == CountWhere(r, v.entries)
  {
    hide IsHeadLine, Withholds, EntryPaise, Filter, Total, SumWhere, CountWhere, IsDebit, IsSilent;
    var debited, silent := (e: Entry) => IsDebit(e) && IsHeadLine(c, e), (e: Entry) => IsSilent(e) && IsHeadLine(c, e);
    FilterAcross(q, Filter(debited, v.entries), Filter(silent, v.entries));
    FilterWithin(debited, q, v.entries);
    FilterWithin(silent, q, v.entries);
    TotalConcat(Filter(e => debited(e) && q(e), v.entries), Filter(e => silent(e) && q(e), v.entries));
    FilterAdds(e => debited(e) && q(e), v.entries);
    FilterAdds(e => silent(e) && q(e), v.entries);
    forall e: Entry
      ensures IsHeadLine(c, e) == Withholds(c, e) && (IsHeadLine(c, e) ==> (IsDebit(e) <==> !IsSilent(e)))
    {
      WithholdsExactlyWhen(c, e);
      HeadSides(c, e);
    }
    EitherWhere(e => debited(e) && q(e), e => silent(e) && q(e), r, v.entries);
  }

  lemma {:induction false} EveryLeg(es: seq<Entry>)
    ensures Filter((e: Entry) => true, es) == es
    decreases |es|
  {
    if es != [] {
      EveryLeg(es[..|es| - 1]);
      assert es == es[..|es| - 1] + [es[|es| - 1]];
    }
  }

  lemma RoundOffsAdd(c: Census, v: Record)
    ensures Total(RoundOffLines(v)) == SumWhere(RoundOffs(), v.entries)
    ensures |RoundOffLines(v)| == CountWhere(RoundOffs(), v.entries)
  {
    hide Filter, Total, EntryPaise, SumWhere, CountWhere, IsRoundOff, Rounding;
    var p, q := (e: Entry) => IsDebit(e) && IsRoundOffLine(e), (e: Entry) => IsCredit(e) && IsRoundOffLine(e);
    TotalConcat(Filter(p, v.entries), Filter(q, v.entries));
    FilterAdds(p, v.entries);
    FilterAdds(q, v.entries);
    forall e: Entry ensures IsRoundOff(e.ledger) <==> Rounding(e.ledger) { RoundingExactlyWhen(e.ledger); }
    EitherWhere(p, q, RoundOffs(), v.entries);
  }

  lemma BanksAdd(c: Census, v: Record)
    ensures Total(BankLines(c, v)) == SumWhere(Bankings(c), v.entries)
  {
    hide Filter, Total, EntryPaise, SumWhere, CountWhere, IsBank, Banked, IsDebit, Debit;
    FilterAdds(e => IsBankLine(c, e), v.entries);
    forall e: Entry ensures IsBankLine(c, e) <==> Debit(e) && Banked(c, e.ledger) {
      SidesWrittenOut(e);
      BankExactlyWhen(c, e.ledger);
    }
    SameWhere(e => IsBankLine(c, e), Bankings(c), v.entries);
  }

  /** An accepted receipt's figures are the sums of its legs, and its payer is the one customer credited. */
  lemma AcceptedStatesLegs(c: Census, v: Record)
    requires AllLegal(v.entries) && FateOf(c, v).Accepted?
    ensures StatesLegs(c, v, FateOf(c, v).receipt)
  {
    hide Shape, HeadLines, RoundOffLines, BankLines, Total, EntryPaise, Folded, DepositOf, TotalKept, SumWhere;
    hide Withholds;
    hide IsCustomer, Customer, Filter;
    var heads, credits := HeadLines(c, v), CustomerCredits(c, v);
    PayersAreCredits(c, v);
    assert credits == [credits[0]];
    OneTotal(credits[0]);
    assert credits[0] in credits;
    CreditOf(c, credits[0]);
    RoundOffsAdd(c, v);
    BanksAdd(c, v);
    HeadsWhere(c, v, e => true, Withholdings(c));
    EveryLeg(heads);
    HeadsOnly(c, v);
    HeadsAreDebits(heads);
  }

  lemma CreditOf(c: Census, e: Entry)
    ensures IsCustomerCredit(c, e) ==> Credit(e) && Customer(c, e.ledger) && e.ledger in c.ledgers
  {
    SidesWrittenOut(e);
  }

  lemma HeadsOnly(c: Census, v: Record)
    requires AllLegal(v.entries)
    ensures AllLegal(HeadLines(c, v)) && forall e :: e in HeadLines(c, v) ==>
      !IsCredit(e) && IsHeadLine(c, e) && e in v.entries
  {
    hide Legal, IsBank, IsRoundOff;
  }

  /** Its deductions are one line to each ledger withheld on, booked to that ledger's head. */
  lemma AcceptedStatesDeductions(c: Census, v: Record)
    requires AllLegal(v.entries) && FateOf(c, v).Accepted?
    ensures StatesDeductions(c, v, FateOf(c, v).receipt.deductions)
  {
    hide Shape, HeadLines, Filter, Withholds, StatesDeduction, LineOf, IsHeadLine, BankLines, RoundOffLines, TotalKept;
    var heads, lines := HeadLines(c, v), FateOf(c, v).receipt.deductions;
    ReceiptReconciles(c, v);
    HeadsOnly(c, v);
    forall i {:trigger lines[i]} | 0 <= i < |lines| ensures StatesDeduction(c, v, lines[i]) {
      assert lines[i] in lines && lines[i].ledger in LineLedgers(lines);
      LineStates(c, v, lines[i].ledger);
    }
    forall e | e in v.entries && Withholds(c, e) ensures exists i :: 0 <= i < |lines| && lines[i].ledger == e.ledger {
      WithheldIsHead(c, v, e);
      assert e.ledger in LegLedgers(heads) && e.ledger in LineLedgers(lines);
    }
  }

  lemma WithheldIsHead(c: Census, v: Record, e: Entry)
    requires e in v.entries && Withholds(c, e)
    ensures e in HeadLines(c, v)
  {
    hide IsBank, IsRoundOff, Withholds;
    WithholdsExactlyWhen(c, e);
    HeadIsNoCredit(c, e);
  }

  lemma LineStates(c: Census, v: Record, ledger: string)
    requires AllLegal(v.entries) && ledger in LegLedgers(HeadLines(c, v))
    ensures StatesDeduction(c, v, LineOf(c, HeadLines(c, v), ledger))
  {
    hide Filter, HeadLines, Withholds, EntryPaise, DeductionHead, HeadExactlyWhen, TotalKept, Total, SumWhere;
    hide CountWhere, IsHeadLine, Legal;
    var heads := HeadLines(c, v);
    var legs := LegsOn(heads, ledger);
    LedgerHead(c, ledger);
    HeadsWhere(c, v, (e: Entry) => e.ledger == ledger, WithholdingsOn(c, ledger));
    HeadsOnly(c, v);
    assert AllLegal(legs) && forall e :: e in legs ==> !IsCredit(e);
    HeadsAreDebits(legs);
    var e :| e in heads && e.ledger == ledger;
    assert e in legs;
    forall e | e in v.entries && Withholds(c, e) && e.ledger == ledger ensures e in legs { WithheldIsHead(c, v, e); }
    forall e | e in legs ensures Withholds(c, e) { WithholdsExactlyWhen(c, e); }
  }

  // ---- a ledger for each head ----------------------------------------------------------------------------

  /** The head one debited leg is folded to. */
  function HeadOfLeg(c: Census, ledger: string): Option<Head> {
    var lines := Folded(c, [Debited(ledger, 100)]);
    if lines == [] then None else Some(lines[0].head)
  }

  lemma OneLegFolds(c: Census, ledger: string)
    ensures HeadOfLeg(c, ledger) == Some(DeductionHead(c, ledger))
  {
    hide DeductionHead, PlCodeOf, PaiseText;
    var e := Debited(ledger, 100);
    assert [e][..0] == [] && Folded(c, [e][..0]) == [];
    assert LineAt([], ledger) == 0;
  }

  /** A ledger that stands in one group alone. */
  predicate Alone(c: Census, ledger: string, group: string) { PathOf(c, ledger) == [group] }

  /** One group for each head, as the census spells it, and a ledger of the name the owner ruled on. */
  lemma LedgersOfEachHead(c: Census, ledger: string)
    ensures HeadOfLeg(c, "CONTRACUALDEDUCTION") == Some(LiquidatedDamages)
    ensures !NamesDamages(ledger) && Alone(c, ledger, "GST- TDS") ==> HeadOfLeg(c, ledger) == Some(GstTds)
    ensures !NamesDamages(ledger) && Alone(c, ledger, "TDS on Bills") ==> HeadOfLeg(c, ledger) == Some(OtherHead)
    ensures !NamesDamages(ledger) && Alone(c, ledger, "TDS on Railway Bills") ==>
      HeadOfLeg(c, ledger) == Some(IncomeTaxTds)
    ensures !NamesDamages(ledger) && Alone(c, ledger, "TDS & SAT AY 24") ==> HeadOfLeg(c, ledger) == Some(IncomeTaxTds)
    ensures !NamesDamages(ledger) && Alone(c, ledger, "Railway Security Deposits") ==>
      HeadOfLeg(c, ledger) == Some(SecurityDeposit)
  {
    hide HeadOfLeg, DeductionHead, Squeeze, Lower, NamesDamages, Alone;
    OneLegFolds(c, "CONTRACUALDEDUCTION");
    OneLegFolds(c, ledger);
    DamagesNamed();
    LedgerHead(c, "CONTRACUALDEDUCTION");
    LoweredGroups();
    if !NamesDamages(ledger) {
      if Alone(c, ledger, "GST- TDS") { AloneHead(c, ledger, "GST- TDS", "gst- tds"); }
      if Alone(c, ledger, "TDS on Bills") { AloneHead(c, ledger, "TDS on Bills", "tds on bills"); }
      if Alone(c, ledger, "TDS on Railway Bills") {
        AloneHead(c, ledger, "TDS on Railway Bills", "tds on railway bills");
      }
      if Alone(c, ledger, "TDS & SAT AY 24") { AloneHead(c, ledger, "TDS & SAT AY 24", "tds & sat ay 24"); }
      if Alone(c, ledger, "Railway Security Deposits") {
        AloneHead(c, ledger, "Railway Security Deposits", "railway security deposits");
      }
    }
    GroupHeads();
  }

  lemma DamagesNamed()
    ensures NamesDamages("CONTRACUALDEDUCTION")
  {
    hide Squeeze;
    SqueezeClean("CONTRACUALDEDUCTION");
  }

  /** The head a single group stands for, from its name in small letters. */
  function GroupHead(low: string): Head {
    if low == "gst- tds" then GstTds
    else if low == "tds on railway bills" || (|low| >= 12 && low[..12] == "tds & sat ay") then IncomeTaxTds
    else if low == "railway security deposits" then SecurityDeposit
    else OtherHead
  }

  lemma AloneHead(c: Census, ledger: string, group: string, low: string)
    requires Alone(c, ledger, group) && Lower(group) == low && !NamesDamages(ledger)
    ensures DeductionHead(c, ledger) == GroupHead(low)
  {
    hide Lower, NamesDamages, DeductionHead;
    LedgerHead(c, ledger);
    assert |group| == |low| by { LowerLength(group); }
    assert group in PathOf(c, ledger) && forall g :: g in PathOf(c, ledger) ==> g == group;
  }

  lemma LowerLength(s: string)
    ensures |Lower(s)| == |s|
  {
  }

  lemma GroupHeads()
    ensures GroupHead("gst- tds") == GstTds && GroupHead("tds on bills") == OtherHead
    ensures GroupHead("tds on railway bills") == IncomeTaxTds && GroupHead("tds & sat ay 24") == IncomeTaxTds
    ensures GroupHead("railway security deposits") == SecurityDeposit
  {
    assert "gst- tds"[0] == 'g' && "tds on bills"[..12][4] == 'o' && "tds & sat ay"[4] == '&';
    assert "tds & sat ay 24"[..12] == "tds & sat ay" && "tds & sat ay 24"[0] == 't';
    assert "railway security deposits"[..12][0] == 'r' && "tds & sat ay"[0] == 't';
  }

  lemma LoweredGroups()
    ensures Lower("GST- TDS") == "gst- tds" && Lower("TDS on Railway Bills") == "tds on railway bills"
    ensures Lower("Railway Security Deposits") == "railway security deposits"
    ensures Lower("TDS & SAT AY 24") == "tds & sat ay 24" && Lower("TDS on Bills") == "tds on bills"
  {
    hide Lower;
    LoweredFirst();
    LoweredSecond();
    LoweredThird();
  }

  lemma LoweredFirst()
    ensures Lower("GST- TDS") == "gst- tds" && Lower("TDS on Bills") == "tds on bills"
  {
  }

  lemma LoweredSecond()
    ensures Lower("TDS on Railway Bills") == "tds on railway bills" && Lower("TDS & SAT AY 24") == "tds & sat ay 24"
  {
  }

  lemma LoweredThird()
    ensures Lower("Railway Security Deposits") == "railway security deposits"
  {
  }
}
