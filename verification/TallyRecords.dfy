/**
 * What the records of a TallyPrime export hold of the documents they were read from (tally-vouchers.ts): which tag
 * fills which field, which lists become legs and references, and which vouchers are refused and why.
 */
module TallyRecords {
  import opened Text
  import opened Decimal
  import opened Money
  import opened TallyScan
  import opened TallyVouchers
  import opened TallyDocuments

  // ---- one field ---------------------------------------------------------------------------

  /** Which part of the draft each kind of field fills; the rest of it stays. */
  lemma FieldFills(d: Draft, field: DirectTag, value: string)
    ensures var e := SetField(d, field, value);
      && e.guid == (if field == Guid then value else d.guid)
      && e.alterId == (if field == AlterId then value else d.alterId)
      && e.date == (if field == Date then value else d.date)
      && e.voucherType == (if field == VoucherTypeName then value else d.voucherType)
      && e.voucherNumber == (if field == VoucherNumber then value else d.voucherNumber)
      && e.reference == (if field == Reference then value else d.reference)
      && e.partyLedger == (if field == PartyLedgerName then value else d.partyLedger)
      && e.partyGstin == (if field == PartyGstin then value else d.partyGstin)
      && e.narration == (if field == Narration then value else d.narration)
      && e.cancelled == (if field == IsCancelled then value == "Yes" else d.cancelled)
      && e.optional == (if field == IsOptional then value == "Yes" else d.optional)
  {
  }

  lemma OnlySourceFieldsBeside(d: Draft, tag: string, value: string)
    ensures DirectField(d, tag, value)
         == SetField(d, DirectTagOf(tag), value).(sourceFields := DirectField(d, tag, value).sourceFields)
  {
    hide SetField, DirectTagOf, KeepSourceField;
    SetFieldKeeps(d, DirectTagOf(tag), value);
  }

  lemma OneDirectTag(d: Draft, tag: string, value: string)
    ensures var e := DirectField(d, tag, value);
      && e.guid == (if tag == "GUID" then value else d.guid)
      && e.alterId == (if tag == "ALTERID" then value else d.alterId)
      && e.date == (if tag == "DATE" then value else d.date)
      && e.voucherType == (if tag == "VOUCHERTYPENAME" then value else d.voucherType)
      && e.voucherNumber == (if tag == "VOUCHERNUMBER" then value else d.voucherNumber)
      && e.reference == (if tag == "REFERENCE" then value else d.reference)
      && e.partyLedger == (if tag == "PARTYLEDGERNAME" then value else d.partyLedger)
      && e.partyGstin == (if tag == "PARTYGSTIN" then value else d.partyGstin)
      && e.narration == (if tag == "NARRATION" then value else d.narration)
  {
    hide DirectField, SetField, DirectTagOf;
    OnlySourceFieldsBeside(d, tag, value);
    FieldFills(d, DirectTagOf(tag), value);
    TagsApart(tag);
  }

  lemma OneDirectFlag(d: Draft, tag: string, value: string)
    ensures var e := DirectField(d, tag, value);
      && e.cancelled == (if tag == "ISCANCELLED" then value == "Yes" else d.cancelled)
      && e.optional == (if tag == "ISOPTIONAL" then value == "Yes" else d.optional)
  {
    hide DirectField, SetField, DirectTagOf;
    OnlySourceFieldsBeside(d, tag, value);
    FieldFills(d, DirectTagOf(tag), value);
    TagsApart(tag);
  }

  /** A direct field touches no list and not the line. */
  lemma FieldKeepsLists(d: Draft, tag: string, value: string)
    ensures var e := DirectField(d, tag, value);
      && e.line == d.line && e.entries == d.entries && e.tooManyEntries == d.tooManyEntries
      && e.billReferences == d.billReferences
  {
    hide DirectField, SetField, DirectTagOf;
    OnlySourceFieldsBeside(d, tag, value);
    FieldLeaves(d, DirectTagOf(tag), value);
  }

  lemma FieldLeaves(d: Draft, field: DirectTag, value: string)
    ensures var e := SetField(d, field, value);
      && e.line == d.line && e.entries == d.entries && e.tooManyEntries == d.tooManyEntries
      && e.billReferences == d.billReferences
  {
    hide IsYes;
  }

  /** No two of the eleven tags are one. */
  lemma TagsApart(tag: string)
    ensures DirectTagOf(tag) == Guid <==> tag == "GUID"
    ensures DirectTagOf(tag) == AlterId <==> tag == "ALTERID"
    ensures DirectTagOf(tag) == Date <==> tag == "DATE"
    ensures DirectTagOf(tag) == VoucherTypeName <==> tag == "VOUCHERTYPENAME"
    ensures DirectTagOf(tag) == VoucherNumber <==> tag == "VOUCHERNUMBER"
    ensures DirectTagOf(tag) == Reference <==> tag == "REFERENCE"
    ensures DirectTagOf(tag) == PartyLedgerName <==> tag == "PARTYLEDGERNAME"
    ensures DirectTagOf(tag) == PartyGstin <==> tag == "PARTYGSTIN"
    ensures DirectTagOf(tag) == Narration <==> tag == "NARRATION"
    ensures DirectTagOf(tag) == IsCancelled <==> tag == "ISCANCELLED"
    ensures DirectTagOf(tag) == IsOptional <==> tag == "ISOPTIONAL"
  {
    assert "GUID"[0] == 'G' && "DATE"[0] == 'D' && "VOUCHERTYPENAME"[0] == 'V' && "PARTYLEDGERNAME"[0] == 'P';
    assert "REFERENCE"[0] == 'R' && "NARRATION"[0] == 'N' && "PARTYGSTIN"[0] == 'P' && "ISOPTIONAL"[0] == 'I';
  }

  // ---- the fields of a whole body ------------------------------------------------------------

  /** The text a body states directly under this tag. */
  function Stated(o: Options, ns: seq<Node>, tag: string): string { TextOf(o, ns, tag, "") }

  lemma BillsKeepFields(d: Draft, names: seq<string>)
    ensures AddBills(d, names) == d.(billReferences := AddBills(d, names).billReferences)
    decreases |names|
  {
    if names != [] { BillsKeepFields(d, names[..|names| - 1]); }
  }

  predicate SameFields(d: Draft, e: Draft) {
    d.(entries := e.entries, tooManyEntries := e.tooManyEntries, billReferences := e.billReferences) == e
  }

  lemma ListsKeepFields(o: Options, d: Draft, n: Node)
    requires !n.Field?
    ensures SameFields(d, AbsorbOne(o, d, n))
  {
    hide AddBills, Upper, BillNames;
    if n.Branch? {
      BillsKeepFields(d, BillNames(o, n.children));
      BillsKeepFields(d, BillNames(o, [n]));
    }
  }

  /** A field with the tag restates its text; any other node leaves it. */
  lemma TextOfOne(o: Options, n: Node, tag: string, before: string)
    ensures TextOf(o, [n], tag, before) == if n.Field? && Upper(n.tag) == tag then o.clean(n.raw) else before
  {
    hide Upper;
    assert [n][..0] == [];
    assert TextOf(o, [n][..0], tag, before) == before;
  }

  /** The nine texts of a draft, each with the tag that states it. */
  ghost predicate TextsAfter(o: Options, d: Draft, e: Draft, ns: seq<Node>) {
    && e.guid == TextOf(o, ns, "GUID", d.guid)
    && e.alterId == TextOf(o, ns, "ALTERID", d.alterId)
    && e.date == TextOf(o, ns, "DATE", d.date)
    && e.voucherType == TextOf(o, ns, "VOUCHERTYPENAME", d.voucherType)
    && e.voucherNumber == TextOf(o, ns, "VOUCHERNUMBER", d.voucherNumber)
    && e.reference == TextOf(o, ns, "REFERENCE", d.reference)
    && e.partyLedger == TextOf(o, ns, "PARTYLEDGERNAME", d.partyLedger)
    && e.partyGstin == TextOf(o, ns, "PARTYGSTIN", d.partyGstin)
    && e.narration == TextOf(o, ns, "NARRATION", d.narration)
  }

  function Yes(flag: bool): string { if flag then "Yes" else "" }

  ghost predicate FlagsAfter(o: Options, d: Draft, e: Draft, ns: seq<Node>) {
    && e.line == d.line
    && (e.cancelled <==> TextOf(o, ns, "ISCANCELLED", Yes(d.cancelled)) == "Yes")
    && (e.optional <==> TextOf(o, ns, "ISOPTIONAL", Yes(d.optional)) == "Yes")
  }

  lemma OneAbsorbed(o: Options, d: Draft, n: Node)
    ensures TextsAfter(o, d, AbsorbOne(o, d, n), [n]) && FlagsAfter(o, d, AbsorbOne(o, d, n), [n])
  {
    hide AbsorbOne, TextsAfter, FlagsAfter;
    TextsAbsorbed(o, d, n);
    FlagsAbsorbed(o, d, n);
  }

  lemma TextsAbsorbed(o: Options, d: Draft, n: Node)
    ensures TextsAfter(o, d, AbsorbOne(o, d, n), [n])
  {
    hide Upper, DirectField, TextOf, AddBills, AddEntry, BillNames, AmountOf;
    forall tag: string, before: string {:trigger TextOf(o, [n], tag, before)}
      ensures TextOf(o, [n], tag, before) == if n.Field? && Upper(n.tag) == tag then o.clean(n.raw) else before
    {
      TextOfOne(o, n, tag, before);
    }
    if n.Field? { OneDirectTag(d, Upper(n.tag), o.clean(n.raw)); } else { ListsKeepFields(o, d, n); }
  }

  lemma FlagsAbsorbed(o: Options, d: Draft, n: Node)
    ensures FlagsAfter(o, d, AbsorbOne(o, d, n), [n])
  {
    hide Upper, DirectField, TextOf, AddBills, AddEntry, BillNames, AmountOf;
    TextOfOne(o, n, "ISCANCELLED", Yes(d.cancelled));
    TextOfOne(o, n, "ISOPTIONAL", Yes(d.optional));
    if n.Field? {
      OneDirectFlag(d, Upper(n.tag), o.clean(n.raw));
      FieldKeepsLists(d, Upper(n.tag), o.clean(n.raw));
    } else {
      ListsKeepFields(o, d, n);
    }
  }

  lemma TextsChain(o: Options, d: Draft, e: Draft, f: Draft, ns: seq<Node>)
    requires ns != [] && TextsAfter(o, d, e, [ns[0]]) && TextsAfter(o, e, f, ns[1..])
    ensures TextsAfter(o, d, f, ns)
  {
    hide TextOf;
    TextOfFirst(o, ns, "GUID", d.guid);
    TextOfFirst(o, ns, "ALTERID", d.alterId);
    TextOfFirst(o, ns, "DATE", d.date);
    TextOfFirst(o, ns, "VOUCHERTYPENAME", d.voucherType);
    TextOfFirst(o, ns, "VOUCHERNUMBER", d.voucherNumber);
    TextOfFirst(o, ns, "REFERENCE", d.reference);
    TextOfFirst(o, ns, "PARTYLEDGERNAME", d.partyLedger);
    TextOfFirst(o, ns, "PARTYGSTIN", d.partyGstin);
    TextOfFirst(o, ns, "NARRATION", d.narration);
  }

  /** Whether the last statement says "Yes" depends only on whether the earlier text did. */
  lemma {:induction false} YesDecides(o: Options, ns: seq<Node>, tag: string, a: string, b: string)
    requires a == "Yes" <==> b == "Yes"
    ensures TextOf(o, ns, tag, a) == "Yes" <==> TextOf(o, ns, tag, b) == "Yes"
    decreases |ns|
  {
    hide Upper;
    if ns != [] { YesDecides(o, ns[..|ns| - 1], tag, a, b); }
  }

  lemma FlagsChain(o: Options, d: Draft, e: Draft, f: Draft, ns: seq<Node>)
    requires ns != [] && FlagsAfter(o, d, e, [ns[0]]) && FlagsAfter(o, e, f, ns[1..])
    ensures FlagsAfter(o, d, f, ns)
  {
    hide TextOf;
    var cancelled, optional := Yes(d.cancelled), Yes(d.optional);
    TextOfFirst(o, ns, "ISCANCELLED", cancelled);
    TextOfFirst(o, ns, "ISOPTIONAL", optional);
    YesDecides(o, ns[1..], "ISCANCELLED", TextOf(o, [ns[0]], "ISCANCELLED", cancelled), Yes(e.cancelled));
    YesDecides(o, ns[1..], "ISOPTIONAL", TextOf(o, [ns[0]], "ISOPTIONAL", optional), Yes(e.optional));
  }

  /** The eleven direct fields of a body, each from the last of its own-level fields with that tag. */
  lemma {:induction false} FieldsAbsorbed(o: Options, d: Draft, ns: seq<Node>)
    ensures TextsAfter(o, d, Absorb(o, d, ns), ns) && FlagsAfter(o, d, Absorb(o, d, ns), ns)
    decreases |ns|
  {
    hide AbsorbOne, TextsAfter, FlagsAfter;
    if ns == [] {
      NothingStated(o, d);
    } else {
      var e := AbsorbOne(o, d, ns[0]);
      OneAbsorbed(o, d, ns[0]);
      FieldsAbsorbed(o, e, ns[1..]);
      TextsChain(o, d, e, Absorb(o, d, ns), ns);
      FlagsChain(o, d, e, Absorb(o, d, ns), ns);
    }
  }

  lemma NothingStated(o: Options, d: Draft)
    ensures TextsAfter(o, d, d, []) && FlagsAfter(o, d, d, [])
  {
  }

  // ---- the legs and the references of a whole body ------------------------------------------------

  predicate IsLeg(n: Node) {
    n.Branch? && Upper(n.tag) in {"ALLLEDGERENTRIES.LIST", "LEDGERENTRIES.LIST"}
  }

  /** One leg for each leg list that names a ledger, in order. */
  function Legs(o: Options, ns: seq<Node>): seq<Entry>
    decreases |ns|
  {
    if ns == [] then []
    else
      var n, rest := ns[0], Legs(o, ns[1..]);
      if IsLeg(n) && TextOf(o, n.children, "LEDGERNAME", "") != "" then
        [Entry(TextOf(o, n.children, "LEDGERNAME", ""), AmountOf(o, n.children))] + rest
      else rest
  }

  /** The first hundred. */
  function Hundred(es: seq<Entry>): seq<Entry> { if |es| <= 100 then es else es[..100] }

  lemma OneLegAbsorbed(o: Options, d: Draft, n: Node)
    requires |d.entries| <= 100
    ensures var e := AbsorbOne(o, d, n);
      && e.entries == Hundred(d.entries + Legs(o, [n]))
      && (e.tooManyEntries <==> d.tooManyEntries || |d.entries| + |Legs(o, [n])| > 100)
  {
    hide Upper, AddBills, BillNames, AmountOf, TextOf, DirectField;
    assert Legs(o, [n][1..]) == [];
    if n.Branch? {
      BillsKeepFields(d, BillNames(o, n.children));
      BillsKeepFields(d, BillNames(o, [n]));
    } else if n.Field? {
      FieldKeepsLists(d, Upper(n.tag), o.clean(n.raw));
    }
  }

  lemma LegsFirst(o: Options, ns: seq<Node>)
    requires ns != []
    ensures Legs(o, ns) == Legs(o, [ns[0]]) + Legs(o, ns[1..]) && |Legs(o, [ns[0]])| <= 1
  {
    hide Upper, AmountOf, TextOf;
    assert Legs(o, [ns[0]][1..]) == [];
  }

  /** The legs kept are the first hundred the body names, and more than that spoils the voucher. */
  lemma {:induction false} LegsAbsorbed(o: Options, d: Draft, ns: seq<Node>)
    requires |d.entries| <= 100
    ensures var e := Absorb(o, d, ns);
      && e.entries == Hundred(d.entries + Legs(o, ns))
      && (e.tooManyEntries <==> d.tooManyEntries || |d.entries| + |Legs(o, ns)| > 100)
    decreases |ns|
  {
    hide AbsorbOne, Legs;
    if ns == [] {
      NoLegs(o, d);
    } else {
      var e, one, rest := AbsorbOne(o, d, ns[0]), Legs(o, [ns[0]]), Legs(o, ns[1..]);
      OneLegAbsorbed(o, d, ns[0]);
      LegsAbsorbed(o, e, ns[1..]);
      LegsFirst(o, ns);
      assert Hundred(Hundred(d.entries + one) + rest) == Hundred(d.entries + one + rest);
      assert d.entries + one + rest == d.entries + (one + rest);
    }
  }

  lemma NoLegs(o: Options, d: Draft)
    requires |d.entries| <= 100
    ensures Legs(o, []) == [] && Hundred(d.entries + []) == d.entries && d.entries + [] == d.entries
  {
  }

  /** The references a body names, leg by leg and list by list, in order. */
  lemma OneReferenceAbsorbed(o: Options, d: Draft, n: Node)
    ensures AbsorbOne(o, d, n).billReferences == AddBills(d, BillNames(o, [n])).billReferences
  {
    hide Upper, AllNames, AmountOf, TextOf, DirectField;
    assert BillNames(o, [n][1..]) == [];
    if n.Field? {
      FieldKeepsLists(d, Upper(n.tag), o.clean(n.raw));
    } else if n.Branch? && IsLegTag(Upper(n.tag)) {
      BranchNames(o, false, n);
      assert Upper(n.tag) != BILL_TAG by { LegIsNoBill(Upper(n.tag)); }
    }
  }

  lemma LegIsNoBill(tag: string)
    requires IsLegTag(tag)
    ensures tag != BILL_TAG
  {
    assert "ALLLEDGERENTRIES.LIST"[0] == 'A' && "LEDGERENTRIES.LIST"[0] == 'L' && BILL_TAG[0] == 'B';
  }

  lemma {:induction false} BillNamesNamed(o: Options, ns: seq<Node>)
    ensures "" !in BillNames(o, ns)
    decreases ns
  {
    hide Upper;
    if ns != [] {
      BillNamesNamed(o, ns[1..]);
      if ns[0].Branch? {
        NamesAreNamed(o, ns[0].children);
        BillNamesNamed(o, ns[0].children);
      }
    }
  }

  lemma FittingChain(d: Draft, e: Draft, a: seq<string>, b: seq<string>)
    requires |d.billReferences| <= MAX_MATCH_KEYS && e.billReferences == d.billReferences + Fitting(d, a)
    ensures |e.billReferences| <= MAX_MATCH_KEYS
    ensures e.billReferences + Fitting(e, b) == d.billReferences + Fitting(d, a + b)
  {
    var room := MAX_MATCH_KEYS - |d.billReferences|;
    if |a| <= room {
      assert d.billReferences + a + Fitting(e, b) == d.billReferences + (a + Fitting(e, b));
      assert |a + b| > room ==> (a + b)[..room] == a + b[..room - |a|];
    } else {
      assert (a + b)[..room] == a[..room];
    }
  }

  /** The references kept are as many of those the body names as the ceiling leaves room for. */
  lemma {:induction false} ReferencesAbsorbed(o: Options, d: Draft, ns: seq<Node>)
    requires |d.billReferences| <= MAX_MATCH_KEYS
    ensures Absorb(o, d, ns).billReferences == d.billReferences + Fitting(d, BillNames(o, ns))
    decreases |ns|
  {
    hide AbsorbOne, BillNames, Fitting, AddBills;
    if ns == [] {
      NoReferences(o, d);
    } else {
      var e, one, rest := AbsorbOne(o, d, ns[0]), BillNames(o, [ns[0]]), BillNames(o, ns[1..]);
      OneReferenceAbsorbed(o, d, ns[0]);
      BillNamesNamed(o, [ns[0]]);
      AddBillsFitting(d, one);
      FittingChain(d, e, one, rest);
      ReferencesAbsorbed(o, e, ns[1..]);
      NamesConcat(o, false, ns);
    }
  }

  lemma NoReferences(o: Options, d: Draft)
    requires |d.billReferences| <= MAX_MATCH_KEYS
    ensures d.billReferences + Fitting(d, BillNames(o, [])) == d.billReferences
  {
  }

  // ---- the fields kept verbatim ---------------------------------------------------------------------

  /** A field of the voucher's own whose text is kept as it stands: not a flag, not too long, not a list. */
  predicate IsVerbatim(o: Options, n: Node, tag: string) {
    && n.Field? && Upper(n.tag) == tag
    && 1 <= |o.clean(n.raw)| <= 2000 && o.clean(n.raw) !in {"Yes", "No"}
    && !(|tag| >= 5 && tag[|tag| - 5..] == ".LIST")
  }

  /** The last text to be kept under this tag. */
  function VerbatimText(o: Options, ns: seq<Node>, tag: string, before: Option<string>): Option<string>
    decreases |ns|
  {
    if ns == [] then before
    else
      var n := ns[|ns| - 1];
      if IsVerbatim(o, n, tag) then Some(o.clean(n.raw)) else VerbatimText(o, ns[..|ns| - 1], tag, before)
  }

  function Kept(m: map<string, string>, tag: string): Option<string> { if tag in m then Some(m[tag]) else None }

  lemma {:induction false} VerbatimFirst(o: Options, ns: seq<Node>, tag: string, before: Option<string>)
    requires ns != []
    ensures VerbatimText(o, ns, tag, before) == VerbatimText(o, ns[1..], tag, VerbatimText(o, [ns[0]], tag, before))
    decreases |ns|
  {
    hide IsVerbatim;
    if |ns| == 1 {
      assert ns == [ns[0]] && ns[1..] == [];
    } else {
      assert ns[..|ns| - 1][1..] == ns[1..][..|ns| - 2];
      VerbatimFirst(o, ns[..|ns| - 1], tag, before);
    }
  }

  lemma OneVerbatim(o: Options, d: Draft, n: Node, tag: string)
    requires |d.sourceFields| < 80
    ensures Kept(AbsorbOne(o, d, n).sourceFields, tag) == VerbatimText(o, [n], tag, Kept(d.sourceFields, tag))
  {
    hide Upper, AddBills, BillNames, AmountOf, TextOf, SetField;
    assert [n][..0] == [];
    assert VerbatimText(o, [n][..0], tag, Kept(d.sourceFields, tag)) == Kept(d.sourceFields, tag);
    if n.Field? {
      SetFieldKeeps(d, DirectTagOf(Upper(n.tag)), o.clean(n.raw));
      KeepWrittenOut(Upper(n.tag), o.clean(n.raw));
    } else {
      ListsKeepFields(o, d, n);
    }
  }

  lemma KeepWrittenOut(tag: string, value: string)
    ensures KeepSourceField(tag, value) <==>
      1 <= |value| <= 2000 && value !in {"Yes", "No"} && !(|tag| >= 5 && tag[|tag| - 5..] == ".LIST")
  {
    assert |".LIST"| == 5;
  }

  lemma KeysInside(a: map<string, string>, b: map<string, string>)
    requires a.Keys <= b.Keys
    ensures |a| <= |b|
  {
    assert |b.Keys| == |a.Keys| + |b.Keys - a.Keys| by { assert b.Keys == a.Keys + (b.Keys - a.Keys); }
    assert |a| == |a.Keys| && |b| == |b.Keys|;
  }

  lemma FullFieldsStay(o: Options, d: Draft, n: Node)
    requires |d.sourceFields| == 80
    ensures AbsorbOne(o, d, n).sourceFields == d.sourceFields
  {
    hide Upper, AddBills, BillNames, AmountOf, TextOf, SetField, KeepSourceField;
    if n.Field? {
      SetFieldKeeps(d, DirectTagOf(Upper(n.tag)), o.clean(n.raw));
    } else {
      ListsKeepFields(o, d, n);
    }
  }

  lemma OneFieldMore(o: Options, d: Draft, n: Node)
    requires |d.sourceFields| < 80
    ensures |AbsorbOne(o, d, n).sourceFields| <= 80
  {
    hide Upper, AddBills, BillNames, AmountOf, TextOf, SetField, KeepSourceField;
    if n.Field? {
      SetFieldKeeps(d, DirectTagOf(Upper(n.tag)), o.clean(n.raw));
      var tag, m := Upper(n.tag), d.sourceFields;
      assert m[tag := o.clean(n.raw)].Keys <= m.Keys + {tag};
      KeysInside(m[tag := o.clean(n.raw)], m[tag := ""]);
    } else {
      ListsKeepFields(o, d, n);
    }
  }

  lemma {:induction false} FullFieldsAbsorbed(o: Options, d: Draft, ns: seq<Node>)
    requires |d.sourceFields| == 80
    ensures Absorb(o, d, ns).sourceFields == d.sourceFields
    decreases |ns|
  {
    hide AbsorbOne;
    if ns != [] {
      FullFieldsStay(o, d, ns[0]);
      FullFieldsAbsorbed(o, AbsorbOne(o, d, ns[0]), ns[1..]);
    }
  }

  /**
   * Each tag keeps the last text of its own that may be kept among the first k children; what stands behind them is
   * not looked at, because eighty tags are kept by then.
   */
  ghost predicate FieldsUpTo(
      o: Options, was: map<string, string>, fields: map<string, string>, ns: seq<Node>, k: nat)
  {
    && k <= |ns| && |fields| <= 80 && (k < |ns| ==> |fields| == 80)
    && forall tag :: Kept(fields, tag) == VerbatimText(o, ns[..k], tag, Kept(was, tag))
  }

  lemma {:induction false} SourceFieldsAbsorbed(o: Options, d: Draft, ns: seq<Node>) returns (k: nat)
    requires |d.sourceFields| <= 80
    ensures FieldsUpTo(o, d.sourceFields, Absorb(o, d, ns).sourceFields, ns, k)
    decreases |ns|
  {
    hide AbsorbOne, IsVerbatim;
    if ns == [] || |d.sourceFields| == 80 {
      k := 0;
      assert ns[..0] == [];
      if ns != [] { FullFieldsAbsorbed(o, d, ns); }
    } else {
      var e := AbsorbOne(o, d, ns[0]);
      OneFieldMore(o, d, ns[0]);
      k := SourceFieldsAbsorbed(o, e, ns[1..]);
      k := k + 1;
      forall tag ensures
        Kept(Absorb(o, e, ns[1..]).sourceFields, tag) == VerbatimText(o, ns[..k], tag, Kept(d.sourceFields, tag))
      {
        OneVerbatim(o, d, ns[0], tag);
        assert ns[..k][1..] == ns[1..][..k - 1];
        VerbatimFirst(o, ns[..k], tag, Kept(d.sourceFields, tag));
      }
    }
  }

  // ---- what a voucher is worth --------------------------------------------------------------------------

  /** The first leg of the party that shows a figure. */
  predicate FirstPartyFigure(party: string, entries: seq<Entry>, i: nat) {
    && i < |entries| && entries[i].ledger == party && entries[i].amount.Some?
    && forall j :: 0 <= j < i ==> !(entries[j].ledger == party && entries[j].amount.Some?)
  }

  lemma {:induction false} PartyLegFound(party: string, entries: seq<Entry>)
    ensures forall i: nat :: FirstPartyFigure(party, entries, i) ==> PartyLeg(party, entries) == entries[i].amount
    ensures PartyLeg(party, entries) == None <==> forall e :: e in entries && e.ledger == party ==> e.amount == None
    decreases |entries|
  {
    if entries != [] {
      PartyLegFound(party, entries[1..]);
      assert entries == [entries[0]] + entries[1..];
      forall i: nat | FirstPartyFigure(party, entries, i) && i > 0
        ensures FirstPartyFigure(party, entries[1..], i - 1)
      {
        assert forall j :: 0 <= j < i - 1 ==> entries[1..][j] == entries[j + 1];
      }
    }
  }

  /** A voucher is worth the size of its party's figure; where the party shows none, the larger of its two sides. */
  lemma ValueExactlyWhen(party: string, entries: seq<Entry>)
    requires AllLegal(entries)
    ensures forall i: nat :: FirstPartyFigure(party, entries, i) ==>
      ToPaise(entries[i].amount.value).Some?
      && var p := ToPaise(entries[i].amount.value).value;
         ToPaise(ValueText(party, entries)) == Some(if p < 0 then -p else p)
    ensures (forall e :: e in entries && e.ledger == party ==> e.amount == None) ==>
      var debits, credits := Debits(entries), Credits(entries);
      ToPaise(ValueText(party, entries)) == Some(if debits > credits then debits else credits)
  {
    hide ToPaise, ValueText;
    ValueMeaning(party, entries);
    PartyLegFound(party, entries);
    forall i: nat | FirstPartyFigure(party, entries, i) ensures ToPaise(entries[i].amount.value).Some? {
      assert Legal(entries[i]);
    }
  }

  /** Each side is the sum of its legs: a negative figure is a debit. */
  lemma {:induction false} SidesAddUp(a: seq<Entry>, b: seq<Entry>)
    ensures Debits(a + b) == Debits(a) + Debits(b) && Credits(a + b) == Credits(a) + Credits(b)
    ensures |b| == 1 && b[0].amount.Some? && ToPaise(b[0].amount.value).Some? ==>
      var p := ToPaise(b[0].amount.value).value;
      && Debits(b) == (if p < 0 then -p else 0) && Credits(b) == if p < 0 then 0 else p
    ensures |b| == 1 && b[0].amount == None ==> Debits(b) == Credits(b) == 0
    decreases |b|
  {
    hide ToPaise;
    if b == [] {
      assert a + b == a;
    } else {
      assert (a + b)[..|a + b| - 1] == a + b[..|b| - 1];
      SidesAddUp(a, b[..|b| - 1]);
    }
  }

  // ---- the stored shapes of texts -----------------------------------------------------------------------

  /** What a bounded column stores of a text: its first characters without blanks around them, or nothing of blanks. */
  ghost predicate StoredWithin(limit: nat, text: string, stored: Option<string>) {
    var kept := if |text| <= limit then text else text[..limit];
    if stored.Some? then stored.value != "" && Stripped(kept, stored.value) else AllSpaces(kept)
  }

  lemma TrimmedOrNoneStores(text: string, limit: nat)
    ensures StoredWithin(limit, text, TrimmedOrNone(text, limit))
  {
    hide Trim, Stripped;
    TrimStrips(Cut(text, limit));
    if Trim(Cut(text, limit)) == "" { StrippedToNothing(Cut(text, limit)); }
  }

  /** A character class of a registration number: a digit, a capital, either, or the character itself. */
  predicate InClass(class_: char, c: char) {
    if class_ == '9' then '0' <= c <= '9'
    else if class_ == 'A' then 'A' <= c <= 'Z'
    else if class_ == '#' then '0' <= c <= '9' || 'A' <= c <= 'Z'
    else c == class_
  }

  predicate Fits(s: string, pattern: string) {
    |s| == |pattern| && forall i :: 0 <= i < |s| ==> InClass(pattern[i], s[i])
  }

  /** A registration number has the taxpayer's shape, or the deductor's. */
  lemma GstinExactlyWhen(s: string)
    ensures IsGstin(s) <==> Fits(s, "99AAAAA9999A#Z#") || Fits(s, "99############D")
  {
    if |s| == 15 {
      FirstArm(s);
      SecondArm(s);
    }
  }

  lemma FirstArm(s: string)
    requires |s| == 15
    ensures Fits(s, "99AAAAA9999A#Z#") <==>
      && IsDigit(s[0]) && IsDigit(s[1]) && (forall i :: 2 <= i < 7 ==> 'A' <= s[i] <= 'Z')
      && (forall i :: 7 <= i < 11 ==> IsDigit(s[i])) && 'A' <= s[11] <= 'Z' && IsUpperOrDigit(s[12]) && s[13] == 'Z'
      && IsUpperOrDigit(s[14])
  {
    var p := "99AAAAA9999A#Z#";
    assert p[0] == '9' && p[1] == '9' && forall i :: 2 <= i < 7 ==> p[i] == 'A';
    assert forall i :: 7 <= i < 11 ==> p[i] == '9';
    assert p[11] == 'A' && p[12] == '#' && p[13] == 'Z' && p[14] == '#';
    assert Fits(s, p) ==> InClass(p[0], s[0]) && InClass(p[1], s[1]) && InClass(p[11], s[11]);
    assert Fits(s, p) ==> InClass(p[12], s[12]) && InClass(p[13], s[13]) && InClass(p[14], s[14]);
  }

  lemma SecondArm(s: string)
    requires |s| == 15
    ensures Fits(s, "99############D") <==>
      IsDigit(s[0]) && IsDigit(s[1]) && (forall i :: 2 <= i < 14 ==> IsUpperOrDigit(s[i])) && s[14] == 'D'
  {
    var p := "99############D";
    assert p[0] == '9' && p[1] == '9' && (forall i :: 2 <= i < 14 ==> p[i] == '#') && p[14] == 'D';
    assert Fits(s, p) ==> InClass(p[0], s[0]) && InClass(p[1], s[1]) && InClass(p[14], s[14]);
  }

  /** The calendar, month by month. */
  predicate OnCalendar(year: nat, month: nat, day: nat) {
    && 100 <= year && 1 <= day
    && (|| (month in {1, 3, 5, 7, 8, 10, 12} && day <= 31)
        || (month in {4, 6, 9, 11} && day <= 30)
        || (month == 2 && day <= 28)
        || (month == 2 && day == 29 && (year % 400 == 0 || (year % 4 == 0 && year % 100 != 0))))
  }

  /** A date is read exactly when it is eight digits of a day on the calendar, and stored with dashes between them. */
  lemma DateExactlyWhen(value: string, stored: string)
    ensures TallyDate(value) == Some(stored) <==>
      var t := Trim(value);
      && |t| == 8 && (forall i :: 0 <= i < 8 ==> '0' <= t[i] <= '9')
      && OnCalendar(TextNat(t[..4]), TextNat(t[4..6]), TextNat(t[6..]))
      && stored == t[..4] + "-" + t[4..6] + "-" + t[6..]
  {
    hide TextNat, Trim;
  }

  // ---- one voucher element ---------------------------------------------------------------------------------

  /** What a record holds of the body it was read from. */
  ghost predicate Describes(o: Options, r: Record, ns: seq<Node>, line: nat) {
    && r.lineNumber == line
    && r.guid == Stated(o, ns, "GUID")
    && r.voucherType == Stated(o, ns, "VOUCHERTYPENAME")
    && r.partyLedger == Stated(o, ns, "PARTYLEDGERNAME")
    && TallyDate(Stated(o, ns, "DATE")) == Some(r.date)
    && StoredWithin(60, Stated(o, ns, "VOUCHERNUMBER"), r.voucherNumber)
    && StoredWithin(200, Stated(o, ns, "REFERENCE"), r.reference)
    && StoredWithin(2000, Stated(o, ns, "NARRATION"), r.narration)
    && AlterationStored(Stated(o, ns, "ALTERID"), r.alterId)
    && RegistrationStored(Upper(Stated(o, ns, "PARTYGSTIN")), r.partyGstin)
    && (r.cancelled <==> Stated(o, ns, "ISCANCELLED") == "Yes")
    && (r.optional <==> Stated(o, ns, "ISOPTIONAL") == "Yes")
    && r.entries == Legs(o, ns) && |r.entries| <= 100
    && r.billReferences == FirstForty(BillNames(o, ns))
    && r.amount == ValueText(Stated(o, ns, "PARTYLEDGERNAME"), Legs(o, ns))
    && exists k :: FieldsUpTo(o, map[], r.sourceFields, ns, k)
  }

  function FirstForty(names: seq<string>): seq<string> { if |names| <= 40 then names else names[..40] }

  /** An alteration counter of one to fifteen digits is stored as its number, anything else as nothing. */
  predicate AlterationStored(text: string, stored: Option<nat>) {
    if 1 <= |text| <= 15 && AllDigits(text) then stored == Some(TextNat(text)) else stored == None
  }

  predicate RegistrationStored(text: string, stored: Option<string>) {
    stored == if Fits(text, "99AAAAA9999A#Z#") || Fits(text, "99############D") then Some(text) else None
  }

  /** A cancelled or optional voucher, which TallyPrime empties of its party, number and legs. */
  predicate IsStripped(o: Options, ns: seq<Node>) {
    Stated(o, ns, "ISCANCELLED") == "Yes" || Stated(o, ns, "ISOPTIONAL") == "Yes"
  }

  /** No document number in any of the three places one may stand. */
  predicate Numberless(o: Options, ns: seq<Node>) {
    Stated(o, ns, "VOUCHERNUMBER") == "" && Stated(o, ns, "REFERENCE") == "" && BillNames(o, ns) == []
  }

  /** The complaint a body raises, in the order they are raised; None when there is none. */
  ghost predicate Complaint(o: Options, ns: seq<Node>, guids: set<string>, complaint: Option<Reason>) {
    var guid, party := Stated(o, ns, "GUID"), Stated(o, ns, "PARTYLEDGERNAME");
    var named := 1 <= |guid| <= 80;
    var legged := named && |Legs(o, ns)| <= 100;
    var dated := legged && exists stored :: TallyDate(Stated(o, ns, "DATE")) == Some(stored);
    var filed := dated && (party != "" || IsStripped(o, ns));
    var unnumbered := Stated(o, ns, "VOUCHERTYPENAME") == "Sales" && !IsStripped(o, ns) && Numberless(o, ns);
    && (complaint == Some(NoGuid) <==> guid == "")
    && (complaint == Some(GuidTooLong) <==> |guid| > 80)
    && (complaint == Some(TooManyLegs) <==> named && !legged)
    && (complaint == Some(NoDate) <==> legged && !dated)
    && (complaint == Some(NoParty) <==> dated && !filed)
    && (complaint == Some(NoDocumentNumber) <==> filed && unnumbered)
    && (complaint == Some(PartyTooLong) <==> filed && !unnumbered && |party| > 300)
    && (complaint == Some(RepeatedGuid) <==> filed && !unnumbered && |party| <= 300 && guid in guids)
    && (complaint == None <==> filed && !unnumbered && |party| <= 300 && guid !in guids)
  }

  /** The draft a body leaves behind. */
  ghost predicate ReadFrom(o: Options, d: Draft, ns: seq<Node>, line: nat) {
    && TextsAfter(o, NewDraft(line), d, ns) && FlagsAfter(o, NewDraft(line), d, ns)
    && d.entries == Hundred(Legs(o, ns)) && (d.tooManyEntries <==> |Legs(o, ns)| > 100)
    && d.billReferences == FirstForty(BillNames(o, ns))
    && exists k :: FieldsUpTo(o, map[], d.sourceFields, ns, k)
  }

  lemma BodyLeaves(o: Options, ns: seq<Node>, line: nat)
    ensures ReadFrom(o, Absorb(o, NewDraft(line), ns), ns, line)
  {
    hide Absorb, TextOf, Legs, BillNames, VerbatimText, TextsAfter, FlagsAfter, FieldsUpTo;
    var d := NewDraft(line);
    FieldsAbsorbed(o, d, ns);
    LegsAbsorbed(o, d, ns);
    ReferencesAbsorbed(o, d, ns);
    assert [] + Legs(o, ns) == Legs(o, ns) && [] + FirstForty(BillNames(o, ns)) == FirstForty(BillNames(o, ns));
    var k := SourceFieldsAbsorbed(o, d, ns);
  }

  lemma DraftComplains(o: Options, d: Draft, ns: seq<Node>, line: nat, guids: set<string>)
    requires ReadFrom(o, d, ns, line) && Stated(o, ns, "VOUCHERTYPENAME") in o.types
    ensures Decide(o, d, guids) != Skip
    ensures Complaint(o, ns, guids, if Decide(o, d, guids).Refuse? then Some(Decide(o, d, guids).reason) else None)
  {
    hide TextOf, Legs, BillNames, VerbatimText, TallyDate;
  }

  /** How a refused voucher is named to the reader: its number, else its reference, cut at sixty characters. */
  predicate NamedAs(o: Options, ns: seq<Node>, name: Option<string>) {
    var number, reference := Stated(o, ns, "VOUCHERNUMBER"), Stated(o, ns, "REFERENCE");
    var shown := if number != "" then number else reference;
    name == if shown == "" then None else Some(if |shown| <= 60 then shown else shown[..60])
  }

  lemma RecordDescribes(o: Options, d: Draft, ns: seq<Node>, line: nat, guids: set<string>)
    requires ReadFrom(o, d, ns, line) && Decide(o, d, guids) == Keep
    ensures Describes(o, RecordOf(d), ns, line)
  {
    hide TextOf, Legs, BillNames, VerbatimText, TallyDate, ValueText, TrimmedOrNone, StoredWithin, IsGstin, Fits;
    hide TextNat;
    TrimmedOrNoneStores(d.voucherNumber, 60);
    TrimmedOrNoneStores(d.reference, 200);
    TrimmedOrNoneStores(d.narration, 2000);
    GstinExactlyWhen(Upper(d.partyGstin));
  }

  /** Where the file stands after one voucher element. */
  ghost predicate ElementOutcome(o: Options, s: Scan, t: Scan, ns: seq<Node>, line: nat) {
    && t.voucherCount == s.voucherCount + 1
    && if Stated(o, ns, "VOUCHERTYPENAME") !in o.types then
         t.records == s.records && t.refusals == s.refusals && t.failure == None
       else
         exists complaint ::
           && Complaint(o, ns, GuidsOf(s.records), complaint)
           && match complaint
              case None => Recorded(o, s, t, ns, line)
              case Some(reason) => Complained(o, s, t, ns, line, reason)
  }

  /** One more record, up to fifty thousand; another refuses the file. */
  ghost predicate Recorded(o: Options, s: Scan, t: Scan, ns: seq<Node>, line: nat) {
    && t.refusals == s.refusals
    && if |s.records| < 50000 then
         t.failure == None && exists r :: t.records == s.records + [r] && Describes(o, r, ns, line)
       else t.records == s.records && t.failure == Some(TooManyVouchers)
  }

  /** One more refusal, up to two hundred, naming the line, the voucher and the reason. */
  ghost predicate Complained(o: Options, s: Scan, t: Scan, ns: seq<Node>, line: nat, reason: Reason) {
    && t.records == s.records && t.failure == None
    && if |s.refusals| < 200 then
         exists name :: t.refusals == s.refusals + [Refusal(line, name, reason)] && NamedAs(o, ns, name)
       else t.refusals == s.refusals
  }

  lemma FinishOutcome(o: Options, s: Scan, d: Draft, ns: seq<Node>, line: nat)
    requires ReadFrom(o, d, ns, line) && s.leg == None && s.draft == d && s.failure == None
    ensures ElementOutcome(o, s, Finish(o, s), ns, line)
  {
    hide TextOf, Legs, BillNames, VerbatimText, TallyDate, Decide, RecordOf, Describes, Complaint, GuidsOf;
    var guids := GuidsOf(s.records);
    if Stated(o, ns, "VOUCHERTYPENAME") in o.types {
      DraftComplains(o, d, ns, line, guids);
      var decision := Decide(o, d, guids);
      if decision == Keep {
        RecordDescribes(o, d, ns, line, guids);
        assert Complaint(o, ns, guids, None);
        assert Recorded(o, s, Finish(o, s), ns, line);
      } else {
        assert Complaint(o, ns, guids, Some(decision.reason));
        assert NamedAs(o, ns, RefusalOf(d, decision.reason).voucherNumber);
        assert Complained(o, s, Finish(o, s), ns, line, decision.reason);
      }
    } else {
      SkippedType(o, d, ns, line, guids);
    }
  }

  lemma SkippedType(o: Options, d: Draft, ns: seq<Node>, line: nat, guids: set<string>)
    requires ReadFrom(o, d, ns, line) && Stated(o, ns, "VOUCHERTYPENAME") !in o.types
    ensures Decide(o, d, guids) == Skip
  {
    hide TextOf, Legs, BillNames, VerbatimText;
  }

  /** What each voucher element of an export adds: nothing, a record that describes it, or the refusal it earns. */
  lemma ElementRecorded(o: Options, s: Scan, tag: string, attrs: string, children: seq<Node>)
    requires s.failure == None && s.leg == None
    ensures ElementOutcome(o, s, PartMeaning(o, s, Element(tag, attrs, children)), children, s.line + 1)
  {
    hide Absorb, Finish, ReadFrom, Lines;
    var d := Absorb(o, NewDraft(s.line + 1), children);
    BodyLeaves(o, children, s.line + 1);
    var part := Element(tag, attrs, children);
    var body := Later(s, |PartLines(part)|).(inVoucher := true, draft := d, depth := 0, leg := None, bill := None);
    FinishOutcome(o, body, d, children, s.line + 1);
    assert PartMeaning(o, s, part) == Finish(o, body).(inVoucher := false);
    OutcomeCarries(o, s, body, Finish(o, body), PartMeaning(o, s, part), children, s.line + 1);
  }

  lemma OutcomeCarries(o: Options, s: Scan, s': Scan, t: Scan, t': Scan, ns: seq<Node>, line: nat)
    requires ElementOutcome(o, s', t, ns, line)
    requires s.records == s'.records && s.refusals == s'.refusals && s.voucherCount == s'.voucherCount
    requires t.records == t'.records && t.refusals == t'.refusals && t.voucherCount == t'.voucherCount
    requires t.failure == t'.failure
    ensures ElementOutcome(o, s, t', ns, line)
  {
    hide Complaint, Describes, Stated, GuidsOf;
    if Stated(o, ns, "VOUCHERTYPENAME") in o.types {
      var complaint :| Complaint(o, ns, GuidsOf(s'.records), complaint)
        && match complaint
           case None => Recorded(o, s', t, ns, line)
           case Some(reason) => Complained(o, s', t, ns, line, reason);
      assert complaint.Some? ==> Complained(o, s, t', ns, line, complaint.value);
      assert complaint.None? ==> Recorded(o, s, t', ns, line);
    }
  }

  // ---- a whole export ------------------------------------------------------------------------------------------

  lemma {:induction false} PartsSnoc(o: Options, s: Scan, ps: seq<Part>, k: nat)
    requires k < |ps|
    ensures PartsMeaning(o, s, ps[..k + 1]) == PartMeaning(o, PartsMeaning(o, s, ps[..k]), ps[k])
    decreases k
  {
    hide PartMeaning;
    if k == 0 {
      assert ps[..1] == [ps[0]] && ps[..1][1..] == [] && ps[..0] == [];
    } else {
      assert ps[..k + 1][1..] == ps[1..][..k] && ps[..k][1..] == ps[1..][..k - 1];
      PartsSnoc(o, PartMeaning(o, s, ps[0]), ps[1..], k - 1);
    }
  }

  lemma {:induction false} LinesSnoc(ps: seq<Part>, k: nat)
    requires k < |ps|
    ensures PartsLines(ps[..k + 1]) == PartsLines(ps[..k]) + PartLines(ps[k])
    decreases k
  {
    hide PartLines;
    if k == 0 {
      assert ps[..1] == [ps[0]] && ps[..1][1..] == [] && ps[..0] == [];
    } else {
      assert ps[..k + 1][1..] == ps[1..][..k] && ps[..k][1..] == ps[1..][..k - 1];
      LinesSnoc(ps[1..], k - 1);
    }
  }

  /** Where the reader of an export stands behind its first k parts. */
  ghost function After(o: Options, e: Export, k: nat): Scan
    requires k <= |e.parts|
  {
    PartsMeaning(o, Opened(|e.preamble| + 1), e.parts[..k])
  }

  lemma PartKeeps(o: Options, s: Scan, p: Part)
    requires s.leg == None
    ensures PartMeaning(o, s, p).leg == None && (s.failure.Some? ==> PartMeaning(o, s, p) == s)
    ensures PartMeaning(o, s, p).failure == None ==> PartMeaning(o, s, p).line == s.line + |PartLines(p)|
    ensures p.Noise? ==> PartMeaning(o, s, p).records == s.records && PartMeaning(o, s, p).refusals == s.refusals
  {
    hide Decide, Absorb, RecordOf, RefusalOf, Lines;
  }

  /** Short of a refused file, a part's lines are counted one by one. */
  lemma {:induction false} AfterStands(o: Options, e: Export, k: nat)
    requires k <= |e.parts|
    ensures After(o, e, k).leg == None
    ensures After(o, e, k).failure == None ==> After(o, e, k).line == |e.preamble| + 1 + |PartsLines(e.parts[..k])|
    decreases k
  {
    hide PartMeaning;
    if k == 0 {
      assert e.parts[..0] == [];
    } else {
      AfterStands(o, e, k - 1);
      PartsSnoc(o, Opened(|e.preamble| + 1), e.parts, k - 1);
      LinesSnoc(e.parts, k - 1);
      PartKeeps(o, After(o, e, k - 1), e.parts[k - 1]);
    }
  }

  /**
   * Element by element, an export's reading grows by what that element earns, at the line its opening tag stands on;
   * what lies between the elements adds nothing.
   */
  lemma ExportGrows(o: Options, e: Export, k: nat)
    requires k < |e.parts| && After(o, e, k).failure == None
    ensures e.parts[k].Element? ==>
      ElementOutcome(o, After(o, e, k), After(o, e, k + 1), e.parts[k].children,
                     |e.preamble| + 2 + |PartsLines(e.parts[..k])|)
    ensures e.parts[k].Noise? ==>
      After(o, e, k + 1).records == After(o, e, k).records && After(o, e, k + 1).refusals == After(o, e, k).refusals
  {
    hide PartMeaning, ElementOutcome, PartsMeaning;
    var p := e.parts[k];
    AfterStands(o, e, k);
    PartsSnoc(o, Opened(|e.preamble| + 1), e.parts, k);
    PartKeeps(o, After(o, e, k), p);
    if p.Element? { ElementRecorded(o, After(o, e, k), p.tag, p.attrs, p.children); }
  }

  /** The record describes one of these voucher elements. */
  ghost predicate DescribesOne(o: Options, r: Record, ps: seq<Part>) {
    exists i, line :: 0 <= i < |ps| && ps[i].Element? && Describes(o, r, ps[i].children, line)
  }

  /** Every record of an export that reads describes one of its voucher elements. */
  lemma RecordsDescribed(o: Options, lines: seq<string>, e: Export)
    requires WellFormedExport(e) && TrimAll(lines) == ExportLines(e) && ReadAll(o, lines).Read?
    ensures forall r :: r in ReadAll(o, lines).records ==> DescribesOne(o, r, e.parts)
  {
    hide PartsMeaning, ExportLines, WellFormedExport, TrimAll, Run, DescribesOne;
    ExportRead(o, lines, e);
    assert e.parts[..|e.parts|] == e.parts;
    DescribedSoFar(o, e, |e.parts|);
  }

  lemma {:induction false} DescribedSoFar(o: Options, e: Export, k: nat)
    requires k <= |e.parts|
    ensures forall r :: r in After(o, e, k).records ==> DescribesOne(o, r, e.parts)
    decreases k
  {
    hide PartMeaning, Describes, Complaint, Stated;
    if k == 0 {
      assert e.parts[..0] == [];
    } else {
      var before, after := After(o, e, k - 1), After(o, e, k);
      DescribedSoFar(o, e, k - 1);
      AfterStands(o, e, k - 1);
      PartsSnoc(o, Opened(|e.preamble| + 1), e.parts, k - 1);
      PartKeeps(o, before, e.parts[k - 1]);
      if before.failure == None {
        ExportGrows(o, e, k - 1);
        if e.parts[k - 1].Element? { OneMoreDescribed(o, before, after, e, k - 1); }
      }
    }
  }

  lemma OneMoreDescribed(o: Options, s: Scan, t: Scan, e: Export, i: nat)
    requires i < |e.parts| && e.parts[i].Element?
    requires ElementOutcome(o, s, t, e.parts[i].children, |e.preamble| + 2 + |PartsLines(e.parts[..i])|)
    requires forall r :: r in s.records ==> DescribesOne(o, r, e.parts)
    ensures forall r :: r in t.records ==> DescribesOne(o, r, e.parts)
  {
    hide Describes, Complaint, Stated, GuidsOf;
    if t.records != s.records {
      var line := |e.preamble| + 2 + |PartsLines(e.parts[..i])|;
      var r :| t.records == s.records + [r] && Describes(o, r, e.parts[i].children, line);
      assert DescribesOne(o, r, e.parts);
    }
  }
}
