/**
 * What a link between a Tally voucher and a register invoice says of the two documents (tally-vouchers.ts), in terms
 * of their own fields.
 */
module TallyLinks {
  import opened Text
  import opened TallyMatch
  import opened TallyReconcile
  import TallyScan

  /** The voucher carries this document number in one of the three fields Tally keeps one in. */
  predicate Carries(v: Voucher, number: string) {
    v.voucherNumber == Some(number) || v.reference == Some(number) || number in v.billReferences
  }

  // ---- squeezing ---------------------------------------------------------------------------

  lemma {:induction false} KeptAcross(a: string, b: string)
    ensures KeepAlphanumeric(a + b) == KeepAlphanumeric(a) + KeepAlphanumeric(b)
    decreases |a|
  {
    if a == [] {
      assert a + b == b;
    } else {
      assert (a + b)[1..] == a[1..] + b;
      KeptAcross(a[1..], b);
    }
  }

  /** Squeezing works character by character. */
  lemma SqueezeAcross(a: string, b: string)
    ensures Squeeze(a + b) == Squeeze(a) + Squeeze(b)
  {
    assert Upper(a + b) == Upper(a) + Upper(b);
    KeptAcross(Upper(a), Upper(b));
  }

  /** A digit and a capital stand, a small letter becomes its capital, and any other ASCII character goes. */
  lemma SqueezeOne(c: char)
    ensures Squeeze([c]) ==
      if '0' <= c <= '9' || 'A' <= c <= 'Z' then [c]
      else if 'a' <= c <= 'z' then [('A' as int + (c as int - 'a' as int)) as char]
      else []
  {
    var up := Upper([c]);
    assert up == [UpperChar(c)] && up[1..] == [];
    assert KeepAlphanumeric(up[1..]) == [];
  }

  // ---- what the keys are --------------------------------------------------------------------

  lemma {:induction false} ShortListsKeepAll(sources: seq<string>, keys: seq<string>, s: string)
    requires |keys| + |sources| <= 40 && s in sources && |Squeeze(s)| >= 3
    ensures Squeeze(s) in KeysFrom(sources, keys)
    decreases |sources|
  {
    hide Squeeze;
    var key := Squeeze(sources[0]);
    var next := if |key| >= 3 && key !in keys then keys + [key] else keys;
    if s == sources[0] {
      KeysStay(sources[1..], next, key);
    } else {
      ShortListsKeepAll(sources[1..], next, s);
    }
  }

  lemma {:induction false} KeysStay(sources: seq<string>, keys: seq<string>, key: string)
    requires key in keys
    ensures key in KeysFrom(sources, keys)
    decreases |sources|
  {
    hide Squeeze;
    if sources != [] && |keys| < TallyScan.MAX_MATCH_KEYS {
      var next := Squeeze(sources[0]);
      KeysStay(sources[1..], if |next| >= 3 && next !in keys then keys + [next] else keys, key);
    }
  }

  lemma NothingSqueezed()
    ensures Squeeze("") == ""
  {
    assert Upper("") == "";
  }

  /** Every key is a carried number, squeezed; with at most 38 bill references every carried number is a key. */
  lemma KeysAreCarried(v: Voucher)
    ensures forall k :: k in Keys(v) ==> |k| >= 3 && exists s :: Carries(v, s) && k == Squeeze(s)
    ensures |v.billReferences| <= 38 ==> forall s :: Carries(v, s) && |Squeeze(s)| >= 3 ==> Squeeze(s) in Keys(v)
  {
    hide Squeeze;
    MatchKeysMeaning(v);
    NothingSqueezed();
    forall k | k in Keys(v) ensures |k| >= 3 && exists s :: Carries(v, s) && k == Squeeze(s) {
      assert ComesFrom(k, KeySources(v));
      var s :| s in KeySources(v) && k == Squeeze(s);
      assert Carries(v, s);
    }
    if |v.billReferences| <= 38 {
      forall s | Carries(v, s) && |Squeeze(s)| >= 3 ensures Squeeze(s) in Keys(v) {
        assert s in KeySources(v) by { CarriedIsSource(v, s); }
        ShortListsKeepAll(KeySources(v), [], s);
      }
    }
  }

  lemma CarriedIsSource(v: Voucher, s: string)
    requires Carries(v, s)
    ensures s in KeySources(v)
  {
    var sources := KeySources(v);
    assert sources[0] == OrEmpty(v.voucherNumber) && sources[1] == OrEmpty(v.reference);
    if s in v.billReferences {
      var i :| 0 <= i < |v.billReferences| && v.billReferences[i] == s;
      assert sources[2 + i] == s;
    }
  }

  // ---- the two arms, written out -----------------------------------------------------------------

  /** The same number once case and punctuation are set aside, of three characters or more. */
  predicate SameNumber(s: string, t: string) { Squeeze(s) == Squeeze(t) && |Squeeze(s)| >= 3 }

  /** Squeezed, both end in the same five digits, behind prefixes that differ and are not empty. */
  predicate SameSerial(s: string, t: string) {
    var a, b := Squeeze(s), Squeeze(t);
    && |a| > 5 && |b| > 5 && a[|a| - 5..] == b[|b| - 5..] && a[..|a| - 5] != b[..|b| - 5]
    && forall i :: |a| - 5 <= i < |a| ==> '0' <= a[i] <= '9'
  }

  lemma SerialsWrittenOut(s: string, inv: Invoice)
    ensures SerialCandidate(Squeeze(s), inv) <==> SameSerial(s, inv.invoiceNumber)
  {
    hide Squeeze;
    var a, b := Squeeze(s), Squeeze(inv.invoiceNumber);
    TailDigits(a);
    TailDigits(b);
    if |a| > 5 && |b| > 5 {
      assert a == a[..|a| - 5] + a[|a| - 5..] && b == b[..|b| - 5] + b[|b| - 5..];
    }
  }

  lemma TailDigits(a: string)
    ensures |a| > 5 ==> (AllDigits(a[|a| - 5..]) <==> forall i :: |a| - 5 <= i < |a| ==> '0' <= a[i] <= '9')
  {
    if |a| > 5 {
      var tail := a[|a| - 5..];
      assert forall i :: 0 <= i < 5 ==> tail[i] == a[|a| - 5 + i];
      assert forall i :: |a| - 5 <= i < |a| ==> a[i] == tail[i - (|a| - 5)];
    }
  }

  /** Some invoice of the register has one of the voucher's own numbers. */
  ghost predicate NumberKnown(v: Voucher, invoices: seq<Invoice>) {
    exists s, inv :: Carries(v, s) && inv in invoices && SameNumber(s, inv.invoiceNumber)
  }

  lemma HasExactIsKnown(v: Voucher, invoices: seq<Invoice>)
    ensures HasExact(v, invoices) ==> NumberKnown(v, invoices)
    ensures |v.billReferences| <= 38 ==> (HasExact(v, invoices) <==> NumberKnown(v, invoices))
  {
    hide Squeeze, Keys;
    KeysAreCarried(v);
    if HasExact(v, invoices) {
      var inv :| inv in invoices && ExactMatch(v, inv);
      var s :| Carries(v, s) && Squeeze(inv.invoiceNumber) == Squeeze(s);
      assert SameNumber(s, inv.invoiceNumber);
    }
    if |v.billReferences| <= 38 && NumberKnown(v, invoices) {
      var s, inv :| Carries(v, s) && inv in invoices && SameNumber(s, inv.invoiceNumber);
      assert ExactMatch(v, inv);
    }
  }

  /** The three confirmations of a serial: the amount to a rupee, the GSTIN, or the name. */
  predicate Vouched(v: Voucher, inv: Invoice) {
    || -100 <= v.amount - inv.total <= 100
    || (v.partyGstin != None && v.partyGstin == inv.customerGstin)
    || Squeeze(v.partyLedger) == Squeeze(inv.customerName)
  }

  predicate LinkedBy(links: seq<InvoiceLink>, v: Voucher, id: string, how: MatchMethod) {
    exists l :: l in links && l.voucher == v && l.invoiceId == id && l.how == how
  }

  /** A Sales voucher that carries an invoice's number is linked to that invoice as an exact number. */
  lemma NumberLinks(
      links: seq<InvoiceLink>, vouchers: seq<Voucher>, invoices: seq<Invoice>, g: Graph, v: Voucher, inv: Invoice,
      s: string)
    requires LinksOf(links, vouchers, invoices, g) && DistinctIds(invoices)
    requires v in vouchers && v.voucherType == Sales && |v.billReferences| <= 38 && inv in invoices
    requires Carries(v, s) && SameNumber(s, inv.invoiceNumber)
    ensures LinkedBy(links, v, inv.id, ExactNumber)
  {
    hide Squeeze, Keys, VerdictFor, Confirmed;
    KeysAreCarried(v);
    assert ExactMatch(v, inv) && HasExact(v, invoices);
    assert Matches(v, invoices, inv);
    var l :| l in links && l.voucher == v && l.invoiceId == inv.id;
  }

  /** Where no number is known, a serial that one of the three confirmations vouches for is linked as a serial. */
  lemma SerialLinks(
      links: seq<InvoiceLink>, vouchers: seq<Voucher>, invoices: seq<Invoice>, g: Graph, v: Voucher, inv: Invoice,
      s: string)
    requires LinksOf(links, vouchers, invoices, g) && DistinctIds(invoices)
    requires v in vouchers && v.voucherType == Sales && |v.billReferences| <= 38 && inv in invoices
    requires !NumberKnown(v, invoices) && Carries(v, s) && SameSerial(s, inv.invoiceNumber) && Vouched(v, inv)
    ensures LinkedBy(links, v, inv.id, SerialTolerant)
  {
    hide Squeeze, Keys, VerdictFor;
    KeysAreCarried(v);
    HasExactIsKnown(v, invoices);
    SerialsWrittenOut(s, inv);
    assert Squeeze(s) in Keys(v) && SerialMatch(v, inv);
    assert Matches(v, invoices, inv);
    var l :| l in links && l.voucher == v && l.invoiceId == inv.id;
  }

  /** What a link stands on: a number the voucher carries, and an invoice it leads to. */
  predicate Grounded(l: InvoiceLink, invoices: seq<Invoice>, s: string, inv: Invoice) {
    && Carries(l.voucher, s) && inv in invoices && inv.id == l.invoiceId
    && l.evidence == (if |Squeeze(s)| <= 300 then Squeeze(s) else Squeeze(s)[..300])
    && match l.how
       case ExactNumber => SameNumber(s, inv.invoiceNumber)
       case SerialTolerant => SameSerial(s, inv.invoiceNumber) && Vouched(l.voucher, inv)
  }

  /** Every link is of a Sales voucher and grounded so, and a serial link's voucher knows no number outright. */
  lemma LinksAreGrounded(
      links: seq<InvoiceLink>, vouchers: seq<Voucher>, invoices: seq<Invoice>, g: Graph, l: InvoiceLink)
    requires LinksOf(links, vouchers, invoices, g) && l in links
    ensures l.voucher in vouchers && l.voucher.voucherType == Sales
    ensures exists s, inv :: Grounded(l, invoices, s, inv)
    ensures l.how == SerialTolerant && |l.voucher.billReferences| <= 38 ==> !NumberKnown(l.voucher, invoices)
  {
    hide Squeeze, Keys, VerdictFor;
    var v := l.voucher;
    var p :| Justified(p, v, invoices) && LinkFor(p, l);
    KeysAreCarried(v);
    HasExactIsKnown(v, invoices);
    var s :| Carries(v, s) && p.evidence == Squeeze(s);
    SerialsWrittenOut(s, p.invoice);
    assert Grounded(l, invoices, s, p.invoice);
  }

  lemma JustifiedMatches(p: Pair, v: Voucher, invoices: seq<Invoice>)
    requires Justified(p, v, invoices)
    ensures p.invoice in invoices && Matches(v, invoices, p.invoice)
  {
    hide Keys, Squeeze;
  }

  /** Some serial the voucher carries leads to an invoice that one of the three confirmations vouches for. */
  ghost predicate SerialKnown(v: Voucher, invoices: seq<Invoice>) {
    exists s, inv :: Carries(v, s) && inv in invoices && SameSerial(s, inv.invoiceNumber) && Vouched(v, inv)
  }

  lemma MatchIsKnown(v: Voucher, invoices: seq<Invoice>)
    requires v.voucherType == Sales && |v.billReferences| <= 38
    ensures HasMatch(v, invoices) <==> NumberKnown(v, invoices) || SerialKnown(v, invoices)
  {
    hide Squeeze, Keys, SameSerial, SerialCandidate;
    KeysAreCarried(v);
    HasExactIsKnown(v, invoices);
    if HasExact(v, invoices) {
      var inv :| inv in invoices && ExactMatch(v, inv);
      assert Matches(v, invoices, inv);
    } else {
      if SerialKnown(v, invoices) {
        var s, inv :| Carries(v, s) && inv in invoices && SameSerial(s, inv.invoiceNumber) && Vouched(v, inv);
        SerialsWrittenOut(s, inv);
        SerialIsLong(s, inv);
        assert Matches(v, invoices, inv);
      }
      if HasMatch(v, invoices) {
        var inv :| inv in invoices && Matches(v, invoices, inv);
        var key :| key in Keys(v) && SerialCandidate(key, inv);
        var s :| Carries(v, s) && key == Squeeze(s);
        SerialsWrittenOut(s, inv);
      }
    }
  }

  lemma SerialIsLong(s: string, inv: Invoice)
    requires SameSerial(s, inv.invoiceNumber)
    ensures |Squeeze(s)| >= 3
  {
  }

  /** A voucher is unmatched exactly when it is a Sales voucher that knows neither a number nor a serial. */
  lemma UnmatchedExactlyWhen(vouchers: seq<Voucher>, invoices: seq<Invoice>, v: Voucher)
    requires |v.billReferences| <= 38
    ensures v in Unmatched(vouchers, invoices) <==>
      && v in vouchers && v.voucherType == Sales
      && !NumberKnown(v, invoices) && !SerialKnown(v, invoices)
  {
    hide HasMatch, NumberKnown, SerialKnown;
    UnmatchedMeaning(vouchers, invoices, v);
    if v.voucherType == Sales { MatchIsKnown(v, invoices); }
  }

  /** Separators make no difference to a number. */
  lemma SeparatorsAside(a: string, b: string)
    ensures Squeeze(a + "-" + b) == Squeeze(a + "/" + b) == Squeeze(a + " " + b) == Squeeze(a + b)
  {
    hide Squeeze;
    forall c | c in {'-', '/', ' '} ensures Squeeze(a + [c] + b) == Squeeze(a) + Squeeze(b) {
      SqueezeAcross(a + [c], b);
      SqueezeAcross(a, [c]);
      SqueezeOne(c);
    }
    SqueezeAcross(a, b);
    assert "-" == ['-'] && "/" == ['/'] && " " == [' '];
  }

  // ---- the serials turned away ---------------------------------------------------------------------

  /** The register's entries whose serial a number shares and nothing vouches for. */
  ghost function Unvouched(v: Voucher, s: string, invoices: seq<Invoice>): set<nat> {
    set j: nat | j < |invoices| && SameSerial(s, invoices[j].invoiceNumber) && !Vouched(v, invoices[j])
  }

  lemma {:induction false} TurnedAwayAreUnvouched(v: Voucher, s: string, invoices: seq<Invoice>)
    requires SerialOf(Squeeze(s)).Some?
    ensures var serial := SerialOf(Squeeze(s)).value;
      TurnedAway(v, serial.prefix, WithSerial(invoices, serial.serial)) == |Unvouched(v, s, invoices)|
    decreases |invoices|
  {
    hide Squeeze, SerialOf, SameSerial, Vouched, Confirmed;
    var serial := SerialOf(Squeeze(s)).value;
    if invoices == [] {
      assert Unvouched(v, s, invoices) == {};
    } else {
      var n := |invoices| - 1;
      var init, last := invoices[..n], invoices[n];
      TurnedAwayAreUnvouched(v, s, init);
      assert invoices == init + [last];
      SerialStep(init, last, serial.serial);
      SerialsWrittenOut(s, last);
      UnvouchedStep(v, s, invoices);
      EntryTurnedAway(v, serial.prefix, WithSerial(init, serial.serial), SerialEntry(last, serial.serial));
      assert Vouched(v, last) <==> Confirmed(v, last) by { VouchedIsConfirmed(v, last); }
      EntryOf(last, serial.serial);
    }
  }

  lemma VouchedIsConfirmed(v: Voucher, inv: Invoice)
    ensures Vouched(v, inv) <==> Confirmed(v, inv)
  {
  }

  lemma EntryOf(inv: Invoice, serial: string)
    ensures var t := SerialOf(Squeeze(inv.invoiceNumber));
      SerialEntry(inv, serial) == if t.Some? && t.value.serial == serial then [(inv, t.value.prefix)] else []
  {
    hide Squeeze, SerialOf;
  }

  lemma EntryTurnedAway(v: Voucher, prefix: string, bucket: seq<(Invoice, string)>, entry: seq<(Invoice, string)>)
    requires |entry| <= 1
    ensures TurnedAway(v, prefix, bucket + entry) ==
      TurnedAway(v, prefix, bucket) + if |entry| == 1 && entry[0].1 != prefix && !Confirmed(v, entry[0].0) then 1 else 0
  {
    hide Confirmed;
    if |entry| == 1 {
      assert (bucket + entry)[..|bucket|] == bucket;
    } else {
      assert bucket + entry == bucket;
    }
  }

  lemma UnvouchedStep(v: Voucher, s: string, invoices: seq<Invoice>)
    requires invoices != []
    ensures var n := |invoices| - 1;
      |Unvouched(v, s, invoices)| == |Unvouched(v, s, invoices[..n])|
        + if SameSerial(s, invoices[n].invoiceNumber) && !Vouched(v, invoices[n]) then 1 else 0
  {
    hide SameSerial, Vouched;
    var n := |invoices| - 1;
    var before, after := Unvouched(v, s, invoices[..n]), Unvouched(v, s, invoices);
    assert n !in before;
    if SameSerial(s, invoices[n].invoiceNumber) && !Vouched(v, invoices[n]) {
      assert after == before + {n};
    } else {
      assert after == before;
    }
  }

  /** What is counted: for each key of a voucher without an exact number, the entries its serial shares unvouched. */
  ghost function CountUnvouched(v: Voucher, keys: seq<string>, invoices: seq<Invoice>): nat {
    if keys == [] then 0
    else CountUnvouched(v, keys[..|keys| - 1], invoices) + |Unvouched(v, keys[|keys| - 1], invoices)|
  }

  lemma {:induction false} CollisionsAreUnvouched(v: Voucher, keys: seq<string>, invoices: seq<Invoice>)
    requires forall k :: k in keys ==> Squeeze(k) == k
    ensures Collisions(v, keys, invoices) == CountUnvouched(v, keys, invoices)
    decreases |keys|
  {
    hide Squeeze, SerialOf, TurnedAway, WithSerial, Unvouched;
    if keys != [] {
      var init, last := keys[..|keys| - 1], keys[|keys| - 1];
      assert last in keys && forall k :: k in init ==> k in keys;
      CollisionsAreUnvouched(v, init, invoices);
      if SerialOf(last).Some? {
        TurnedAwayAreUnvouched(v, last, invoices);
      } else {
        NoSerialNoneUnvouched(v, last, invoices);
      }
    }
  }

  lemma NoSerialNoneUnvouched(v: Voucher, s: string, invoices: seq<Invoice>)
    requires SerialOf(Squeeze(s)) == None
    ensures Unvouched(v, s, invoices) == {}
  {
    hide Squeeze, SerialOf, Vouched;
    forall j: nat | j < |invoices| ensures !SameSerial(s, invoices[j].invoiceNumber) {
      SerialsWrittenOut(s, invoices[j]);
    }
  }

  lemma {:induction false} SqueezedTwice(s: string)
    ensures Squeeze(Squeeze(s)) == Squeeze(s)
    decreases |s|
  {
    hide Squeeze;
    if s == [] {
      NothingSqueezed();
    } else {
      assert s == [s[0]] + s[1..];
      SqueezeAcross([s[0]], s[1..]);
      SqueezedTwice(s[1..]);
      SqueezeOne(s[0]);
      SqueezeAcross(Squeeze([s[0]]), Squeeze(s[1..]));
      if Squeeze([s[0]]) != [] { SqueezeOne(Squeeze([s[0]])[0]); } else { NothingSqueezed(); }
    }
  }

  /** The collision count of one voucher. */
  lemma CollisionsCounted(v: Voucher, invoices: seq<Invoice>)
    ensures CollisionsOf(v, invoices) ==
      if v.voucherType == Sales && !HasExact(v, invoices) then CountUnvouched(v, Keys(v), invoices) else 0
  {
    hide Squeeze, Keys, Collisions;
    KeysAreCarried(v);
    forall k | k in Keys(v) ensures Squeeze(k) == k {
      var s :| Carries(v, s) && k == Squeeze(s);
      SqueezedTwice(s);
    }
    CollisionsAreUnvouched(v, Keys(v), invoices);
  }

  /** The collisions of a list of vouchers are those of each of them, added up. */
  lemma {:induction false} CollisionsAddUp(a: seq<Voucher>, b: seq<Voucher>, invoices: seq<Invoice>)
    ensures TotalCollisions(a + b, invoices) == TotalCollisions(a, invoices) + TotalCollisions(b, invoices)
    ensures forall v :: v in b && |b| == 1 ==>
      TotalCollisions(b, invoices) ==
        if v.voucherType == Sales && !HasExact(v, invoices) then CountUnvouched(v, Keys(v), invoices) else 0
    decreases |b|
  {
    hide CollisionsOf, HasExact, CountUnvouched, Keys;
    if b == [] {
      assert a + b == a;
    } else {
      var init, last := b[..|b| - 1], b[|b| - 1];
      assert (a + b)[..|a + b| - 1] == a + init;
      CollisionsAddUp(a, init, invoices);
      CollisionsCounted(last, invoices);
    }
  }
}
