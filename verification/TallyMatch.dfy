/**
 * Tying Tally's sales vouchers to the invoice register (tally-vouchers.ts): a number arm, a guarded
 * serial arm, and a reconciliation over connected components of the link graph.  Amounts are paise.
 */
module TallyMatch {
  import opened Text
  import TallyScan

  datatype VoucherType = Sales | CreditNote | DebitNote

  datatype Voucher = Voucher(
    guid: string, voucherType: VoucherType, voucherNumber: Option<string>, reference: Option<string>,
    partyLedger: string, partyGstin: Option<string>, billReferences: seq<string>, amount: int)

  datatype Invoice = Invoice(
    id: string, invoiceNumber: string, customerName: string, customerGstin: Option<string>, total: int)

  /** A correspondence an earlier import stored. */
  datatype ExistingLink = ExistingLink(tallyGuid: string, invoiceId: string, amount: int)

  datatype MatchMethod = ExactNumber | SerialTolerant

  datatype Pair = Pair(voucher: Voucher, invoice: Invoice, how: MatchMethod, evidence: string)

  datatype Verdict = Verdict(disputed: bool, tallyTotal: int, invoiceTotal: int)

  datatype InvoiceLink = InvoiceLink(
    voucher: Voucher, invoiceId: string, how: MatchMethod, evidence: string, verdict: Verdict)

  datatype MatchResult = MatchResult(
    links: seq<InvoiceLink>, unmatched: seq<Voucher>, serialCollisions: nat,
    componentCount: nat, disputedComponentCount: nat)

  // ---- document numbers --------------------------------------------------

  predicate IsAlphanumeric(c: char) { 'A' <= c <= 'Z' || '0' <= c <= '9' }

  function KeepAlphanumeric(s: string): string {
    if s == [] then []
    else (if IsAlphanumeric(s[0]) then [s[0]] else []) + KeepAlphanumeric(s[1..])
  }

  /** Case and punctuation removed. */
  function Squeeze(s: string): string { KeepAlphanumeric(Upper(s)) }

  function KeySources(v: Voucher): seq<string> {
    [OrEmpty(v.voucherNumber), OrEmpty(v.reference)] + v.billReferences
  }

  function KeysFrom(sources: seq<string>, keys: seq<string>): seq<string> {
    if sources == [] || |keys| >= TallyScan.MAX_MATCH_KEYS then keys
    else
      var key := Squeeze(sources[0]);
      KeysFrom(sources[1..], if |key| >= 3 && key !in keys then keys + [key] else keys)
  }

  /** The normalised document numbers a voucher offers. */
  function Keys(v: Voucher): seq<string> { KeysFrom(KeySources(v), []) }

  method MatchKeys(v: Voucher) returns (keys: seq<string>)
    ensures keys == Keys(v)
  {
    keys := [];
    var sources := KeySources(v);
    var i := 0;
    while i < |sources| && |keys| < TallyScan.MAX_MATCH_KEYS
      invariant 0 <= i <= |sources|
      invariant KeysFrom(sources[i..], keys) == Keys(v)
    {
      var key := Squeeze(sources[i]);
      assert sources[i..][1..] == sources[i + 1..];
      if |key| >= 3 && key !in keys { keys := keys + [key]; }
      i := i + 1;
    }
  }

  predicate Distinct(keys: seq<string>) {
    forall i, j :: 0 <= i < j < |keys| ==> keys[i] != keys[j]
  }

  predicate ComesFrom(key: string, sources: seq<string>) {
    |key| >= 3 && exists s :: s in sources && key == Squeeze(s)
  }

  lemma {:induction false} KeysFromDistinct(sources: seq<string>, keys: seq<string>)
    requires |keys| <= TallyScan.MAX_MATCH_KEYS && Distinct(keys)
    ensures keys <= KeysFrom(sources, keys) && |KeysFrom(sources, keys)| <= TallyScan.MAX_MATCH_KEYS
    ensures Distinct(KeysFrom(sources, keys))
    decreases |sources|
  {
    hide Squeeze;
    if sources != [] && |keys| < TallyScan.MAX_MATCH_KEYS {
      var key := Squeeze(sources[0]);
      KeysFromDistinct(sources[1..], if |key| >= 3 && key !in keys then keys + [key] else keys);
    }
  }

  lemma {:induction false} KeysFromSources(sources: seq<string>, keys: seq<string>, k: string)
    requires k in KeysFrom(sources, keys)
    ensures k in keys || ComesFrom(k, sources)
    decreases |sources|
  {
    hide Squeeze;
    if sources != [] && |keys| < TallyScan.MAX_MATCH_KEYS {
      var key := Squeeze(sources[0]);
      KeysFromSources(sources[1..], if |key| >= 3 && key !in keys then keys + [key] else keys, k);
      assert sources[0] in sources && forall s :: s in sources[1..] ==> s in sources;
    }
  }

  lemma {:induction false} KeysFromComplete(sources: seq<string>, keys: seq<string>, s: string)
    requires |keys| <= TallyScan.MAX_MATCH_KEYS && Distinct(keys)
    requires |KeysFrom(sources, keys)| < TallyScan.MAX_MATCH_KEYS
    requires s in sources && |Squeeze(s)| >= 3
    ensures Squeeze(s) in KeysFrom(sources, keys)
    decreases |sources|
  {
    hide Squeeze;
    KeysFromDistinct(sources, keys);
    var key := Squeeze(sources[0]);
    var next := if |key| >= 3 && key !in keys then keys + [key] else keys;
    KeysFromDistinct(sources[1..], next);
    if s in sources[1..] {
      KeysFromComplete(sources[1..], next, s);
    } else {
      assert s == sources[0] && key in next;
    }
  }

  /**
   * A voucher offers at most forty distinct numbers, each of three characters or more, and below the cap all of them.
   */
  lemma MatchKeysMeaning(v: Voucher)
    ensures |Keys(v)| <= TallyScan.MAX_MATCH_KEYS
    ensures Distinct(Keys(v))
    ensures forall k :: k in Keys(v) ==> ComesFrom(k, KeySources(v))
    ensures |Keys(v)| < TallyScan.MAX_MATCH_KEYS ==>
      forall s :: s in KeySources(v) && |Squeeze(s)| >= 3 ==> Squeeze(s) in Keys(v)
  {
    KeysFromDistinct(KeySources(v), []);
    forall k | k in Keys(v) ensures ComesFrom(k, KeySources(v)) {
      KeysFromSources(KeySources(v), [], k);
    }
    if |Keys(v)| < TallyScan.MAX_MATCH_KEYS {
      forall s | s in KeySources(v) && |Squeeze(s)| >= 3 ensures Squeeze(s) in Keys(v) {
        KeysFromComplete(KeySources(v), [], s);
      }
    }
  }

  datatype Serial = Serial(prefix: string, serial: string)

  /** The trailing five digits of a squeezed number, with what precedes them. */
  function SerialOf(key: string): Option<Serial> {
    if |key| > 5 && AllDigits(key[|key| - 5..]) then Some(Serial(key[..|key| - 5], key[|key| - 5..]))
    else None
  }

  predicate AgreesWithinARupee(left: int, right: int) {
    (if left - right < 0 then right - left else left - right) <= 100
  }

  // ---- what matches what -------------------------------------------------

  predicate ExactMatch(v: Voucher, inv: Invoice) { Squeeze(inv.invoiceNumber) in Keys(v) }

  predicate SerialCandidate(key: string, inv: Invoice) {
    var s, t := SerialOf(key), SerialOf(Squeeze(inv.invoiceNumber));
    s.Some? && t.Some? && s.value.serial == t.value.serial && s.value.prefix != t.value.prefix
  }

  predicate Confirmed(v: Voucher, inv: Invoice) {
    || AgreesWithinARupee(v.amount, inv.total)
    || (v.partyGstin.Some? && v.partyGstin == inv.customerGstin)
    || Squeeze(v.partyLedger) == Squeeze(inv.customerName)
  }

  predicate HasExact(v: Voucher, invoices: seq<Invoice>) {
    exists inv :: inv in invoices && ExactMatch(v, inv)
  }

  predicate SerialMatch(v: Voucher, inv: Invoice) {
    Confirmed(v, inv) && exists key :: key in Keys(v) && SerialCandidate(key, inv)
  }

  /** The serial arm counts only for a voucher no invoice matches outright. */
  predicate Matches(v: Voucher, invoices: seq<Invoice>, inv: Invoice) {
    && v.voucherType == Sales && inv in invoices
    && if HasExact(v, invoices) then ExactMatch(v, inv) else SerialMatch(v, inv)
  }

  predicate HasMatch(v: Voucher, invoices: seq<Invoice>) {
    exists inv :: inv in invoices && Matches(v, invoices, inv)
  }

  /** The evidence a pair carries is a number of the voucher that led to the invoice by the arm named. */
  predicate Justified(p: Pair, v: Voucher, invoices: seq<Invoice>) {
    && p.voucher == v && Matches(v, invoices, p.invoice) && p.evidence in Keys(v)
    && (p.how == ExactNumber <==> HasExact(v, invoices))
    && match p.how
       case ExactNumber => p.evidence == Squeeze(p.invoice.invoiceNumber)
       case SerialTolerant => SerialCandidate(p.evidence, p.invoice)
  }

  // ---- the two indexes ---------------------------------------------------

  function WithNumber(invoices: seq<Invoice>, key: string): (r: seq<Invoice>)
    ensures forall inv :: inv in r <==> inv in invoices && Squeeze(inv.invoiceNumber) == key && |key| >= 3
  {
    if invoices == [] then []
    else
      var last := invoices[|invoices| - 1];
      var rest := WithNumber(invoices[..|invoices| - 1], key);
      if Squeeze(last.invoiceNumber) == key && |key| >= 3 then rest + [last] else rest
  }

  function WithSerial(invoices: seq<Invoice>, serial: string): (r: seq<(Invoice, string)>)
    ensures forall c :: c in r <==>
      c.0 in invoices && SerialOf(Squeeze(c.0.invoiceNumber)) == Some(Serial(c.1, serial))
  {
    if invoices == [] then []
    else
      var last := invoices[|invoices| - 1];
      var rest := WithSerial(invoices[..|invoices| - 1], serial);
      match SerialOf(Squeeze(last.invoiceNumber))
      case Some(s) => if s.serial == serial then rest + [(last, s.prefix)] else rest
      case None => rest
  }

  function Bucket<T>(index: map<string, seq<T>>, key: string): seq<T> {
    if key in index then index[key] else []
  }

  ghost predicate IndexedByNumber(index: map<string, seq<Invoice>>, invoices: seq<Invoice>) {
    forall k :: Bucket(index, k) == WithNumber(invoices, k)
  }

  ghost predicate IndexedBySerial(index: map<string, seq<(Invoice, string)>>, invoices: seq<Invoice>) {
    forall s :: Bucket(index, s) == WithSerial(invoices, s)
  }

  lemma NumberStep(invoices: seq<Invoice>, inv: Invoice, k: string)
    ensures WithNumber(invoices + [inv], k)
         == if Squeeze(inv.invoiceNumber) == k && |k| >= 3 then WithNumber(invoices, k) + [inv]
            else WithNumber(invoices, k)
  {
    assert (invoices + [inv])[..|invoices|] == invoices;
  }

  function SerialEntry(inv: Invoice, serial: string): seq<(Invoice, string)> {
    match SerialOf(Squeeze(inv.invoiceNumber))
    case Some(t) => if t.serial == serial then [(inv, t.prefix)] else []
    case None => []
  }

  lemma SerialStep(invoices: seq<Invoice>, inv: Invoice, s: string)
    ensures WithSerial(invoices + [inv], s)
         == WithSerial(invoices, s) + SerialEntry(inv, s)
  {
    assert (invoices + [inv])[..|invoices|] == invoices;
  }

  method AddToIndexes(
      invoices: seq<Invoice>, invoice: Invoice,
      numbers: map<string, seq<Invoice>>, serials: map<string, seq<(Invoice, string)>>)
    returns (byNumber: map<string, seq<Invoice>>, bySerial: map<string, seq<(Invoice, string)>>)
    requires IndexedByNumber(numbers, invoices) && IndexedBySerial(serials, invoices)
    ensures IndexedByNumber(byNumber, invoices + [invoice]) && IndexedBySerial(bySerial, invoices + [invoice])
  {
    hide Squeeze, SerialOf, WithNumber, WithSerial;
    byNumber, bySerial := numbers, serials;
    var key := Squeeze(invoice.invoiceNumber);
    if |key| >= 3 {
      byNumber := byNumber[key := Bucket(byNumber, key) + [invoice]];
    }
    var serial := SerialOf(key);
    if serial.Some? {
      var bucket := Bucket(bySerial, serial.value.serial) + [(invoice, serial.value.prefix)];
      bySerial := bySerial[serial.value.serial := bucket];
    }
    forall k ensures Bucket(byNumber, k) == WithNumber(invoices + [invoice], k) {
      NumberStep(invoices, invoice, k);
    }
    forall s ensures Bucket(bySerial, s) == WithSerial(invoices + [invoice], s) {
      SerialStep(invoices, invoice, s);
    }
  }

  method BuildIndexes(invoices: seq<Invoice>)
    returns (byNumber: map<string, seq<Invoice>>, bySerial: map<string, seq<(Invoice, string)>>)
    ensures IndexedByNumber(byNumber, invoices) && IndexedBySerial(bySerial, invoices)
  {
    byNumber, bySerial := map[], map[];
    for i := 0 to |invoices|
      invariant IndexedByNumber(byNumber, invoices[..i]) && IndexedBySerial(bySerial, invoices[..i])
    {
      byNumber, bySerial := AddToIndexes(invoices[..i], invoices[i], byNumber, bySerial);
      assert invoices[..i + 1] == invoices[..i] + [invoices[i]];
    }
    assert invoices[..|invoices|] == invoices;
  }

  // ---- one voucher's hits ------------------------------------------------

  /** Serial candidates the confirmation turned away, key by key. */
  function TurnedAway(v: Voucher, prefix: string, bucket: seq<(Invoice, string)>): nat {
    if bucket == [] then 0
    else
      var last := bucket[|bucket| - 1];
      TurnedAway(v, prefix, bucket[..|bucket| - 1])
      + if last.1 != prefix && !Confirmed(v, last.0) then 1 else 0
  }

  function Collisions(v: Voucher, keys: seq<string>, invoices: seq<Invoice>): nat {
    if keys == [] then 0
    else
      Collisions(v, keys[..|keys| - 1], invoices)
      + match SerialOf(keys[|keys| - 1])
        case None => 0
        case Some(s) => TurnedAway(v, s.prefix, WithSerial(invoices, s.serial))
  }

  /** A hit is filed under its own invoice and names a number of the voucher that led there. */
  predicate Hit(p: Pair, id: string, v: Voucher, invoices: seq<Invoice>, how: MatchMethod) {
    && p.voucher == v && p.invoice.id == id && p.invoice in invoices && p.how == how && p.evidence in Keys(v)
    && match how
       case ExactNumber => p.evidence == Squeeze(p.invoice.invoiceNumber)
       case SerialTolerant => SerialCandidate(p.evidence, p.invoice) && Confirmed(v, p.invoice)
  }

  ghost predicate Hits(hits: map<string, Pair>, v: Voucher, invoices: seq<Invoice>, how: MatchMethod) {
    forall id :: id in hits ==> Hit(hits[id], id, v, invoices, how)
  }

  lemma HitAdded(hits: map<string, Pair>, p: Pair, v: Voucher, invoices: seq<Invoice>, how: MatchMethod)
    requires Hits(hits, v, invoices, how) && Hit(p, p.invoice.id, v, invoices, how)
    ensures Hits(hits[p.invoice.id := p], v, invoices, how)
  {
  }

  method ExactHitsForKey(
      v: Voucher, key: string, bucket: seq<Invoice>, invoices: seq<Invoice>, found: map<string, Pair>)
    returns (hits: map<string, Pair>)
    requires key in Keys(v) && bucket == WithNumber(invoices, key) && Hits(found, v, invoices, ExactNumber)
    ensures Hits(hits, v, invoices, ExactNumber) && found.Keys <= hits.Keys
    ensures forall inv :: inv in bucket ==> inv.id in hits
  {
    hide Hit, Squeeze, Keys;
    hits := found;
    for j := 0 to |bucket|
      invariant Hits(hits, v, invoices, ExactNumber) && found.Keys <= hits.Keys
      invariant forall k :: 0 <= k < j ==> bucket[k].id in hits
    {
      assert bucket[j] in bucket;
      HitAdded(hits, Pair(v, bucket[j], ExactNumber, key), v, invoices, ExactNumber);
      hits := hits[bucket[j].id := Pair(v, bucket[j], ExactNumber, key)];
    }
  }

  /** Every invoice numbered by one of these keys has a hit. */
  ghost predicate CoversNumbers(hits: map<string, Pair>, keys: seq<string>, invoices: seq<Invoice>) {
    forall inv :: inv in invoices && Squeeze(inv.invoiceNumber) in keys ==> inv.id in hits
  }

  method ExactHits(v: Voucher, keys: seq<string>, byNumber: map<string, seq<Invoice>>, invoices: seq<Invoice>)
    returns (hits: map<string, Pair>)
    requires keys == Keys(v) && IndexedByNumber(byNumber, invoices)
    ensures Hits(hits, v, invoices, ExactNumber)
    ensures CoversNumbers(hits, keys, invoices)
  {
    hits := map[];
    for i := 0 to |keys|
      invariant Hits(hits, v, invoices, ExactNumber)
      invariant CoversNumbers(hits, keys[..i], invoices)
    {
      var before := hits;
      hits := ExactHitsForKey(v, keys[i], Bucket(byNumber, keys[i]), invoices, before);
      KeyLength(v, keys[i]);
    }
    assert keys[..|keys|] == keys;
  }

  lemma KeyLength(v: Voucher, key: string)
    requires key in Keys(v)
    ensures |key| >= 3
  {
    MatchKeysMeaning(v);
  }

  predicate Accepts(v: Voucher, prefix: string, candidate: (Invoice, string)) {
    candidate.1 != prefix && Confirmed(v, candidate.0)
  }

  lemma NoneTurnedAway(v: Voucher, prefix: string)
    ensures TurnedAway(v, prefix, []) == 0
  {
  }

  method SerialHitsForKey(
      v: Voucher, key: string, serial: Serial, bucket: seq<(Invoice, string)>, invoices: seq<Invoice>,
      found: map<string, Pair>)
    returns (hits: map<string, Pair>, collisions: nat)
    requires key in Keys(v) && SerialOf(key) == Some(serial)
    requires bucket == WithSerial(invoices, serial.serial) && Hits(found, v, invoices, SerialTolerant)
    ensures Hits(hits, v, invoices, SerialTolerant) && found.Keys <= hits.Keys
    ensures forall c :: c in bucket && Accepts(v, serial.prefix, c) ==> c.0.id in hits
    ensures collisions == TurnedAway(v, serial.prefix, bucket)
  {
    hide Hit, Hits, Squeeze, Keys, SerialOf, WithSerial, Confirmed, TurnedAway;
    hits, collisions := found, 0;
    assert TurnedAway(v, serial.prefix, bucket[..0]) == 0 by { NoneTurnedAway(v, serial.prefix); }
    assert bucket[..0] == [];
    for j := 0 to |bucket|
      invariant Hits(hits, v, invoices, SerialTolerant) && found.Keys <= hits.Keys
      invariant forall k {:trigger Accepts(v, serial.prefix, bucket[k])} ::
        0 <= k < j && Accepts(v, serial.prefix, bucket[k]) ==> bucket[k].0.id in hits
      invariant collisions == TurnedAway(v, serial.prefix, bucket[..j])
    {
      var candidate := bucket[j];
      TurnedAwayStep(v, serial.prefix, bucket, j);
      assert candidate in bucket;
      if candidate.1 == serial.prefix { continue; }
      if !Confirmed(v, candidate.0) {
        collisions := collisions + 1;
        continue;
      }
      HitAdded(hits, Pair(v, candidate.0, SerialTolerant, key), v, invoices, SerialTolerant);
      hits := hits[candidate.0.id := Pair(v, candidate.0, SerialTolerant, key)];
    }
    assert bucket[..|bucket|] == bucket;
  }

  lemma TurnedAwayStep(v: Voucher, prefix: string, bucket: seq<(Invoice, string)>, j: nat)
    requires j < |bucket|
    ensures TurnedAway(v, prefix, bucket[..j + 1])
         == TurnedAway(v, prefix, bucket[..j]) + if bucket[j].1 != prefix && !Confirmed(v, bucket[j].0) then 1 else 0
  {
    assert bucket[..j + 1][..j] == bucket[..j];
  }

  /** Every confirmed serial candidate of one of these keys has a hit. */
  ghost predicate CoversSerials(hits: map<string, Pair>, v: Voucher, keys: seq<string>, invoices: seq<Invoice>) {
    forall key, inv :: key in keys && inv in invoices && SerialCandidate(key, inv) && Confirmed(v, inv) ==>
      inv.id in hits
  }

  lemma SerialsStep(
      before: map<string, Pair>, hits: map<string, Pair>, v: Voucher, keys: seq<string>, i: nat, invoices: seq<Invoice>)
    requires i < |keys| && before.Keys <= hits.Keys && CoversSerials(before, v, keys[..i], invoices)
    requires match SerialOf(keys[i])
             case None => true
             case Some(s) => forall c :: c in WithSerial(invoices, s.serial) && Accepts(v, s.prefix, c) ==>
               c.0.id in hits
    ensures CoversSerials(hits, v, keys[..i + 1], invoices)
  {
    assert keys[..i + 1] == keys[..i] + [keys[i]];
    forall key, inv | key in keys[..i + 1] && inv in invoices && SerialCandidate(key, inv) && Confirmed(v, inv)
      ensures inv.id in hits
    {
      if key in keys[..i] {
      } else {
        var t := SerialOf(Squeeze(inv.invoiceNumber)).value;
        assert (inv, t.prefix) in WithSerial(invoices, SerialOf(keys[i]).value.serial);
        assert Accepts(v, SerialOf(keys[i]).value.prefix, (inv, t.prefix));
      }
    }
  }

  lemma NoSerialsCovered(v: Voucher, invoices: seq<Invoice>)
    ensures CoversSerials(map[], v, [], invoices)
  {
  }

  method SerialHits(
      v: Voucher, keys: seq<string>, bySerial: map<string, seq<(Invoice, string)>>, invoices: seq<Invoice>)
    returns (hits: map<string, Pair>, collisions: nat)
    requires keys == Keys(v) && IndexedBySerial(bySerial, invoices)
    ensures Hits(hits, v, invoices, SerialTolerant)
    ensures CoversSerials(hits, v, keys, invoices)
    ensures collisions == Collisions(v, keys, invoices)
  {
    hide Hit, Squeeze, Keys, SerialOf, WithSerial, TurnedAway, CoversSerials;
    hits, collisions := map[], 0;
    NoSerialsCovered(v, invoices);
    assert keys[..0] == [];
    for i := 0 to |keys|
      invariant Hits(hits, v, invoices, SerialTolerant)
      invariant CoversSerials(hits, v, keys[..i], invoices)
      invariant collisions == Collisions(v, keys[..i], invoices)
    {
      assert keys[..i + 1][..i] == keys[..i];
      var before := hits;
      var serial := SerialOf(keys[i]);
      if serial.Some? {
        var more;
        var bucket := Bucket(bySerial, serial.value.serial);
        hits, more := SerialHitsForKey(v, keys[i], serial.value, bucket, invoices, before);
        collisions := collisions + more;
      }
      SerialsStep(before, hits, v, keys, i, invoices);
    }
    assert keys[..|keys|] == keys;
  }

  function CollisionsOf(v: Voucher, invoices: seq<Invoice>): nat {
    if v.voucherType == Sales && !HasExact(v, invoices) then Collisions(v, Keys(v), invoices) else 0
  }

  /** The serial arm runs only where the number arm found nothing. */
  method HitsFor(
      v: Voucher, byNumber: map<string, seq<Invoice>>, bySerial: map<string, seq<(Invoice, string)>>,
      invoices: seq<Invoice>)
    returns (hits: map<string, Pair>, collisions: nat)
    requires v.voucherType == Sales && IndexedByNumber(byNumber, invoices) && IndexedBySerial(bySerial, invoices)
    ensures forall id :: id in hits ==> hits[id].invoice.id == id && Justified(hits[id], v, invoices)
    ensures forall inv :: Matches(v, invoices, inv) ==> inv.id in hits
    ensures collisions == CollisionsOf(v, invoices)
  {
    var keys := MatchKeys(v);
    hits := ExactHits(v, keys, byNumber, invoices);
    collisions := 0;
    if hits == map[] {
      assert !HasExact(v, invoices);
      hits, collisions := SerialHits(v, keys, bySerial, invoices);
      assert forall id :: id in hits ==> Hit(hits[id], id, v, invoices, SerialTolerant);
    } else {
      var id :| id in hits;
      assert Hit(hits[id], id, v, invoices, ExactNumber);
      assert ExactMatch(v, hits[id].invoice);
      assert forall id :: id in hits ==> Hit(hits[id], id, v, invoices, ExactNumber);
    }
  }
}
