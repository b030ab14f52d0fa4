/**
 * Reconciling the matched vouchers over the connected components of the link graph, with the
 * correspondences earlier imports stored joined in (tally-vouchers.ts, from line 967).
 */
module TallyReconcile {
  import opened Text
  import opened UnionFind
  import opened Sums
  import opened TallyMatch

  predicate DistinctGuids(vouchers: seq<Voucher>) {
    forall i, j :: 0 <= i < j < |vouchers| ==> vouchers[i].guid != vouchers[j].guid
  }

  predicate DistinctIds(invoices: seq<Invoice>) {
    forall i, j :: 0 <= i < j < |invoices| ==> invoices[i].id != invoices[j].id
  }

  // ---- the graph a file and the register describe ------------------------

  datatype Graph = Graph(edges: set<Edge>, amounts: map<string, int>, totals: map<string, int>)

  function Guids(vouchers: seq<Voucher>): set<string> { set v | v in vouchers :: v.guid }

  function Ids(invoices: seq<Invoice>): set<string> { set inv | inv in invoices :: inv.id }

  /** Stored links whose voucher this file does not carry. */
  function Carried(existing: seq<ExistingLink>, inThisFile: set<string>): (r: seq<ExistingLink>)
    ensures forall e :: e in r <==> e in existing && e.tallyGuid !in inThisFile
  {
    if existing == [] then []
    else
      var last := existing[|existing| - 1];
      var rest := Carried(existing[..|existing| - 1], inThisFile);
      if last.tallyGuid !in inThisFile then rest + [last] else rest
  }

  function MatchEdges(vouchers: seq<Voucher>, invoices: seq<Invoice>): set<Edge> {
    set v, inv | v in vouchers && inv in invoices && Matches(v, invoices, inv) ::
      (VoucherNode(v.guid), InvoiceNode(inv.id))
  }

  function CarriedEdges(carried: seq<ExistingLink>): set<Edge> {
    set e | e in carried :: (VoucherNode(e.tallyGuid), InvoiceNode(e.invoiceId))
  }

  function AmountOf(vouchers: seq<Voucher>, guid: string): int {
    if vouchers == [] then 0
    else if vouchers[|vouchers| - 1].guid == guid then vouchers[|vouchers| - 1].amount
    else AmountOf(vouchers[..|vouchers| - 1], guid)
  }

  function TotalOf(invoices: seq<Invoice>, id: string): int {
    if invoices == [] then 0
    else if invoices[|invoices| - 1].id == id then invoices[|invoices| - 1].total
    else TotalOf(invoices[..|invoices| - 1], id)
  }

  /** The value the last stored link of a voucher recorded. */
  function CarriedAmount(carried: seq<ExistingLink>, guid: string): int {
    if carried == [] then 0
    else if carried[|carried| - 1].tallyGuid == guid then carried[|carried| - 1].amount
    else CarriedAmount(carried[..|carried| - 1], guid)
  }

  function MatchedGuids(vouchers: seq<Voucher>, invoices: seq<Invoice>): set<string> {
    set v | v in vouchers && HasMatch(v, invoices) :: v.guid
  }

  function MatchedIds(vouchers: seq<Voucher>, invoices: seq<Invoice>): set<string> {
    set v, inv | v in vouchers && inv in invoices && Matches(v, invoices, inv) :: inv.id
  }

  function CarriedGuids(carried: seq<ExistingLink>): set<string> { set e | e in carried :: e.tallyGuid }

  function CarriedIds(carried: seq<ExistingLink>): set<string> { set e | e in carried :: e.invoiceId }

  function EdgesFrom(vouchers: seq<Voucher>, invoices: seq<Invoice>, carried: seq<ExistingLink>): set<Edge> {
    MatchEdges(vouchers, invoices) + CarriedEdges(carried)
  }

  /** A voucher in the file counts at its own value, one only stored at its last stored value. */
  function AmountsFrom(vouchers: seq<Voucher>, invoices: seq<Invoice>, carried: seq<ExistingLink>): map<string, int> {
    map g | g in MatchedGuids(vouchers, invoices) + CarriedGuids(carried) ::
      if g in Guids(vouchers) then AmountOf(vouchers, g) else CarriedAmount(carried, g)
  }

  /** Only invoices the register still knows count. */
  function TotalsFrom(vouchers: seq<Voucher>, invoices: seq<Invoice>, carried: seq<ExistingLink>): map<string, int> {
    map id | id in MatchedIds(vouchers, invoices) + CarriedIds(carried) * Ids(invoices) :: TotalOf(invoices, id)
  }

  /** Every document the reconciliation weighs, with the figure it is weighed at. */
  function GraphOf(vouchers: seq<Voucher>, invoices: seq<Invoice>, existing: seq<ExistingLink>): Graph {
    var carried := Carried(existing, Guids(vouchers));
    Graph(EdgesFrom(vouchers, invoices, carried), AmountsFrom(vouchers, invoices, carried),
          TotalsFrom(vouchers, invoices, carried))
  }

  // ---- what a component's verdict means ----------------------------------

  ghost function ReachedGuids(g: Graph, x: Node): set<string> {
    set guid | guid in g.amounts && Connected(g.edges, x, VoucherNode(guid))
  }

  ghost function ReachedIds(g: Graph, x: Node): set<string> {
    set id | id in g.totals && Connected(g.edges, x, InvoiceNode(id))
  }

  ghost function TallyTotal(g: Graph, x: Node): int { Sum(ReachedGuids(g, x), g.amounts) }

  ghost function InvoiceTotal(g: Graph, x: Node): int { Sum(ReachedIds(g, x), g.totals) }

  /** One verdict for everything a walk over the links can reach from x. */
  ghost function VerdictFor(g: Graph, x: Node): Verdict {
    Verdict(!AgreesWithinARupee(TallyTotal(g, x), InvoiceTotal(g, x)), TallyTotal(g, x), InvoiceTotal(g, x))
  }

  lemma VerdictIsShared(g: Graph, x: Node, y: Node)
    requires Connected(g.edges, x, y)
    ensures VerdictFor(g, x) == VerdictFor(g, y)
  {
    ConnectedSymmetric(g.edges, x, y);
    forall z ensures Connected(g.edges, x, z) <==> Connected(g.edges, y, z) {
      if Connected(g.edges, x, z) { ConnectedTransitive(g.edges, y, x, z); }
      if Connected(g.edges, y, z) { ConnectedTransitive(g.edges, x, y, z); }
    }
    assert ReachedGuids(g, x) == ReachedGuids(g, y) && ReachedIds(g, x) == ReachedIds(g, y);
  }

  // ---- facts about the figures -------------------------------------------

  lemma {:induction false} AmountOfMember(vouchers: seq<Voucher>, v: Voucher)
    requires DistinctGuids(vouchers) && v in vouchers
    ensures AmountOf(vouchers, v.guid) == v.amount
  {
    var n := |vouchers| - 1;
    if vouchers[n] != v {
      var i :| 0 <= i <= n && vouchers[i] == v;
      assert vouchers[..n][i] == v;
      AmountOfMember(vouchers[..n], v);
    }
  }

  lemma {:induction false} TotalOfMember(invoices: seq<Invoice>, inv: Invoice)
    requires DistinctIds(invoices) && inv in invoices
    ensures TotalOf(invoices, inv.id) == inv.total
  {
    var n := |invoices| - 1;
    if invoices[n] != inv {
      var i :| 0 <= i <= n && invoices[i] == inv;
      assert invoices[..n][i] == inv;
      TotalOfMember(invoices[..n], inv);
    }
  }

  // ---- pairs --------------------------------------------------------------

  function Unmatched(vouchers: seq<Voucher>, invoices: seq<Invoice>): seq<Voucher> {
    if vouchers == [] then []
    else
      var last := vouchers[|vouchers| - 1];
      var rest := Unmatched(vouchers[..|vouchers| - 1], invoices);
      if last.voucherType == Sales && !HasMatch(last, invoices) then rest + [last] else rest
  }

  function TotalCollisions(vouchers: seq<Voucher>, invoices: seq<Invoice>): nat {
    if vouchers == [] then 0
    else TotalCollisions(vouchers[..|vouchers| - 1], invoices) + CollisionsOf(vouchers[|vouchers| - 1], invoices)
  }

  ghost predicate PairAt(pairs: seq<Pair>, v: Voucher, id: string) {
    exists p :: p in pairs && p.voucher == v && p.invoice.id == id
  }

  /** One pair for each matching voucher and invoice, and none besides. */
  ghost predicate PairsOf(pairs: seq<Pair>, vouchers: seq<Voucher>, invoices: seq<Invoice>) {
    && (forall p :: p in pairs ==> p.voucher in vouchers && Justified(p, p.voucher, invoices))
    && (forall v, inv :: v in vouchers && Matches(v, invoices, inv) ==> PairAt(pairs, v, inv.id))
    && (forall i, j :: 0 <= i < j < |pairs| ==>
          pairs[i].voucher != pairs[j].voucher || pairs[i].invoice.id != pairs[j].invoice.id)
  }

  /** A voucher's hits, each once. */
  method HitPairs(hits: map<string, Pair>) returns (pairs: seq<Pair>)
    requires forall id :: id in hits ==> hits[id].invoice.id == id
    ensures forall p :: p in pairs <==> p in hits.Values
    ensures forall i, j :: 0 <= i < j < |pairs| ==> pairs[i].invoice.id != pairs[j].invoice.id
  {
    pairs := [];
    var left := hits.Keys;
    while left != {}
      invariant left <= hits.Keys
      invariant forall p :: p in pairs ==> p.invoice.id in hits && p.invoice.id !in left && hits[p.invoice.id] == p
      invariant forall id :: id in hits && id !in left ==> hits[id] in pairs
      invariant forall i, j :: 0 <= i < j < |pairs| ==> pairs[i].invoice.id != pairs[j].invoice.id
      decreases left
    {
      var id :| id in left;
      pairs := pairs + [hits[id]];
      left := left - {id};
    }
  }

  lemma PairsGrow(pairs: seq<Pair>, more: seq<Pair>, vouchers: seq<Voucher>, v: Voucher, invoices: seq<Invoice>)
    requires PairsOf(pairs, vouchers, invoices) && v !in vouchers
    requires forall p :: p in more ==> Justified(p, v, invoices)
    requires forall inv :: Matches(v, invoices, inv) ==> exists p :: p in more && p.invoice.id == inv.id
    requires forall i, j :: 0 <= i < j < |more| ==> more[i].invoice.id != more[j].invoice.id
    ensures PairsOf(pairs + more, vouchers + [v], invoices)
  {
    var all := pairs + more;
    forall w, inv | w in vouchers + [v] && Matches(w, invoices, inv)
      ensures PairAt(all, w, inv.id)
    {
      if w == v {
        var p :| p in more && p.invoice.id == inv.id;
        assert p in all && Justified(p, v, invoices);
      } else {
        assert w in vouchers && PairAt(pairs, w, inv.id);
        var p :| p in pairs && p.voucher == w && p.invoice.id == inv.id;
        assert p in all;
      }
    }
    forall i, j | 0 <= i < j < |all|
      ensures all[i].voucher != all[j].voucher || all[i].invoice.id != all[j].invoice.id
    {
      if i < |pairs| <= j {
        assert all[j] in more && all[i] in pairs;
        assert Justified(all[j], v, invoices);
      }
    }
  }

  /** Only sales vouchers are offered to the matcher. */
  method PairsForVoucher(
      voucher: Voucher, byNumber: map<string, seq<Invoice>>, bySerial: map<string, seq<(Invoice, string)>>,
      invoices: seq<Invoice>)
    returns (more: seq<Pair>, collisions: nat)
    requires IndexedByNumber(byNumber, invoices) && IndexedBySerial(bySerial, invoices)
    ensures forall p :: p in more ==> Justified(p, voucher, invoices)
    ensures forall inv :: Matches(voucher, invoices, inv) ==> exists p :: p in more && p.invoice.id == inv.id
    ensures forall i, j :: 0 <= i < j < |more| ==> more[i].invoice.id != more[j].invoice.id
    ensures |more| == 0 <==> !HasMatch(voucher, invoices)
    ensures collisions == CollisionsOf(voucher, invoices)
  {
    if voucher.voucherType != Sales { return [], 0; }
    var hits;
    hits, collisions := HitsFor(voucher, byNumber, bySerial, invoices);
    more := HitPairs(hits);
    HitsCoverMatches(hits, more, voucher, invoices);
  }

  method FindPairs(vouchers: seq<Voucher>, invoices: seq<Invoice>)
    returns (pairs: seq<Pair>, unmatched: seq<Voucher>, serialCollisions: nat)
    requires DistinctGuids(vouchers)
    ensures PairsOf(pairs, vouchers, invoices)
    ensures unmatched == Unmatched(vouchers, invoices)
    ensures serialCollisions == TotalCollisions(vouchers, invoices)
  {
    var byNumber, bySerial := BuildIndexes(invoices);
    pairs, unmatched, serialCollisions := [], [], 0;
    for i := 0 to |vouchers|
      invariant PairsOf(pairs, vouchers[..i], invoices)
      invariant unmatched == Unmatched(vouchers[..i], invoices)
      invariant serialCollisions == TotalCollisions(vouchers[..i], invoices)
    {
      var voucher := vouchers[i];
      assert vouchers[..i + 1] == vouchers[..i] + [voucher];
      assert voucher !in vouchers[..i];
      var more, collisions := PairsForVoucher(voucher, byNumber, bySerial, invoices);
      PairsGrow(pairs, more, vouchers[..i], voucher, invoices);
      serialCollisions := serialCollisions + collisions;
      if voucher.voucherType == Sales && |more| == 0 {
        unmatched := unmatched + [voucher];
      }
      pairs := pairs + more;
    }
    assert vouchers[..|vouchers|] == vouchers;
  }

  lemma HitsCoverMatches(hits: map<string, Pair>, more: seq<Pair>, v: Voucher, invoices: seq<Invoice>)
    requires forall id :: id in hits ==> hits[id].invoice.id == id && Justified(hits[id], v, invoices)
    requires forall inv :: Matches(v, invoices, inv) ==> inv.id in hits
    requires forall p :: p in more <==> p in hits.Values
    ensures forall p :: p in more ==> Justified(p, v, invoices)
    ensures forall inv :: Matches(v, invoices, inv) ==> exists p :: p in more && p.invoice.id == inv.id
    ensures |more| == 0 <==> !HasMatch(v, invoices)
  {
    forall inv | Matches(v, invoices, inv)
      ensures exists p :: p in more && p.invoice.id == inv.id
    {
      assert hits[inv.id] in hits.Values;
    }
    if more != [] {
      assert more[0] in more;
      assert Matches(v, invoices, more[0].invoice);
    }
  }

  // ---- linking and grouping ------------------------------------------------

  function PairEdges(pairs: seq<Pair>): set<Edge> {
    set p | p in pairs :: (VoucherNode(p.voucher.guid), InvoiceNode(p.invoice.id))
  }

  method LinkAll(pairs: seq<Pair>, carried: seq<ExistingLink>) returns (uf: Links)
    ensures fresh(uf) && uf.Valid() && uf.edges == PairEdges(pairs) + CarriedEdges(carried)
  {
    uf := new Links();
    for i := 0 to |pairs|
      invariant fresh(uf) && uf.Valid() && uf.edges == PairEdges(pairs[..i])
    {
      uf.Link(VoucherNode(pairs[i].voucher.guid), InvoiceNode(pairs[i].invoice.id));
      assert pairs[..i + 1] == pairs[..i] + [pairs[i]];
    }
    assert pairs[..|pairs|] == pairs;
    for i := 0 to |carried|
      invariant fresh(uf) && uf.Valid() && uf.edges == PairEdges(pairs) + CarriedEdges(carried[..i])
    {
      uf.Link(VoucherNode(carried[i].tallyGuid), InvoiceNode(carried[i].invoiceId));
      assert carried[..i + 1] == carried[..i] + [carried[i]];
    }
    assert carried[..|carried|] == carried;
  }

  datatype Component = Component(vouchers: map<string, int>, invoices: map<string, int>)

  ghost function GuidFibre(amounts: map<string, int>, root: map<Node, Node>, r: Node): map<string, int> {
    map g | g in amounts && RepresentativeIn(root, VoucherNode(g)) == r :: amounts[g]
  }

  ghost function IdFibre(totals: map<string, int>, root: map<Node, Node>, r: Node): map<string, int> {
    map id | id in totals && RepresentativeIn(root, InvoiceNode(id)) == r :: totals[id]
  }

  /** The components hold exactly the figures seen so far, filed under their roots. */
  ghost predicate Grouped(
      components: map<Node, Component>, root: map<Node, Node>, amounts: map<string, int>, totals: map<string, int>) {
    && components.Keys == (set g | g in amounts :: RepresentativeIn(root, VoucherNode(g)))
    && (forall id :: id in totals ==> RepresentativeIn(root, InvoiceNode(id)) in components)
    && forall r :: r in components ==>
         components[r] == Component(GuidFibre(amounts, root, r), IdFibre(totals, root, r))
  }

  function WithTotal(totals: map<string, int>, more: Option<(string, int)>): map<string, int> {
    match more case None => totals case Some(t) => totals[t.0 := t.1]
  }

  function Filed(
      components: map<Node, Component>, r: Node, guid: string, amount: int, more: Option<(string, int)>)
    : map<Node, Component>
  {
    var component := if r in components then components[r] else Component(map[], map[]);
    components[r := Component(component.vouchers[guid := amount], WithTotal(component.invoices, more))]
  }

  lemma GuidFibreStep(amounts: map<string, int>, root: map<Node, Node>, guid: string, amount: int, q: Node)
    ensures GuidFibre(amounts[guid := amount], root, q)
         == if RepresentativeIn(root, VoucherNode(guid)) == q then GuidFibre(amounts, root, q)[guid := amount]
            else GuidFibre(amounts, root, q)
  {
  }

  lemma IdFibreStep(totals: map<string, int>, root: map<Node, Node>, more: Option<(string, int)>, q: Node)
    ensures IdFibre(WithTotal(totals, more), root, q)
         == if more.Some? && RepresentativeIn(root, InvoiceNode(more.value.0)) == q
            then WithTotal(IdFibre(totals, root, q), more) else IdFibre(totals, root, q)
  {
  }

  lemma GroupedFiled(
      components: map<Node, Component>, root: map<Node, Node>, amounts: map<string, int>, totals: map<string, int>,
      r: Node, guid: string, amount: int, more: Option<(string, int)>)
    requires Grouped(components, root, amounts, totals) && r == RepresentativeIn(root, VoucherNode(guid))
    requires more.Some? ==> r == RepresentativeIn(root, InvoiceNode(more.value.0))
    ensures Grouped(Filed(components, r, guid, amount, more), root, amounts[guid := amount], WithTotal(totals, more))
  {
    var after := Filed(components, r, guid, amount, more);
    var amounts', totals' := amounts[guid := amount], WithTotal(totals, more);
    assert after.Keys == components.Keys + {r};
    assert (set g | g in amounts' :: RepresentativeIn(root, VoucherNode(g))) == components.Keys + {r};
    forall q | q in after
      ensures after[q] == Component(GuidFibre(amounts', root, q), IdFibre(totals', root, q))
    {
      GuidFibreStep(amounts, root, guid, amount, q);
      IdFibreStep(totals, root, more, q);
    }
  }

  function AmountsAfter(pairs: seq<Pair>, carried: seq<ExistingLink>): map<string, int> {
    if carried != [] then
      var last := carried[|carried| - 1];
      AmountsAfter(pairs, carried[..|carried| - 1])[last.tallyGuid := last.amount]
    else if pairs != [] then
      var last := pairs[|pairs| - 1];
      AmountsAfter(pairs[..|pairs| - 1], carried)[last.voucher.guid := last.voucher.amount]
    else map[]
  }

  function KnownTotal(invoices: seq<Invoice>, id: string): Option<(string, int)> {
    if id in Ids(invoices) then Some((id, TotalOf(invoices, id))) else None
  }

  function TotalsAfter(pairs: seq<Pair>, carried: seq<ExistingLink>, invoices: seq<Invoice>): map<string, int> {
    if carried != [] then
      var last := carried[|carried| - 1];
      WithTotal(TotalsAfter(pairs, carried[..|carried| - 1], invoices), KnownTotal(invoices, last.invoiceId))
    else if pairs != [] then
      var last := pairs[|pairs| - 1];
      TotalsAfter(pairs[..|pairs| - 1], carried, invoices)[last.invoice.id := last.invoice.total]
    else map[]
  }

  method GroupByRoot(uf: Links, pairs: seq<Pair>, carried: seq<ExistingLink>, invoices: seq<Invoice>)
    returns (components: map<Node, Component>)
    requires uf.Valid() && uf.edges == PairEdges(pairs) + CarriedEdges(carried)
    modifies uf`parent
    ensures uf.Valid()
    ensures Grouped(components, uf.root, AmountsAfter(pairs, carried), TotalsAfter(pairs, carried, invoices))
  {
    components := map[];
    for i := 0 to |pairs|
      invariant uf.Valid()
      invariant Grouped(components, uf.root, AmountsAfter(pairs[..i], []), TotalsAfter(pairs[..i], [], invoices))
    {
      var pair := pairs[i];
      assert pairs[..i + 1][..i] == pairs[..i];
      var v, n := VoucherNode(pair.voucher.guid), InvoiceNode(pair.invoice.id);
      assert pair in pairs;
      EdgeSharesRoot(uf, v, n);
      var root := uf.Find(v);
      GroupedFiled(components, uf.root, AmountsAfter(pairs[..i], []), TotalsAfter(pairs[..i], [], invoices),
                   root, pair.voucher.guid, pair.voucher.amount, Some((pair.invoice.id, pair.invoice.total)));
      components :=
        Filed(components, root, pair.voucher.guid, pair.voucher.amount, Some((pair.invoice.id, pair.invoice.total)));
    }
    assert pairs[..|pairs|] == pairs;
    for i := 0 to |carried|
      invariant uf.Valid()
      invariant
        Grouped(components, uf.root, AmountsAfter(pairs, carried[..i]), TotalsAfter(pairs, carried[..i], invoices))
    {
      var entry := carried[i];
      assert carried[..i + 1][..i] == carried[..i];
      var v, n := VoucherNode(entry.tallyGuid), InvoiceNode(entry.invoiceId);
      assert entry in carried;
      EdgeSharesRoot(uf, v, n);
      var root := uf.Find(v);
      var total := KnownTotal(invoices, entry.invoiceId);
      GroupedFiled(components, uf.root, AmountsAfter(pairs, carried[..i]), TotalsAfter(pairs, carried[..i], invoices),
                   root, entry.tallyGuid, entry.amount, total);
      components := Filed(components, root, entry.tallyGuid, entry.amount, total);
    }
    assert carried[..|carried|] == carried;
  }

  lemma EdgeSharesRoot(uf: Links, x: Node, y: Node)
    requires uf.Valid() && (x, y) in uf.edges
    ensures uf.Representative(x) == uf.Representative(y)
  {
    assert Joins(uf.edges, [x, y], x, y);
    uf.SameRepresentative(x, y);
  }

  // ---- verdicts ------------------------------------------------------------

  ghost function VerdictOf(component: Component): Verdict {
    var tally := Sum(component.vouchers.Keys, component.vouchers);
    var invoice := Sum(component.invoices.Keys, component.invoices);
    Verdict(!AgreesWithinARupee(tally, invoice), tally, invoice)
  }

  ghost function DisputedRoots(components: map<Node, Component>, roots: set<Node>): set<Node>
    requires roots <= components.Keys
  {
    set r | r in roots && VerdictOf(components[r]).disputed
  }

  lemma DisputedStep(components: map<Node, Component>, roots: set<Node>, root: Node)
    requires roots <= components.Keys && root in components && root !in roots
    ensures |DisputedRoots(components, roots + {root})|
         == |DisputedRoots(components, roots)| + if VerdictOf(components[root]).disputed then 1 else 0
  {
    assert DisputedRoots(components, roots + {root})
        == DisputedRoots(components, roots) + if VerdictOf(components[root]).disputed then {root} else {};
  }

  method JudgeOne(component: Component) returns (verdict: Verdict)
    ensures verdict == VerdictOf(component)
  {
    var tally := SumValues(component.vouchers);
    var invoice := SumValues(component.invoices);
    verdict := Verdict(!AgreesWithinARupee(tally, invoice), tally, invoice);
  }

  lemma NothingDisputed(components: map<Node, Component>)
    ensures |DisputedRoots(components, {})| == 0
  {
    assert DisputedRoots(components, {}) == {};
  }

  method Judge(components: map<Node, Component>) returns (verdicts: map<Node, Verdict>, disputedCount: nat)
    ensures verdicts.Keys == components.Keys
    ensures forall r :: r in components ==> verdicts[r] == VerdictOf(components[r])
    ensures disputedCount == |DisputedRoots(components, components.Keys)|
  {
    hide VerdictOf, DisputedRoots;
    verdicts, disputedCount := map[], 0;
    NothingDisputed(components);
    assert verdicts.Keys == {};
    var left := components.Keys;
    while left != {}
      invariant left <= components.Keys && verdicts.Keys == components.Keys - left
      invariant forall r :: r in verdicts ==> verdicts[r] == VerdictOf(components[r])
      invariant disputedCount == |DisputedRoots(components, verdicts.Keys)|
      decreases left
    {
      var root :| root in left;
      var verdict := JudgeOne(components[root]);
      DisputedStep(components, verdicts.Keys, root);
      if verdict.disputed { disputedCount := disputedCount + 1; }
      assert verdicts[root := verdict].Keys == verdicts.Keys + {root};
      verdicts := verdicts[root := verdict];
      left := left - {root};
    }
  }

  // ---- the accumulated figures are the graph's -----------------------------

  function PairGuids(pairs: seq<Pair>): set<string> { set p | p in pairs :: p.voucher.guid }

  function PairIds(pairs: seq<Pair>): set<string> { set p | p in pairs :: p.invoice.id }

  lemma {:induction false} AmountsAfterMeaning(pairs: seq<Pair>, carried: seq<ExistingLink>)
    ensures AmountsAfter(pairs, carried).Keys == PairGuids(pairs) + CarriedGuids(carried)
    ensures forall g :: g in CarriedGuids(carried) ==> AmountsAfter(pairs, carried)[g] == CarriedAmount(carried, g)
    ensures forall g :: g in PairGuids(pairs) && g !in CarriedGuids(carried) ==>
      exists p :: p in pairs && p.voucher.guid == g && AmountsAfter(pairs, carried)[g] == p.voucher.amount
    decreases |pairs| + |carried|
  {
    if carried != [] {
      var rest, last := carried[..|carried| - 1], carried[|carried| - 1];
      AmountsAfterMeaning(pairs, rest);
      assert carried == rest + [last];
      assert CarriedGuids(carried) == CarriedGuids(rest) + {last.tallyGuid};
    } else if pairs != [] {
      var rest, last := pairs[..|pairs| - 1], pairs[|pairs| - 1];
      AmountsAfterMeaning(rest, carried);
      assert pairs == rest + [last];
      assert PairGuids(pairs) == PairGuids(rest) + {last.voucher.guid};
      forall g | g in PairGuids(pairs) && g !in CarriedGuids(carried)
        ensures exists p :: p in pairs && p.voucher.guid == g && AmountsAfter(pairs, carried)[g] == p.voucher.amount
      {
        if g == last.voucher.guid {
          assert last in pairs;
        } else {
          var p :| p in rest && p.voucher.guid == g && AmountsAfter(rest, carried)[g] == p.voucher.amount;
          assert p in pairs;
        }
      }
    }
  }

  lemma {:induction false} TotalsAfterMeaning(pairs: seq<Pair>, carried: seq<ExistingLink>, invoices: seq<Invoice>)
    requires DistinctIds(invoices) && forall p :: p in pairs ==> p.invoice in invoices
    ensures TotalsAfter(pairs, carried, invoices).Keys == PairIds(pairs) + CarriedIds(carried) * Ids(invoices)
    ensures forall id :: id in TotalsAfter(pairs, carried, invoices) ==>
      TotalsAfter(pairs, carried, invoices)[id] == TotalOf(invoices, id)
    decreases |pairs| + |carried|
  {
    hide TotalOf;
    if carried != [] {
      var rest, last := carried[..|carried| - 1], carried[|carried| - 1];
      TotalsAfterMeaning(pairs, rest, invoices);
      assert carried == rest + [last];
      assert CarriedIds(carried) == CarriedIds(rest) + {last.invoiceId};
    } else if pairs != [] {
      var rest, last := pairs[..|pairs| - 1], pairs[|pairs| - 1];
      assert last in pairs;
      TotalsAfterMeaning(rest, carried, invoices);
      TotalOfMember(invoices, last.invoice);
      assert pairs == rest + [last];
      assert PairIds(pairs) == PairIds(rest) + {last.invoice.id};
    }
  }

  lemma PairsAreEdges(pairs: seq<Pair>, vouchers: seq<Voucher>, invoices: seq<Invoice>)
    requires PairsOf(pairs, vouchers, invoices)
    ensures PairEdges(pairs) == MatchEdges(vouchers, invoices)
    ensures PairGuids(pairs) == MatchedGuids(vouchers, invoices)
    ensures PairIds(pairs) == MatchedIds(vouchers, invoices)
  {
    hide Matches, HasMatch;
    forall v, inv | v in vouchers && inv in invoices && Matches(v, invoices, inv)
      ensures (VoucherNode(v.guid), InvoiceNode(inv.id)) in PairEdges(pairs)
      ensures v.guid in PairGuids(pairs) && inv.id in PairIds(pairs)
    {
      assert PairAt(pairs, v, inv.id);
    }
    forall p | p in pairs
      ensures (VoucherNode(p.voucher.guid), InvoiceNode(p.invoice.id)) in MatchEdges(vouchers, invoices)
      ensures p.voucher.guid in MatchedGuids(vouchers, invoices) && p.invoice.id in MatchedIds(vouchers, invoices)
    {
      JustifiedMatches(p, p.voucher, invoices);
      MatchesMakeHasMatch(p.voucher, p.invoice, invoices);
    }
    forall v | v in vouchers && HasMatch(v, invoices) ensures v.guid in PairGuids(pairs) {
      var inv := SomeMatch(v, invoices);
      assert PairAt(pairs, v, inv.id);
    }
  }

  lemma JustifiedMatches(p: Pair, v: Voucher, invoices: seq<Invoice>)
    requires Justified(p, v, invoices)
    ensures Matches(v, invoices, p.invoice) && p.invoice in invoices
  {
  }

  lemma MatchesMakeHasMatch(v: Voucher, inv: Invoice, invoices: seq<Invoice>)
    requires Matches(v, invoices, inv)
    ensures inv in invoices && HasMatch(v, invoices)
  {
  }

  lemma SomeMatch(v: Voucher, invoices: seq<Invoice>) returns (inv: Invoice)
    requires HasMatch(v, invoices)
    ensures inv in invoices && Matches(v, invoices, inv)
  {
    inv :| inv in invoices && Matches(v, invoices, inv);
  }

  lemma AccumulatedAmounts(
      pairs: seq<Pair>, vouchers: seq<Voucher>, invoices: seq<Invoice>, existing: seq<ExistingLink>)
    requires DistinctGuids(vouchers) && PairsOf(pairs, vouchers, invoices)
    ensures GraphOf(vouchers, invoices, existing).amounts == AmountsAfter(pairs, Carried(existing, Guids(vouchers)))
  {
    hide Matches, HasMatch, Justified;
    var carried := Carried(existing, Guids(vouchers));
    var g := GraphOf(vouchers, invoices, existing);
    PairsAreEdges(pairs, vouchers, invoices);
    AmountsAfterMeaning(pairs, carried);
    forall guid | guid in g.amounts
      ensures AmountsAfter(pairs, carried)[guid] == g.amounts[guid]
    {
      if guid in Guids(vouchers) {
        var p :| p in pairs && p.voucher.guid == guid && AmountsAfter(pairs, carried)[guid] == p.voucher.amount;
        AmountOfMember(vouchers, p.voucher);
      }
    }
  }

  lemma AccumulatedTotals(pairs: seq<Pair>, vouchers: seq<Voucher>, invoices: seq<Invoice>, existing: seq<ExistingLink>)
    requires DistinctIds(invoices) && PairsOf(pairs, vouchers, invoices)
    ensures GraphOf(vouchers, invoices, existing).totals
         == TotalsAfter(pairs, Carried(existing, Guids(vouchers)), invoices)
  {
    hide Matches, HasMatch, Justified, TotalsAfter;
    var carried := Carried(existing, Guids(vouchers));
    PairsAreEdges(pairs, vouchers, invoices);
    forall p | p in pairs ensures p.invoice in invoices { JustifiedMatches(p, p.voucher, invoices); }
    TotalsAfterMeaning(pairs, carried, invoices);
  }

  lemma AccumulatedIsGraph(
      pairs: seq<Pair>, vouchers: seq<Voucher>, invoices: seq<Invoice>, existing: seq<ExistingLink>)
    requires DistinctGuids(vouchers) && DistinctIds(invoices) && PairsOf(pairs, vouchers, invoices)
    ensures var carried := Carried(existing, Guids(vouchers));
      GraphOf(vouchers, invoices, existing)
      == Graph(PairEdges(pairs) + CarriedEdges(carried), AmountsAfter(pairs, carried),
               TotalsAfter(pairs, carried, invoices))
  {
    hide Matches, HasMatch, Justified, AmountsAfter, TotalsAfter;
    PairsAreEdges(pairs, vouchers, invoices);
    AccumulatedAmounts(pairs, vouchers, invoices, existing);
    AccumulatedTotals(pairs, vouchers, invoices, existing);
  }

  /** A component's verdict is the verdict of everything connected to its voucher. */
  lemma ComponentVerdict(uf: Links, components: map<Node, Component>, g: Graph, guid: string)
    requires uf.Valid() && uf.edges == g.edges && Grouped(components, uf.root, g.amounts, g.totals)
    requires guid in g.amounts
    ensures var r := uf.Representative(VoucherNode(guid));
      r in components && VerdictOf(components[r]) == VerdictFor(g, VoucherNode(guid))
  {
    var x := VoucherNode(guid);
    var r := uf.Representative(x);
    forall y ensures RepresentativeIn(uf.root, y) == r <==> Connected(g.edges, x, y) {
      uf.SameRepresentative(x, y);
    }
    assert GuidFibre(g.amounts, uf.root, r).Keys == ReachedGuids(g, x);
    assert IdFibre(g.totals, uf.root, r).Keys == ReachedIds(g, x);
    SumSame(ReachedGuids(g, x), GuidFibre(g.amounts, uf.root, r), g.amounts);
    SumSame(ReachedIds(g, x), IdFibre(g.totals, uf.root, r), g.totals);
  }

  // ---- classes ---------------------------------------------------------------

  ghost function Documents(g: Graph): set<Node> {
    (set guid | guid in g.amounts :: VoucherNode(guid)) + (set id | id in g.totals :: InvoiceNode(id))
  }

  /** Everything weighed that a walk over the links can reach from x. */
  ghost function ClassOf(g: Graph, x: Node): set<Node> {
    set y | y in Documents(g) && Connected(g.edges, x, y)
  }

  ghost function Classes(g: Graph): set<set<Node>> {
    set guid | guid in g.amounts :: ClassOf(g, VoucherNode(guid))
  }

  ghost function DisputedClasses(g: Graph): set<set<Node>> {
    set guid | guid in g.amounts && VerdictFor(g, VoucherNode(guid)).disputed :: ClassOf(g, VoucherNode(guid))
  }

  lemma SameClass(g: Graph, a: string, b: string)
    requires a in g.amounts && b in g.amounts
    ensures ClassOf(g, VoucherNode(a)) == ClassOf(g, VoucherNode(b)) <==>
      Connected(g.edges, VoucherNode(a), VoucherNode(b))
  {
    var x, y := VoucherNode(a), VoucherNode(b);
    ConnectedReflexive(g.edges, y);
    if Connected(g.edges, x, y) {
      ConnectedSymmetric(g.edges, x, y);
      forall z ensures Connected(g.edges, x, z) <==> Connected(g.edges, y, z) {
        if Connected(g.edges, x, z) { ConnectedTransitive(g.edges, y, x, z); }
        if Connected(g.edges, y, z) { ConnectedTransitive(g.edges, x, y, z); }
      }
    }
    if ClassOf(g, x) == ClassOf(g, y) { assert y in ClassOf(g, y); }
  }

  lemma ClassCounts(uf: Links, components: map<Node, Component>, g: Graph)
    requires uf.Valid() && uf.edges == g.edges && Grouped(components, uf.root, g.amounts, g.totals)
    ensures |Classes(g)| == |components|
    ensures |DisputedClasses(g)| == |DisputedRoots(components, components.Keys)|
  {
    var classes := RootClasses(uf, components, g);
    RootClassesInjective(uf, components, g, classes, components.Keys);
    RootClassesInjective(uf, components, g, classes, DisputedRoots(components, components.Keys));
    ClassesAreRootClasses(uf, components, g, classes);
    DisputedAreRootClasses(uf, components, g, classes);
  }

  lemma ClassesAreRootClasses(uf: Links, components: map<Node, Component>, g: Graph, classes: map<Node, set<Node>>)
    requires uf.Valid() && uf.edges == g.edges && Grouped(components, uf.root, g.amounts, g.totals)
    requires classes.Keys == components.Keys && IsClassMap(uf, g, classes)
    ensures Classes(g) == Image(components.Keys, classes)
  {
    forall r | r in components ensures classes[r] in Classes(g) {
      var guid := SomeGuid(uf, g.amounts, r);
    }
  }

  lemma DisputedAreRootClasses(uf: Links, components: map<Node, Component>, g: Graph, classes: map<Node, set<Node>>)
    requires uf.Valid() && uf.edges == g.edges && Grouped(components, uf.root, g.amounts, g.totals)
    requires classes.Keys == components.Keys && IsClassMap(uf, g, classes)
    ensures DisputedClasses(g) == Image(DisputedRoots(components, components.Keys), classes)
  {
    var disputed := DisputedRoots(components, components.Keys);
    forall c | c in DisputedClasses(g) ensures c in Image(disputed, classes) {
      var guid :| guid in g.amounts && VerdictFor(g, VoucherNode(guid)).disputed && c == ClassOf(g, VoucherNode(guid));
      ComponentVerdict(uf, components, g, guid);
      assert uf.Representative(VoucherNode(guid)) in disputed;
    }
    forall c | c in Image(disputed, classes) ensures c in DisputedClasses(g) {
      var r :| r in disputed && c == classes[r];
      var guid := SomeGuid(uf, g.amounts, r);
      ComponentVerdict(uf, components, g, guid);
    }
  }

  ghost predicate IsClassMap(uf: Links, g: Graph, classes: map<Node, set<Node>>)
    reads uf
  {
    forall guid :: guid in g.amounts ==>
      var x := VoucherNode(guid);
      uf.Representative(x) in classes && classes[uf.Representative(x)] == ClassOf(g, x)
  }

  ghost function SomeGuid(uf: Links, amounts: map<string, int>, r: Node): (guid: string)
    reads uf
    requires exists guid :: guid in amounts && uf.Representative(VoucherNode(guid)) == r
    ensures guid in amounts && uf.Representative(VoucherNode(guid)) == r
  {
    var guid :| guid in amounts && uf.Representative(VoucherNode(guid)) == r;
    guid
  }

  ghost function RootClasses(uf: Links, components: map<Node, Component>, g: Graph): (classes: map<Node, set<Node>>)
    reads uf
    requires uf.Valid() && uf.edges == g.edges && Grouped(components, uf.root, g.amounts, g.totals)
    ensures classes.Keys == components.Keys && IsClassMap(uf, g, classes)
  {
    var classes := map r | r in components :: ClassOf(g, VoucherNode(SomeGuid(uf, g.amounts, r)));
    assert forall guid :: guid in g.amounts ==> uf.Representative(VoucherNode(guid)) in components;
    assert IsClassMap(uf, g, classes) by {
      forall guid | guid in g.amounts
        ensures classes[uf.Representative(VoucherNode(guid))] == ClassOf(g, VoucherNode(guid))
      {
        var other := SomeGuid(uf, g.amounts, uf.Representative(VoucherNode(guid)));
        uf.SameRepresentative(VoucherNode(other), VoucherNode(guid));
        SameClass(g, other, guid);
      }
    }
    classes
  }

  lemma RootClassesInjective(
      uf: Links, components: map<Node, Component>, g: Graph, classes: map<Node, set<Node>>, roots: set<Node>)
    requires uf.Valid() && uf.edges == g.edges && Grouped(components, uf.root, g.amounts, g.totals)
    requires classes.Keys == components.Keys && IsClassMap(uf, g, classes) && roots <= components.Keys
    ensures |Image(roots, classes)| == |roots|
  {
    forall q, r | q in roots && r in roots && classes[q] == classes[r]
      ensures q == r
    {
      var a :| a in g.amounts && RepresentativeIn(uf.root, VoucherNode(a)) == q;
      var b :| b in g.amounts && RepresentativeIn(uf.root, VoucherNode(b)) == r;
      SameClass(g, a, b);
      uf.SameRepresentative(VoucherNode(a), VoucherNode(b));
    }
    ImageSize(roots, classes);
  }

  // ---- the match ---------------------------------------------------------------

  predicate Linked(links: seq<InvoiceLink>, v: Voucher, id: string) {
    exists l :: l in links && l.voucher == v && l.invoiceId == id
  }

  /** Exactly one link per matching voucher and invoice, each carrying its component's verdict. */
  ghost predicate LinksOf(links: seq<InvoiceLink>, vouchers: seq<Voucher>, invoices: seq<Invoice>, g: Graph) {
    && (forall l :: l in links ==>
          && l.voucher in vouchers
          && l.verdict == VerdictFor(g, VoucherNode(l.voucher.guid))
          && exists p :: Justified(p, l.voucher, invoices) && LinkFor(p, l))
    && (forall v, inv :: v in vouchers && Matches(v, invoices, inv) ==> Linked(links, v, inv.id))
    && (forall i, j :: 0 <= i < j < |links| ==>
          links[i].voucher != links[j].voucher || links[i].invoiceId != links[j].invoiceId)
  }

  function Min(a: nat, b: nat): nat { if a <= b then a else b }

  predicate LinkFor(p: Pair, l: InvoiceLink) {
    && l.voucher == p.voucher && l.invoiceId == p.invoice.id && l.how == p.how
    && l.evidence == p.evidence[..Min(300, |p.evidence|)]
  }

  method WriteLinks(uf: Links, pairs: seq<Pair>, verdicts: map<Node, Verdict>) returns (links: seq<InvoiceLink>)
    requires uf.Valid()
    modifies uf`parent
    ensures uf.Valid() && |links| == |pairs|
    ensures forall i :: 0 <= i < |pairs| ==> LinkFor(pairs[i], links[i])
    ensures forall i :: 0 <= i < |pairs| ==>
      var r := uf.Representative(VoucherNode(pairs[i].voucher.guid));
      r in verdicts ==> links[i].verdict == verdicts[r]
  {
    links := [];
    for i := 0 to |pairs|
      invariant uf.Valid() && |links| == i
      invariant forall k :: 0 <= k < i ==> LinkFor(pairs[k], links[k])
      invariant forall k :: 0 <= k < i ==>
        var r := uf.Representative(VoucherNode(pairs[k].voucher.guid));
        r in verdicts ==> links[k].verdict == verdicts[r]
    {
      var pair := pairs[i];
      var root := uf.Find(VoucherNode(pair.voucher.guid));
      var verdict :=
        if root in verdicts then verdicts[root] else Verdict(false, pair.voucher.amount, pair.invoice.total);
      var evidence := pair.evidence[..Min(300, |pair.evidence|)];
      links := links + [InvoiceLink(pair.voucher, pair.invoice.id, pair.how, evidence, verdict)];
    }
  }

  lemma LinksFollowPairs(
      pairs: seq<Pair>, links: seq<InvoiceLink>, vouchers: seq<Voucher>, invoices: seq<Invoice>, g: Graph)
    requires PairsOf(pairs, vouchers, invoices)
    requires |links| == |pairs| && forall i :: 0 <= i < |pairs| ==> LinkFor(pairs[i], links[i])
    requires forall i :: 0 <= i < |pairs| ==> links[i].verdict == VerdictFor(g, VoucherNode(pairs[i].voucher.guid))
    ensures LinksOf(links, vouchers, invoices, g)
  {
    forall l | l in links
      ensures l.voucher in vouchers && l.verdict == VerdictFor(g, VoucherNode(l.voucher.guid))
      ensures exists p :: Justified(p, l.voucher, invoices) && LinkFor(p, l)
    {
      var i :| 0 <= i < |links| && links[i] == l;
      assert LinkFor(pairs[i], links[i]) && pairs[i] in pairs;
      assert Justified(pairs[i], l.voucher, invoices);
    }
    forall v, inv | v in vouchers && Matches(v, invoices, inv)
      ensures Linked(links, v, inv.id)
    {
      assert PairAt(pairs, v, inv.id);
      var p :| p in pairs && p.voucher == v && p.invoice.id == inv.id;
      var i :| 0 <= i < |pairs| && pairs[i] == p;
      assert LinkFor(pairs[i], links[i]) && links[i] in links;
    }
    forall i, j | 0 <= i < j < |links|
      ensures links[i].voucher != links[j].voucher || links[i].invoiceId != links[j].invoiceId
    {
      assert LinkFor(pairs[i], links[i]) && LinkFor(pairs[j], links[j]);
    }
  }

  lemma PairVerdicts(
      uf: Links, components: map<Node, Component>, g: Graph, pairs: seq<Pair>, carried: seq<ExistingLink>)
    requires uf.Valid() && uf.edges == g.edges && Grouped(components, uf.root, g.amounts, g.totals)
    requires g.amounts == AmountsAfter(pairs, carried)
    ensures forall i :: 0 <= i < |pairs| ==>
      var x := VoucherNode(pairs[i].voucher.guid);
      uf.Representative(x) in components && VerdictOf(components[uf.Representative(x)]) == VerdictFor(g, x)
  {
    AmountsAfterMeaning(pairs, carried);
    forall i | 0 <= i < |pairs|
      ensures var x := VoucherNode(pairs[i].voucher.guid);
        uf.Representative(x) in components && VerdictOf(components[uf.Representative(x)]) == VerdictFor(g, x)
    {
      assert pairs[i] in pairs && pairs[i].voucher.guid in PairGuids(pairs);
      ComponentVerdict(uf, components, g, pairs[i].voucher.guid);
    }
  }

  /**
   * Ties the vouchers to the register.  GUIDs are distinct because the reader keeps only the first
   * voucher of each, and invoice ids because they are the register's primary key.
   */
  method MatchTallyVouchers(vouchers: seq<Voucher>, invoices: seq<Invoice>, existing: seq<ExistingLink>)
    returns (result: MatchResult)
    requires DistinctGuids(vouchers) && DistinctIds(invoices)
    ensures LinksOf(result.links, vouchers, invoices, GraphOf(vouchers, invoices, existing))
    ensures result.unmatched == Unmatched(vouchers, invoices)
    ensures result.serialCollisions == TotalCollisions(vouchers, invoices)
    ensures result.componentCount == |Classes(GraphOf(vouchers, invoices, existing))|
    ensures result.disputedComponentCount == |DisputedClasses(GraphOf(vouchers, invoices, existing))|
  {
    var pairs, unmatched, serialCollisions := FindPairs(vouchers, invoices);
    var carried := Carried(existing, Guids(vouchers));
    var uf := LinkAll(pairs, carried);
    var components := GroupByRoot(uf, pairs, carried, invoices);
    var verdicts, disputedCount := Judge(components);
    var links := WriteLinks(uf, pairs, verdicts);
    ghost var g := GraphOf(vouchers, invoices, existing);
    AccumulatedIsGraph(pairs, vouchers, invoices, existing);
    PairVerdicts(uf, components, g, pairs, carried);
    LinksFollowPairs(pairs, links, vouchers, invoices, g);
    ClassCounts(uf, components, g);
    result := MatchResult(links, unmatched, serialCollisions, |components|, disputedCount);
  }

  // ---- what the match promises ---------------------------------------------

  lemma {:induction false} UnmatchedMeaning(vouchers: seq<Voucher>, invoices: seq<Invoice>, v: Voucher)
    ensures v in Unmatched(vouchers, invoices) <==> v in vouchers && v.voucherType == Sales && !HasMatch(v, invoices)
  {
    if vouchers != [] {
      var rest, last := vouchers[..|vouchers| - 1], vouchers[|vouchers| - 1];
      UnmatchedMeaning(rest, invoices, v);
      assert vouchers == rest + [last];
    }
  }

  /** Every sales voucher of the file is linked or unmatched, and never both; nothing else is either. */
  lemma LinkedOrUnmatched(links: seq<InvoiceLink>, vouchers: seq<Voucher>, invoices: seq<Invoice>, g: Graph, v: Voucher)
    requires LinksOf(links, vouchers, invoices, g) && v in vouchers
    ensures v.voucherType == Sales ==>
      (v in Unmatched(vouchers, invoices) <==> !exists l :: l in links && l.voucher == v)
    ensures v.voucherType != Sales ==>
      v !in Unmatched(vouchers, invoices) && !exists l :: l in links && l.voucher == v
  {
    UnmatchedMeaning(vouchers, invoices, v);
    if inv :| inv in invoices && Matches(v, invoices, inv) {
      assert Linked(links, v, inv.id);
    }
    if l :| l in links && l.voucher == v {
      var p :| Justified(p, l.voucher, invoices) && LinkFor(p, l);
      assert Matches(v, invoices, p.invoice);
    }
  }

  /** Each register figure weighed is an end of a link whose voucher is weighed too. */
  ghost predicate Anchored(g: Graph) {
    forall id :: id in g.totals ==> exists guid :: guid in g.amounts && (VoucherNode(guid), InvoiceNode(id)) in g.edges
  }

  lemma GraphAnchored(vouchers: seq<Voucher>, invoices: seq<Invoice>, existing: seq<ExistingLink>)
    ensures Anchored(GraphOf(vouchers, invoices, existing))
  {
    var carried := Carried(existing, Guids(vouchers));
    var g := GraphOf(vouchers, invoices, existing);
    forall id | id in g.totals
      ensures exists guid :: guid in g.amounts && (VoucherNode(guid), InvoiceNode(id)) in g.edges
    {
      if id in MatchedIds(vouchers, invoices) {
        var v, inv :| v in vouchers && inv in invoices && Matches(v, invoices, inv) && inv.id == id;
        assert v.guid in g.amounts && (VoucherNode(v.guid), InvoiceNode(id)) in MatchEdges(vouchers, invoices);
      } else {
        var e :| e in carried && e.invoiceId == id;
        assert e.tallyGuid in g.amounts && (VoucherNode(e.tallyGuid), InvoiceNode(id)) in CarriedEdges(carried);
      }
    }
  }

  ghost function GuidsIn(g: Graph, class_: set<Node>): set<string> {
    set guid | guid in g.amounts && VoucherNode(guid) in class_
  }

  ghost function IdsIn(g: Graph, class_: set<Node>): set<string> {
    set id | id in g.totals && InvoiceNode(id) in class_
  }

  ghost function TallyOver(g: Graph, classes: set<set<Node>>): int {
    if classes == {} then 0
    else var c :| c in classes; Sum(GuidsIn(g, c), g.amounts) + TallyOver(g, classes - {c})
  }

  ghost function InvoiceOver(g: Graph, classes: set<set<Node>>): int {
    if classes == {} then 0
    else var c :| c in classes; Sum(IdsIn(g, c), g.totals) + InvoiceOver(g, classes - {c})
  }

  ghost predicate Disjoint(classes: set<set<Node>>) {
    forall c, d :: c in classes && d in classes && c != d ==> c !! d
  }

  ghost function GuidsAmong(g: Graph, classes: set<set<Node>>): set<string> {
    set guid | guid in g.amounts && exists c :: c in classes && VoucherNode(guid) in c
  }

  ghost function IdsAmong(g: Graph, classes: set<set<Node>>): set<string> {
    set id | id in g.totals && exists c :: c in classes && InvoiceNode(id) in c
  }

  lemma {:induction false} TallyOverIsSum(g: Graph, classes: set<set<Node>>)
    requires Disjoint(classes)
    ensures TallyOver(g, classes) == Sum(GuidsAmong(g, classes), g.amounts)
    decreases classes
  {
    if classes == {} {
      assert GuidsAmong(g, classes) == {};
    } else {
      var c :| c in classes && TallyOver(g, classes) == Sum(GuidsIn(g, c), g.amounts) + TallyOver(g, classes - {c});
      TallyOverIsSum(g, classes - {c});
      assert GuidsAmong(g, classes) == GuidsIn(g, c) + GuidsAmong(g, classes - {c});
      SumSplit(GuidsIn(g, c), GuidsAmong(g, classes - {c}), g.amounts);
    }
  }

  lemma {:induction false} InvoiceOverIsSum(g: Graph, classes: set<set<Node>>)
    requires Disjoint(classes)
    ensures InvoiceOver(g, classes) == Sum(IdsAmong(g, classes), g.totals)
    decreases classes
  {
    if classes == {} {
      assert IdsAmong(g, classes) == {};
    } else {
      var c :| c in classes && InvoiceOver(g, classes) == Sum(IdsIn(g, c), g.totals) + InvoiceOver(g, classes - {c});
      InvoiceOverIsSum(g, classes - {c});
      assert IdsAmong(g, classes) == IdsIn(g, c) + IdsAmong(g, classes - {c});
      SumSplit(IdsIn(g, c), IdsAmong(g, classes - {c}), g.totals);
    }
  }

  lemma ClassesDisjoint(g: Graph)
    ensures Disjoint(Classes(g))
  {
    forall c, d, z | c in Classes(g) && d in Classes(g) && z in c && z in d
      ensures c == d
    {
      var a :| a in g.amounts && c == ClassOf(g, VoucherNode(a));
      var b :| b in g.amounts && d == ClassOf(g, VoucherNode(b));
      ConnectedSymmetric(g.edges, VoucherNode(b), z);
      ConnectedTransitive(g.edges, VoucherNode(a), z, VoucherNode(b));
      SameClass(g, a, b);
    }
  }

  lemma ClassesCoverAmounts(g: Graph)
    ensures GuidsAmong(g, Classes(g)) == g.amounts.Keys
  {
    forall guid | guid in g.amounts ensures guid in GuidsAmong(g, Classes(g)) {
      ConnectedReflexive(g.edges, VoucherNode(guid));
      assert VoucherNode(guid) in ClassOf(g, VoucherNode(guid));
    }
  }

  lemma ClassesCoverTotals(g: Graph)
    requires Anchored(g)
    ensures IdsAmong(g, Classes(g)) == g.totals.Keys
  {
    forall id | id in g.totals ensures id in IdsAmong(g, Classes(g)) {
      var guid :| guid in g.amounts && (VoucherNode(guid), InvoiceNode(id)) in g.edges;
      assert Joins(g.edges, [VoucherNode(guid), InvoiceNode(id)], VoucherNode(guid), InvoiceNode(id));
      assert InvoiceNode(id) in ClassOf(g, VoucherNode(guid));
    }
  }

  /**
   * The components' two totals add up to the totals over every document weighed: no figure is lost or counted twice.
   */
  lemma ComponentsConserveMoney(vouchers: seq<Voucher>, invoices: seq<Invoice>, existing: seq<ExistingLink>)
    ensures var g := GraphOf(vouchers, invoices, existing);
      && TallyOver(g, Classes(g)) == Sum(g.amounts.Keys, g.amounts)
      && InvoiceOver(g, Classes(g)) == Sum(g.totals.Keys, g.totals)
  {
    var g := GraphOf(vouchers, invoices, existing);
    GraphAnchored(vouchers, invoices, existing);
    ClassesDisjoint(g);
    TallyOverIsSum(g, Classes(g));
    InvoiceOverIsSum(g, Classes(g));
    ClassesCoverAmounts(g);
    ClassesCoverTotals(g);
  }

  /** The totals a link prints are those of its class. */
  lemma VerdictWeighsItsClass(g: Graph, guid: string)
    requires guid in g.amounts
    ensures var v, c := VerdictFor(g, VoucherNode(guid)), ClassOf(g, VoucherNode(guid));
      && v.tallyTotal == Sum(GuidsIn(g, c), g.amounts) && v.invoiceTotal == Sum(IdsIn(g, c), g.totals)
      && (v.disputed <==> v.tallyTotal - v.invoiceTotal > 100 || v.invoiceTotal - v.tallyTotal > 100)
  {
    assert GuidsIn(g, ClassOf(g, VoucherNode(guid))) == ReachedGuids(g, VoucherNode(guid));
    assert IdsIn(g, ClassOf(g, VoucherNode(guid))) == ReachedIds(g, VoucherNode(guid));
  }

  // ---- two files or one -------------------------------------------------------

  /** What the register stores of a match. */
  function Stored(links: seq<InvoiceLink>): seq<ExistingLink> {
    seq(|links|, i requires 0 <= i < |links| =>
      ExistingLink(links[i].voucher.guid, links[i].invoiceId, links[i].voucher.amount))
  }

  lemma {:induction false} CarriedConcat(a: seq<ExistingLink>, b: seq<ExistingLink>, guids: set<string>)
    ensures Carried(a + b, guids) == Carried(a, guids) + Carried(b, guids)
    decreases |b|
  {
    if b == [] {
      assert a + b == a;
    } else {
      CarriedConcat(a, b[..|b| - 1], guids);
      assert (a + b)[..|a + b| - 1] == a + b[..|b| - 1];
    }
  }

  lemma {:induction false} CarriedAll(a: seq<ExistingLink>, guids: set<string>)
    requires forall e :: e in a ==> e.tallyGuid !in guids
    ensures Carried(a, guids) == a
  {
    if a != [] {
      var rest, last := a[..|a| - 1], a[|a| - 1];
      assert last in a && forall e :: e in rest ==> e in a;
      CarriedAll(rest, guids);
      assert a == rest + [last];
    }
  }

  lemma {:induction false} CarriedSame(a: seq<ExistingLink>, guids: set<string>, more: set<string>)
    requires forall e :: e in a ==> e.tallyGuid !in more
    ensures Carried(a, guids) == Carried(a, guids + more)
  {
    if a != [] {
      assert a[|a| - 1] in a;
      CarriedSame(a[..|a| - 1], guids, more);
    }
  }

  lemma {:induction false} CarriedAmountKnown(a: seq<ExistingLink>, guid: string, amount: int)
    requires exists e :: e in a && e.tallyGuid == guid
    requires forall e :: e in a && e.tallyGuid == guid ==> e.amount == amount
    ensures CarriedAmount(a, guid) == amount
  {
    var rest, last := a[..|a| - 1], a[|a| - 1];
    assert a == rest + [last];
    if last.tallyGuid != guid {
      var e :| e in a && e.tallyGuid == guid;
      assert e in rest;
      CarriedAmountKnown(rest, guid, amount);
    }
  }

  lemma {:induction false} CarriedAmountOfFirst(a: seq<ExistingLink>, b: seq<ExistingLink>, guid: string)
    requires guid !in CarriedGuids(b)
    ensures CarriedAmount(a + b, guid) == CarriedAmount(a, guid)
    decreases |b|
  {
    if b == [] {
      assert a + b == a;
    } else {
      var rest := b[..|b| - 1];
      assert b[|b| - 1] in b && b[|b| - 1].tallyGuid in CarriedGuids(b);
      assert CarriedGuids(rest) <= CarriedGuids(b);
      CarriedAmountOfFirst(a, rest, guid);
      assert (a + b)[..|a + b| - 1] == a + rest;
    }
  }

  lemma StoredMeaning(links: seq<InvoiceLink>, vouchers: seq<Voucher>, invoices: seq<Invoice>, g: Graph)
    requires LinksOf(links, vouchers, invoices, g) && DistinctGuids(vouchers)
    ensures CarriedEdges(Stored(links)) == MatchEdges(vouchers, invoices)
    ensures CarriedGuids(Stored(links)) == MatchedGuids(vouchers, invoices)
    ensures CarriedIds(Stored(links)) == MatchedIds(vouchers, invoices)
    ensures MatchedIds(vouchers, invoices) <= Ids(invoices)
    ensures forall e :: e in Stored(links) ==>
      e.tallyGuid in Guids(vouchers) && e.amount == AmountOf(vouchers, e.tallyGuid)
  {
    forall v, inv | v in vouchers && inv in invoices && Matches(v, invoices, inv)
      ensures ExistingLink(v.guid, inv.id, v.amount) in Stored(links)
    {
      assert Linked(links, v, inv.id);
      var i :| 0 <= i < |links| && links[i].voucher == v && links[i].invoiceId == inv.id;
      assert Stored(links)[i] == ExistingLink(v.guid, inv.id, v.amount);
    }
    forall e | e in Stored(links)
      ensures exists v, inv :: v in vouchers && inv in invoices && Matches(v, invoices, inv)
                               && e == ExistingLink(v.guid, inv.id, v.amount)
      ensures e.tallyGuid in Guids(vouchers) && e.amount == AmountOf(vouchers, e.tallyGuid)
    {
      var i :| 0 <= i < |links| && e == Stored(links)[i];
      assert links[i] in links;
      var p :| Justified(p, links[i].voucher, invoices) && LinkFor(p, links[i]);
      AmountOfMember(vouchers, links[i].voucher);
      assert Matches(links[i].voucher, invoices, p.invoice);
    }
  }

  /** `all` is the vouchers of both files, in any order. */
  ghost predicate Together(first: seq<Voucher>, second: seq<Voucher>, all: seq<Voucher>) {
    && DistinctGuids(first) && DistinctGuids(second) && DistinctGuids(all)
    && Guids(first) !! Guids(second)
    && forall v :: v in all <==> v in first || v in second
  }

  lemma AmountEither(first: seq<Voucher>, second: seq<Voucher>, all: seq<Voucher>, guid: string)
    requires Together(first, second, all)
    ensures guid in Guids(first) ==> AmountOf(all, guid) == AmountOf(first, guid)
    ensures guid in Guids(second) ==> AmountOf(all, guid) == AmountOf(second, guid)
  {
    if guid in Guids(first) {
      var v :| v in first && v.guid == guid;
      AmountOfMember(first, v);
      AmountOfMember(all, v);
    }
    if guid in Guids(second) {
      var v :| v in second && v.guid == guid;
      AmountOfMember(second, v);
      AmountOfMember(all, v);
    }
  }

  /** What the second import carries over: the older links, then everything the first import stored. */
  lemma IncrementalCarried(
      first: seq<Voucher>, second: seq<Voucher>, all: seq<Voucher>, stored: seq<ExistingLink>, new_: seq<ExistingLink>)
    requires Together(first, second, all) && Guids(all) == Guids(first) + Guids(second)
    requires forall e :: e in stored ==> e.tallyGuid !in Guids(first)
    requires forall e :: e in new_ ==> e.tallyGuid in Guids(first)
    ensures Carried(stored + new_, Guids(second)) == Carried(stored, Guids(all)) + new_
  {
    CarriedConcat(stored, new_, Guids(second));
    CarriedAll(new_, Guids(second));
    CarriedSame(stored, Guids(second), Guids(first));
    assert Guids(all) == Guids(second) + Guids(first);
  }

  /**
   * Reading the second file beside the first one's stored links describes the very graph both files describe
   * together.
   */
  lemma IncrementalGraph(
      first: seq<Voucher>, second: seq<Voucher>, all: seq<Voucher>, invoices: seq<Invoice>,
      stored: seq<ExistingLink>, links: seq<InvoiceLink>, g: Graph)
    requires Together(first, second, all) && DistinctIds(invoices)
    requires forall e :: e in stored ==> e.tallyGuid !in Guids(first)
    requires LinksOf(links, first, invoices, g)
    ensures GraphOf(second, invoices, stored + Stored(links)) == GraphOf(all, invoices, stored)
  {
    var old_, new_ := Carried(stored, Guids(all)), Stored(links);
    StoredMeaning(links, first, invoices, g);
    IncrementalCarried(first, second, all, stored, new_);
    IncrementalRest(first, second, all, invoices, old_, new_);
    IncrementalAmounts(first, second, all, invoices, old_, new_);
  }

  lemma IncrementalRest(
      first: seq<Voucher>, second: seq<Voucher>, all: seq<Voucher>, invoices: seq<Invoice>,
      old_: seq<ExistingLink>, new_: seq<ExistingLink>)
    requires MatchEdges(all, invoices) == MatchEdges(first, invoices) + MatchEdges(second, invoices)
    requires MatchedIds(all, invoices) == MatchedIds(first, invoices) + MatchedIds(second, invoices)
    requires CarriedEdges(new_) == MatchEdges(first, invoices)
    requires CarriedIds(new_) == MatchedIds(first, invoices) && MatchedIds(first, invoices) <= Ids(invoices)
    requires CarriedEdges(old_ + new_) == CarriedEdges(old_) + CarriedEdges(new_)
    requires CarriedIds(old_ + new_) == CarriedIds(old_) + CarriedIds(new_)
    ensures EdgesFrom(second, invoices, old_ + new_) == EdgesFrom(all, invoices, old_)
    ensures TotalsFrom(second, invoices, old_ + new_) == TotalsFrom(all, invoices, old_)
  {
    assert MatchedIds(second, invoices) + CarriedIds(old_ + new_) * Ids(invoices)
        == MatchedIds(all, invoices) + CarriedIds(old_) * Ids(invoices);
  }

  lemma IncrementalAmounts(
      first: seq<Voucher>, second: seq<Voucher>, all: seq<Voucher>, invoices: seq<Invoice>,
      old_: seq<ExistingLink>, new_: seq<ExistingLink>)
    requires Together(first, second, all) && Guids(all) == Guids(first) + Guids(second)
    requires MatchedGuids(all, invoices) == MatchedGuids(first, invoices) + MatchedGuids(second, invoices)
    requires forall e :: e in old_ ==> e.tallyGuid !in Guids(all)
    requires forall e :: e in new_ ==> e.tallyGuid in Guids(first) && e.amount == AmountOf(first, e.tallyGuid)
    requires CarriedGuids(new_) == MatchedGuids(first, invoices)
    requires CarriedGuids(old_ + new_) == CarriedGuids(old_) + CarriedGuids(new_)
    ensures AmountsFrom(second, invoices, old_ + new_) == AmountsFrom(all, invoices, old_)
  {
    var a, b := AmountsFrom(second, invoices, old_ + new_), AmountsFrom(all, invoices, old_);
    assert a.Keys == b.Keys;
    forall x | x in a ensures a[x] == b[x] {
      AmountEither(first, second, all, x);
      IncrementalAmount(old_, new_, first, x);
    }
  }

  lemma IncrementalAmount(old_: seq<ExistingLink>, new_: seq<ExistingLink>, first: seq<Voucher>, guid: string)
    requires forall e :: e in old_ ==> e.tallyGuid !in Guids(first)
    requires forall e :: e in new_ ==> e.tallyGuid in Guids(first) && e.amount == AmountOf(first, e.tallyGuid)
    ensures guid in CarriedGuids(new_) ==> CarriedAmount(old_ + new_, guid) == AmountOf(first, guid)
    ensures guid !in CarriedGuids(new_) ==> CarriedAmount(old_ + new_, guid) == CarriedAmount(old_, guid)
  {
    if guid in CarriedGuids(new_) {
      var e :| e in new_ && e.tallyGuid == guid;
      assert e in old_ + new_;
      CarriedAmountKnown(old_ + new_, guid, AmountOf(first, guid));
    } else {
      CarriedAmountOfFirst(old_, new_, guid);
    }
  }

  /** Importing two files one after the other gives the second one's links the verdicts one import of both would. */
  method ImportInTwoFiles(
      first: seq<Voucher>, second: seq<Voucher>, all: seq<Voucher>, invoices: seq<Invoice>, stored: seq<ExistingLink>)
    returns (incremental: MatchResult, batch: MatchResult)
    requires Together(first, second, all) && DistinctIds(invoices)
    requires forall e :: e in stored ==> e.tallyGuid !in Guids(first)
    ensures forall l :: l in incremental.links ==>
      exists b :: b in batch.links && b.voucher == l.voucher && b.invoiceId == l.invoiceId && b.verdict == l.verdict
    ensures forall b :: b in batch.links && b.voucher in second ==>
      exists l ::
        l in incremental.links && l.voucher == b.voucher && l.invoiceId == b.invoiceId && l.verdict == b.verdict
    ensures incremental.componentCount == batch.componentCount
    ensures incremental.disputedComponentCount == batch.disputedComponentCount
  {
    var earlier := MatchTallyVouchers(first, invoices, stored);
    incremental := MatchTallyVouchers(second, invoices, stored + Stored(earlier.links));
    batch := MatchTallyVouchers(all, invoices, stored);
    ghost var g := GraphOf(all, invoices, stored);
    IncrementalGraph(first, second, all, invoices, stored, earlier.links, GraphOf(first, invoices, stored));
    SameLinks(incremental.links, second, batch.links, all, invoices, g);
    SameLinks(batch.links, all, incremental.links, second, invoices, g);
  }

  lemma SameLinks(
      links: seq<InvoiceLink>, vouchers: seq<Voucher>, others: seq<InvoiceLink>, more: seq<Voucher>,
      invoices: seq<Invoice>, g: Graph)
    requires LinksOf(links, vouchers, invoices, g) && LinksOf(others, more, invoices, g)
    ensures forall l :: l in links && l.voucher in more ==>
      exists b :: b in others && b.voucher == l.voucher && b.invoiceId == l.invoiceId && b.verdict == l.verdict
  {
    forall l | l in links && l.voucher in more
      ensures exists b :: b in others && b.voucher == l.voucher && b.invoiceId == l.invoiceId && b.verdict == l.verdict
    {
      var p :| Justified(p, l.voucher, invoices) && LinkFor(p, l);
      assert Matches(l.voucher, invoices, p.invoice) && Linked(others, l.voucher, p.invoice.id);
    }
  }
}
