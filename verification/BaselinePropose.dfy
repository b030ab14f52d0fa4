/**
 * The opening billing position proposed from a remark (billing-baseline-propose.ts): claims are summed per
 * percentage, and each percentage has to name exactly one stage of the payment matrix.
 */
module BaselinePropose {
  import opened Text
  import opened Decimal
  import opened MbRemark
  import opened MbCompute
  import opened RemarkClaims

  // ---- reading the numbers of a claim -----------------------------------------------

  function ReadNumber(t: string): Dec
    requires IsNumber(t)
  {
    Parse(t).value
  }

  predicate Numeric(c: Claim) { IsNumber(c.percent) && IsNumber(c.quantity) }

  predicate AllNumeric(claims: seq<Claim>) { forall c :: c in claims ==> Numeric(c) }

  /** Whatever the pattern captures is a number the exact reader accepts. */
  lemma {:induction false} ClaimsAreNumbers(s: string)
    ensures AllNumeric(FindClaims(s))
    decreases |s|
  {
    hide MatchHere;
    if s != [] {
      if MatchHere(s).Some? {
        MatchIsNumeric(s);
        ClaimsAreNumbers(s[MatchHere(s).value.length..]);
      } else {
        ClaimsAreNumbers(s[1..]);
      }
    }
  }

  lemma MatchIsNumeric(s: string)
    requires MatchHere(s).Some?
    ensures Numeric(MatchHere(s).value.claim)
  {
    hide NumberLength, MiddleLength, IsNumber;
    var p := NumberLength(s);
    LongestIsNumber(s);
    LongestIsNumber(s[p + MiddleLength(s[p..]).value..]);
    var t := p + MiddleLength(s[p..]).value;
    assert s[t..][..NumberLength(s[t..])] == s[t..t + NumberLength(s[t..])];
  }

  lemma LongestIsNumber(s: string)
    requires NumberLength(s) > 0
    ensures IsNumber(s[..NumberLength(s)])
  {
    hide DigitsLength;
    var n, whole := NumberLength(s), DigitsLength(s);
    if n > whole {
      var t := s[..n];
      assert t[whole] == '.' && t[..whole] == s[..whole];
      assert t[whole + 1..] == s[whole + 1..][..n - whole - 1];
    }
  }

  /** The percentage as the exact decimal renderer spells it. */
  function PercentText(c: Claim): string
    requires Numeric(c)
  {
    Render(ReadNumber(c.percent))
  }

  // ---- one sum per percentage ----------------------------------------------------------

  /** The quantities claimed at one percentage, added in the order they are stated. */
  function SumFor(claims: seq<Claim>, text: string): Dec
    requires AllNumeric(claims)
  {
    if claims == [] then ZERO
    else
      var last := claims[|claims| - 1];
      var prior := SumFor(claims[..|claims| - 1], text);
      if PercentText(last) == text then Add(prior, Normalise(ReadNumber(last.quantity))) else prior
  }

  /** The percentages claimed, each once, in the order they first appear. */
  function FirstSeen(claims: seq<Claim>): seq<string>
    requires AllNumeric(claims)
  {
    if claims == [] then []
    else
      var seen, text := FirstSeen(claims[..|claims| - 1]), PercentText(claims[|claims| - 1]);
      if text in seen then seen else seen + [text]
  }

  lemma {:induction false} SeenMeaning(claims: seq<Claim>)
    requires AllNumeric(claims)
    ensures forall t :: t in FirstSeen(claims) <==> exists c :: c in claims && PercentText(c) == t
    ensures forall i, j :: 0 <= i < j < |FirstSeen(claims)| ==> FirstSeen(claims)[i] != FirstSeen(claims)[j]
    ensures forall t :: t !in FirstSeen(claims) ==> SumFor(claims, t) == ZERO
  {
    hide PercentText;
    if claims != [] {
      var n := |claims| - 1;
      SeenMeaning(claims[..n]);
      assert claims == claims[..n] + [claims[n]];
    }
  }

  datatype Summed = Summed(percent: string, quantity: Dec)

  lemma NothingSeen()
    ensures FirstSeen([]) == []
  {
  }

  lemma OneMoreClaim(claims: seq<Claim>, k: nat)
    requires k < |claims| && AllNumeric(claims)
    ensures var text, seen := PercentText(claims[k]), FirstSeen(claims[..k]);
      FirstSeen(claims[..k + 1]) == if text in seen then seen else seen + [text]
    ensures var text := PercentText(claims[k]);
      SumFor(claims[..k + 1], text) == Add(SumFor(claims[..k], text), Normalise(ReadNumber(claims[k].quantity)))
    ensures forall t :: t != PercentText(claims[k]) ==> SumFor(claims[..k + 1], t) == SumFor(claims[..k], t)
  {
    hide PercentText, Add, Normalise, ReadNumber;
    assert claims[..k + 1][..k] == claims[..k];
  }

  method ParseRemarkClaims(remark: string) returns (summed: seq<Summed>)
    ensures AllNumeric(FindClaims(remark)) && |summed| == |FirstSeen(FindClaims(remark))|
    ensures forall i :: 0 <= i < |summed| ==>
      var text := FirstSeen(FindClaims(remark))[i]; summed[i] == Summed(text, SumFor(FindClaims(remark), text))
  {
    hide FindClaims, IsNumber, Add, Normalise, PercentText, SumFor, FirstSeen, ReadNumber;
    ClaimsAreNumbers(remark);
    var claims := FindClaims(remark);
    var order: seq<string>, byPercent: map<string, Dec> := [], map[];
    NothingSeen();
    for k := 0 to |claims|
      invariant order == FirstSeen(claims[..k])
      invariant byPercent.Keys == set t | t in order
      invariant forall t :: t in byPercent ==> byPercent[t] == SumFor(claims[..k], t)
    {
      OneMoreClaim(claims, k);
      SeenMeaning(claims[..k]);
      var text := PercentText(claims[k]);
      var prior := if text in byPercent then byPercent[text] else ZERO;
      if text !in byPercent { order := order + [text]; }
      byPercent := byPercent[text := Add(prior, Normalise(ReadNumber(claims[k].quantity)))];
    }
    assert claims[..|claims|] == claims;
    summed := seq(|order|, i requires 0 <= i < |order| && order[i] in byPercent =>
      Summed(order[i], byPercent[order[i]]));
  }

  // ---- attribution -----------------------------------------------------------------------

  /** The stages whose percentage is spelled like this, in stage order. */
  function Matching(percents: seq<Dec>, text: string): seq<nat> {
    if percents == [] then []
    else
      var rest := Matching(percents[..|percents| - 1], text);
      if Render(percents[|percents| - 1]) == text then rest + [|percents| - 1] else rest
  }

  lemma {:induction false} MatchingMeaning(percents: seq<Dec>, text: string)
    ensures forall i :: i in Matching(percents, text) <==> 0 <= i < |percents| && Render(percents[i]) == text
    ensures forall k, l :: 0 <= k < l < |Matching(percents, text)| ==>
      Matching(percents, text)[k] < Matching(percents, text)[l]
  {
    hide Render;
    if percents != [] {
      var n := |percents| - 1;
      MatchingMeaning(percents[..n], text);
      var rest := Matching(percents[..n], text);
      assert forall k :: 0 <= k < |rest| ==> rest[k] in rest;
    }
  }

  /** Exactly one stage carries this percentage. */
  ghost predicate NamesOneStage(percents: seq<Dec>, text: string) {
    exists i :: 0 <= i < |percents| && OnlyStage(percents, text, i)
  }

  predicate OnlyStage(percents: seq<Dec>, text: string, i: nat)
    requires i < |percents|
  {
    Render(percents[i]) == text && forall j :: 0 <= j < |percents| && Render(percents[j]) == text ==> j == i
  }

  lemma SingleMatch(percents: seq<Dec>, text: string)
    ensures |Matching(percents, text)| == 1 <==> NamesOneStage(percents, text)
    ensures |Matching(percents, text)| == 1 ==>
      var i := Matching(percents, text)[0]; 0 <= i < |percents| && OnlyStage(percents, text, i)
  {
    hide Render;
    MatchingMeaning(percents, text);
    var m := Matching(percents, text);
    if |m| == 1 {
      assert m[0] in m;
      assert OnlyStage(percents, text, m[0]);
    }
    if NamesOneStage(percents, text) {
      var i :| 0 <= i < |percents| && OnlyStage(percents, text, i);
      assert i in m;
      forall k | 0 <= k < |m| ensures m[k] == i {
        assert m[k] in m && Render(percents[m[k]]) == text;
      }
      if |m| > 1 { FirstTwoDiffer(m); }
    }
  }

  lemma FirstTwoDiffer(m: seq<nat>)
    requires |m| > 1 && forall k, l :: 0 <= k < l < |m| ==> m[k] < m[l]
    ensures m[0] != m[1]
  {
  }

  /** What the claims leave on each stage: the sum stated at the stage's own percentage. */
  function StageQuantities(percents: seq<Dec>, claims: seq<Claim>): (q: seq<Dec>)
    requires AllNumeric(claims)
    ensures |q| == |percents|
  {
    seq(|percents|, i requires 0 <= i < |percents| => Add(ZERO, SumFor(claims, Render(percents[i]))))
  }

  function StageAmounts(rate: Dec, percents: seq<Dec>, quantities: seq<Dec>): (a: seq<int>)
    requires |percents| == |quantities|
    ensures |a| == |percents|
  {
    seq(|percents|, i requires 0 <= i < |percents| => StagePaise(rate, percents[i], quantities[i]))
  }

  datatype BaselineLine = BaselineLine(quantities: seq<Dec>, amount: int)

  ghost predicate Attributable(percents: seq<Dec>, claims: seq<Claim>)
    requires AllNumeric(claims)
  {
    forall c :: c in claims ==> NamesOneStage(percents, PercentText(c))
  }

  /** The four percentages in stage order: supply, installation, certificate, final bill. */
  function InStageOrder(p: Percentages): (percents: seq<Dec>)
    ensures |percents| == 4
  {
    [p.supply, p.installation, p.pac, p.finalBill]
  }

  ghost function Proposal(remark: string, p: Percentages, rate: Dec): Option<BaselineLine> {
    ClaimsAreNumbers(remark);
    var claims, percents := FindClaims(remark), InStageOrder(p);
    if !Attributable(percents, claims) then None
    else
      var q := StageQuantities(percents, claims);
      Some(BaselineLine(q, SumPaise(StageAmounts(rate, percents, q))))
  }

  /** What a stage holds once the first k percentages have been attributed. */
  ghost predicate HoldsSoFar(percents: seq<Dec>, claims: seq<Claim>, seen: seq<string>, q: seq<Dec>)
    requires AllNumeric(claims) && |q| == |percents|
  {
    forall i {:trigger q[i]} :: 0 <= i < |q| ==>
      q[i] == if Render(percents[i]) in seen then Add(ZERO, SumFor(claims, Render(percents[i]))) else ZERO
  }

  lemma {:induction false} AttributeOne(
      percents: seq<Dec>, claims: seq<Claim>, seen: seq<string>, q: seq<Dec>, text: string, m: nat)
    requires AllNumeric(claims) && |q| == |percents| && m < |percents|
    requires HoldsSoFar(percents, claims, seen, q) && OnlyStage(percents, text, m) && text !in seen
    ensures HoldsSoFar(percents, claims, seen + [text], q[m := Add(q[m], SumFor(claims, text))])
  {
    hide Render, Add, SumFor;
    var after := q[m := Add(q[m], SumFor(claims, text))];
    forall i | 0 <= i < |q|
      ensures after[i] ==
        if Render(percents[i]) in seen + [text] then Add(ZERO, SumFor(claims, Render(percents[i]))) else ZERO
    {
      assert q[i] == q[i];
    }
  }

  method ProposeBaselineLine(remark: string, p: Percentages, rate: Dec) returns (line: Option<BaselineLine>)
    ensures line == Proposal(remark, p, rate)
  {
    hide FindClaims, Render, Add, FirstSeen, SumFor, StagePaise, Matching;
    ClaimsAreNumbers(remark);
    ghost var claims, seen := FindClaims(remark), FirstSeen(FindClaims(remark));
    SeenMeaning(claims);
    var percents := InStageOrder(p);
    var summed := ParseRemarkClaims(remark);
    var quantities := [ZERO, ZERO, ZERO, ZERO];
    for k := 0 to |summed|
      invariant |quantities| == 4 && HoldsSoFar(percents, claims, seen[..k], quantities)
      invariant forall j :: 0 <= j < k ==> NamesOneStage(percents, seen[j])
    {
      var matching := Matching(percents, summed[k].percent);
      SingleMatch(percents, summed[k].percent);
      if |matching| != 1 {
        NotAttributable(percents, claims, seen, k);
        return None;
      }
      AttributeOne(percents, claims, seen[..k], quantities, seen[k], matching[0]);
      assert seen[..k + 1] == seen[..k] + [seen[k]];
      quantities := quantities[matching[0] := Add(quantities[matching[0]], summed[k].quantity)];
    }
    assert seen[..|seen|] == seen;
    AllAttributed(percents, claims, seen, quantities);
    var stages :=
      [StageQuantity(Supply, p.supply, quantities[0]), StageQuantity(Installation, p.installation, quantities[1]),
       StageQuantity(Pac, p.pac, quantities[2]), StageQuantity(FinalBill, p.finalBill, quantities[3])];
    var perStage, total := ComputeStageAmounts(rate, stages);
    assert perStage == StageAmounts(rate, percents, quantities);
    line := Some(BaselineLine(quantities, total));
  }

  lemma {:induction false} NotAttributable(percents: seq<Dec>, claims: seq<Claim>, seen: seq<string>, k: nat)
    requires AllNumeric(claims) && seen == FirstSeen(claims) && k < |seen| && !NamesOneStage(percents, seen[k])
    ensures !Attributable(percents, claims)
  {
    hide NamesOneStage, PercentText;
    SeenMeaning(claims);
    assert seen[k] in seen;
  }

  lemma {:induction false} AllAttributed(percents: seq<Dec>, claims: seq<Claim>, seen: seq<string>, q: seq<Dec>)
    requires AllNumeric(claims) && seen == FirstSeen(claims)
    requires |q| == |percents| && HoldsSoFar(percents, claims, seen, q)
    requires forall j :: 0 <= j < |seen| ==> NamesOneStage(percents, seen[j])
    ensures Attributable(percents, claims) && q == StageQuantities(percents, claims)
  {
    hide NamesOneStage, PercentText, SumFor, FirstSeen, HoldsSoFar;
    SeenMeaning(claims);
    forall c | c in claims ensures NamesOneStage(percents, PercentText(c)) {
      assert PercentText(c) in seen;
    }
    forall i | 0 <= i < |q| ensures q[i] == StageQuantities(percents, claims)[i] {
      StageHolds(percents, claims, seen, q, i);
    }
  }

  lemma {:induction false} StageHolds(percents: seq<Dec>, claims: seq<Claim>, seen: seq<string>, q: seq<Dec>, i: nat)
    requires AllNumeric(claims) && seen == FirstSeen(claims)
    requires |q| == |percents| && HoldsSoFar(percents, claims, seen, q)
    requires i < |q|
    ensures q[i] == Add(ZERO, SumFor(claims, Render(percents[i])))
  {
    hide Render, SumFor, PercentText, FirstSeen, Add;
    SeenMeaning(claims);
    ZeroPlusZero();
  }

  lemma ZeroPlusZero()
    ensures Add(ZERO, ZERO) == ZERO
  {
  }

  // ---- the round trip ---------------------------------------------------------------------

  lemma ReadRendered(d: Dec)
    requires d.units >= 0
    ensures IsNumber(Render(d)) && ReadNumber(Render(d)) == Normalise(d) && Render(Normalise(d)) == Render(d)
    ensures Val(Normalise(Normalise(d))) == Val(d)
  {
    RenderIsNumber(d);
    ParseFormat(Normalise(d));
    NormaliseCanonical(d);
    NormaliseCanonical(Normalise(d));
    RenderInjective(Normalise(d), d);
  }

  /** The quantities of the printed fragments whose percentage is a given number. */
  ghost function PrintedAt(ps: seq<Printed>, percent: real): real {
    if ps == [] then 0.0
    else
      var rest := PrintedAt(ps[1..], percent);
      if Val(ps[0].percent) == percent then Val(ps[0].quantity) + rest else rest
  }

  lemma {:induction false} PrintedAtSplit(a: seq<Printed>, b: seq<Printed>, percent: real)
    ensures PrintedAt(a + b, percent) == PrintedAt(a, percent) + PrintedAt(b, percent)
  {
    if a == [] {
      assert a + b == b;
    } else {
      assert (a + b)[1..] == a[1..] + b;
      PrintedAtSplit(a[1..], b, percent);
    }
  }

  lemma {:induction false} ClaimsForSplit(a: seq<Printed>, b: seq<Printed>)
    ensures ClaimsFor(a + b) == ClaimsFor(a) + ClaimsFor(b)
  {
    if a == [] {
      assert a + b == b;
    } else {
      assert (a + b)[1..] == a[1..] + b;
      ClaimsForSplit(a[1..], b);
    }
  }

  lemma {:induction false} ClaimsForElements(ps: seq<Printed>)
    requires forall p :: p in ps ==> Spellable(p)
    ensures |ClaimsFor(ps)| == |ps| && forall i :: 0 <= i < |ps| ==> ClaimsFor(ps)[i] == ClaimFor(ps[i])
    ensures AllNumeric(ClaimsFor(ps))
  {
    hide IsNumber, Render;
    if ps != [] {
      assert forall p :: p in ps[1..] ==> p in ps;
      ClaimsForElements(ps[1..]);
      assert ps[0] in ps;
      RenderIsNumber(ps[0].percent);
      RenderIsNumber(ps[0].quantity);
      assert forall c :: c in ClaimsFor(ps) ==> c == ClaimFor(ps[0]) || c in ClaimsFor(ps[1..]);
    }
  }

  lemma {:induction false} SumOfPrinted(ps: seq<Printed>, percent: Dec)
    requires forall p :: p in ps ==> Spellable(p)
    ensures AllNumeric(ClaimsFor(ps))
    ensures Val(SumFor(ClaimsFor(ps), Render(percent))) == PrintedAt(ps, Val(percent))
  {
    hide Render, Add, Val, IsNumber;
    ClaimsForElements(ps);
    if ps == [] {
      ValZero();
    } else {
      var init, last := ps[..|ps| - 1], ps[|ps| - 1];
      assert ps == init + [last] && last in ps;
      assert forall p :: p in init ==> p in ps;
      SumOfPrinted(init, percent);
      ClaimsForSplit(init, [last]);
      PrintedAtSplit(init, [last], Val(percent));
      LastPrinted(init, last, percent);
      assert ClaimsFor(ps)[..|ps| - 1] == ClaimsFor(init);
    }
  }

  lemma LastPrinted(init: seq<Printed>, last: Printed, percent: Dec)
    requires Spellable(last) && AllNumeric(ClaimsFor(init))
    ensures Numeric(ClaimFor(last)) && ClaimsFor([last]) == [ClaimFor(last)]
    ensures PercentText(ClaimFor(last)) == Render(percent) <==> Val(last.percent) == Val(percent)
    ensures PrintedAt([last], Val(percent)) == if Val(last.percent) == Val(percent) then Val(last.quantity) else 0.0
    ensures Val(Add(SumFor(ClaimsFor(init), Render(percent)), Normalise(ReadNumber(ClaimFor(last).quantity))))
         == Val(SumFor(ClaimsFor(init), Render(percent))) + Val(last.quantity)
  {
    hide Render, Add, Val, IsNumber, SumFor;
    ReadRendered(last.percent);
    ReadRendered(last.quantity);
    RenderInjective(last.percent, percent);
    AddVal(SumFor(ClaimsFor(init), Render(percent)), Normalise(ReadNumber(ClaimFor(last).quantity)));
    assert ClaimsFor([last][1..]) == [];
    assert PrintedAt([last][1..], Val(percent)) == 0.0;
  }

  /** Whether a stage appears in the remark at all. */
  predicate IsPrinted(l: StageLine) { IsPositive(l.delta) || (IsPositive(l.percent) && IsPositive(l.prior)) }

  /** What has been billed of a stage by the end of this book, as far as the remark states it. */
  function Cumulative(l: StageLine): Dec { Add(if IsPositive(l.percent) then l.prior else ZERO, l.delta) }

  ghost predicate SamePercent(a: StageLine, b: StageLine) { Val(a.percent) == Val(b.percent) }

  lemma {:induction false} OnlyOneContributes(lines: seq<StageLine>, k: nat, percent: real)
    requires k < |lines| && NoNegatives(lines) && Val(lines[k].percent) == percent
    requires forall i :: 0 <= i < |lines| && i != k && IsPrinted(lines[i]) ==> Val(lines[i].percent) != percent
    ensures PrintedAt(PrepaidOf(lines), percent) + PrintedAt(NowOf(lines), percent) == Val(Cumulative(lines[k]))
  {
    hide Val, Add;
    var rest := lines[1..];
    assert lines[0] in lines && forall l :: l in rest ==> l in lines;
    if k == 0 {
      assert forall i :: 0 <= i < |rest| ==> rest[i] == lines[i + 1];
      NoneContributes(rest, percent);
      CumulativeVal(lines[0]);
    } else {
      assert rest[k - 1] == lines[k];
      assert forall i :: 0 <= i < |rest| && i != k - 1 && IsPrinted(rest[i]) ==> rest[i] == lines[i + 1] && i + 1 != k;
      OnlyOneContributes(rest, k - 1, percent);
    }
  }

  lemma {:induction false} NoneContributes(lines: seq<StageLine>, percent: real)
    requires forall i :: 0 <= i < |lines| && IsPrinted(lines[i]) ==> Val(lines[i].percent) != percent
    ensures PrintedAt(PrepaidOf(lines), percent) == 0.0 && PrintedAt(NowOf(lines), percent) == 0.0
  {
    hide Val;
    if lines != [] {
      assert forall i :: 0 <= i < |lines[1..]| ==> lines[1..][i] == lines[i + 1];
      NoneContributes(lines[1..], percent);
    }
  }

  lemma CumulativeVal(l: StageLine)
    requires l.percent.units >= 0 && l.prior.units >= 0 && l.delta.units >= 0
    ensures Val(Cumulative(l))
         == (if IsPositive(l.percent) && IsPositive(l.prior) then Val(l.prior) else 0.0)
          + (if IsPositive(l.delta) then Val(l.delta) else 0.0)
  {
    hide Val, Add;
    ValZero();
    SignVal(l.prior);
    SignVal(l.delta);
    AddVal(if IsPositive(l.percent) then l.prior else ZERO, l.delta);
  }

  /** The four stages of an item in contractual order, each at its own percentage. */
  predicate IsLedger(lines: seq<StageLine>, p: Percentages) {
    && |lines| == 4 && NoNegatives(lines)
    && lines[0].stage == Supply && lines[0].percent == p.supply
    && lines[1].stage == Installation && lines[1].percent == p.installation
    && lines[2].stage == Pac && lines[2].percent == p.pac
    && lines[3].stage == FinalBill && lines[3].percent == p.finalBill
  }

  /** What the four cumulative quantities of a ledger come to, each at its own stage's percentage. */
  function LedgerAmount(rate: Dec, p: Percentages, lines: seq<StageLine>): int
    requires |lines| == 4
  {
    StagePaise(rate, p.supply, Cumulative(lines[0])) + StagePaise(rate, p.installation, Cumulative(lines[1]))
    + StagePaise(rate, p.pac, Cumulative(lines[2])) + StagePaise(rate, p.finalBill, Cumulative(lines[3]))
  }

  /** Some stage the remark prints shares its percentage with another stage. */
  ghost predicate Ambiguous(lines: seq<StageLine>) {
    exists i, j ::
      0 <= i < |lines| && 0 <= j < |lines| && i != j && IsPrinted(lines[i]) && SamePercent(lines[i], lines[j])
  }

  lemma PrintedNames(lines: seq<StageLine>, p: Percentages, i: nat)
    requires IsLedger(lines, p) && i < 4
    ensures NamesOneStage(InStageOrder(p), Render(lines[i].percent))
        <==> forall j :: 0 <= j < 4 && j != i ==> !SamePercent(lines[i], lines[j])
  {
    hide Render, Val;
    var percents := InStageOrder(p);
    forall j | 0 <= j < 4 ensures Render(percents[j]) == Render(lines[i].percent) <==> SamePercent(lines[i], lines[j]) {
      RenderInjective(percents[j], lines[i].percent);
    }
    if forall j :: 0 <= j < 4 && j != i ==> !SamePercent(lines[i], lines[j]) {
      assert OnlyStage(percents, Render(lines[i].percent), i);
    }
  }

  ghost predicate States(ps: seq<Printed>, percent: Dec) { exists q :: q in ps && q.percent == percent }

  ghost predicate Prints(lines: seq<StageLine>, percent: Dec) {
    exists i :: 0 <= i < |lines| && IsPrinted(lines[i]) && lines[i].percent == percent
  }

  /** The percentages the fragments state are those of the printed stages. */
  lemma {:induction false} StatedArePrinted(lines: seq<StageLine>, percent: Dec)
    ensures States(PrepaidOf(lines) + NowOf(lines), percent) <==> Prints(lines, percent)
  {
    hide States, Prints;
    if lines == [] {
      NothingStated(percent);
      assert PrepaidOf(lines) + NowOf(lines) == [];
    } else {
      StatedArePrinted(lines[1..], percent);
      StatesFirst(lines, percent);
      PrintsFirst(lines, percent);
    }
  }

  lemma NothingStated(percent: Dec)
    ensures !States([], percent) && !Prints([], percent)
  {
  }

  lemma StatesFirst(lines: seq<StageLine>, percent: Dec)
    requires lines != []
    ensures States(PrepaidOf(lines) + NowOf(lines), percent)
        <==> || (IsPrinted(lines[0]) && lines[0].percent == percent)
             || States(PrepaidOf(lines[1..]) + NowOf(lines[1..]), percent)
  {
    var l, prepaid, now := lines[0], PrepaidOf(lines[1..]), NowOf(lines[1..]);
    if IsPrinted(l) && l.percent == percent {
      var q := if IsPositive(l.delta) then Printed(l.percent, l.delta) else Printed(l.percent, l.prior);
      assert q in PrepaidOf(lines) + NowOf(lines);
    }
    if States(prepaid + now, percent) {
      var q: Printed :| q in prepaid + now && q.percent == percent;
      assert q in PrepaidOf(lines) + NowOf(lines);
    }
  }

  lemma PrintsFirst(lines: seq<StageLine>, percent: Dec)
    requires lines != []
    ensures Prints(lines, percent) <==>
      (IsPrinted(lines[0]) && lines[0].percent == percent) || Prints(lines[1..], percent)
  {
    assert forall i :: 0 <= i < |lines[1..]| ==> lines[1..][i] == lines[i + 1];
    assert forall i :: 0 < i < |lines| ==> lines[i] == lines[1..][i - 1];
  }

  /** The proposal declines exactly when a printed stage shares its percentage with another stage. */
  lemma {:induction false} DeclinedWhenAmbiguous(lines: seq<StageLine>, p: Percentages)
    requires IsLedger(lines, p)
    ensures forall q :: q in PrepaidOf(lines) + NowOf(lines) ==> Spellable(q)
    ensures var claims := ClaimsFor(PrepaidOf(lines) + NowOf(lines));
      AllNumeric(claims) && (Attributable(InStageOrder(p), claims) <==> !Ambiguous(lines))
  {
    hide NamesOneStage, SamePercent, Render, PercentText, IsNumber;
    PrintedSpellable(lines);
    var ps, percents := PrepaidOf(lines) + NowOf(lines), InStageOrder(p);
    var claims := ClaimsFor(ps);
    ClaimsForElements(ps);
    if Ambiguous(lines) {
      var i, j :|
        0 <= i < |lines| && 0 <= j < |lines| && i != j && IsPrinted(lines[i]) && SamePercent(lines[i], lines[j]);
      PrintedNames(lines, p, i);
      AmbiguousStated(lines, p, i);
    } else {
      forall c | c in claims ensures NamesOneStage(percents, PercentText(c)) {
        ClaimComesFromLine(lines, p, c);
      }
    }
  }

  lemma {:induction false} AmbiguousStated(lines: seq<StageLine>, p: Percentages, i: nat)
    requires IsLedger(lines, p) && i < 4 && IsPrinted(lines[i])
    ensures forall q :: q in PrepaidOf(lines) + NowOf(lines) ==> Spellable(q)
    ensures var claims := ClaimsFor(PrepaidOf(lines) + NowOf(lines));
      AllNumeric(claims) && exists c :: c in claims && PercentText(c) == Render(lines[i].percent)
  {
    hide Render, IsNumber, ReadNumber;
    PrintedSpellable(lines);
    var ps := PrepaidOf(lines) + NowOf(lines);
    ClaimsForElements(ps);
    StatedArePrinted(lines, lines[i].percent);
    var q: Printed :| q in ps && q.percent == lines[i].percent;
    var k :| 0 <= k < |ps| && ps[k] == q;
    assert lines[i] in lines;
    ReadRendered(q.percent);
    var c := ClaimsFor(ps)[k];
    assert c == ClaimFor(q) && c in ClaimsFor(ps);
    assert PercentText(c) == Render(lines[i].percent);
  }

  lemma ClaimComesFromLine(lines: seq<StageLine>, p: Percentages, c: Claim)
    requires IsLedger(lines, p) && !Ambiguous(lines) && c in ClaimsFor(PrepaidOf(lines) + NowOf(lines))
    ensures Numeric(c) && NamesOneStage(InStageOrder(p), PercentText(c))
  {
    hide Render, IsNumber, ReadNumber, NamesOneStage, SamePercent;
    PrintedSpellable(lines);
    var ps := PrepaidOf(lines) + NowOf(lines);
    ClaimsForElements(ps);
    var k :| 0 <= k < |ps| && ClaimsFor(ps)[k] == c;
    assert ps[k] in ps;
    ReadRendered(ps[k].percent);
    assert States(ps, ps[k].percent);
    StatedArePrinted(lines, ps[k].percent);
    var i :| 0 <= i < |lines| && IsPrinted(lines[i]) && lines[i].percent == ps[k].percent;
    PrintedNames(lines, p, i);
  }

  /** Equal quantities price alike, however they are spelled. */
  lemma SameQuantitySamePrice(rate: Dec, percent: Dec, a: Dec, b: Dec)
    requires Val(a) == Val(b)
    ensures StagePaise(rate, percent, a) == StagePaise(rate, percent, b)
  {
    hide Val, StageProduct, RoundScaled;
    StageProductVal(rate, percent, a);
    StageProductVal(rate, percent, b);
    RoundMonotone(StageProduct(rate, percent, a), StageProduct(rate, percent, b), 2);
    RoundMonotone(StageProduct(rate, percent, b), StageProduct(rate, percent, a), 2);
  }

  function Cumulatives(lines: seq<StageLine>): (q: seq<Dec>)
    ensures |q| == |lines|
  {
    seq(|lines|, i requires 0 <= i < |lines| => Cumulative(lines[i]))
  }

  lemma {:induction false} StageRecovered(lines: seq<StageLine>, p: Percentages, i: nat)
    requires IsLedger(lines, p) && !Ambiguous(lines) && i < 4
    ensures forall q :: q in PrepaidOf(lines) + NowOf(lines) ==> Spellable(q)
    ensures var claims := ClaimsFor(PrepaidOf(lines) + NowOf(lines));
      AllNumeric(claims) && Val(StageQuantities(InStageOrder(p), claims)[i]) == Val(Cumulative(lines[i]))
  {
    hide Render, Val, IsNumber, Add, SumFor, Cumulative, PrintedAt, ClaimsFor, IsPrinted;
    PrintedSpellable(lines);
    var percent := lines[i].percent;
    var ps := PrepaidOf(lines) + NowOf(lines);
    ClaimsForElements(ps);
    SumOfPrinted(ps, percent);
    PrintedAtSplit(PrepaidOf(lines), NowOf(lines), Val(percent));
    assert forall j :: 0 <= j < |lines| && j != i && IsPrinted(lines[j]) ==> !SamePercent(lines[j], lines[i]);
    OnlyOneContributes(lines, i, Val(percent));
    AddVal(ZERO, SumFor(ClaimsFor(ps), Render(percent)));
    ValZero();
  }

  lemma {:induction false} AmountsRecovered(rate: Dec, percents: seq<Dec>, a: seq<Dec>, b: seq<Dec>)
    requires |percents| == |a| == |b| && forall i {:trigger a[i]} :: 0 <= i < |a| ==> Val(a[i]) == Val(b[i])
    ensures StageAmounts(rate, percents, a) == StageAmounts(rate, percents, b)
  {
    hide Val, StagePaise;
    forall i | 0 <= i < |a| ensures StageAmounts(rate, percents, a)[i] == StageAmounts(rate, percents, b)[i] {
      SameQuantitySamePrice(rate, percents[i], a[i], b[i]);
    }
  }

  /**
   * Printing a ledger and reading the remark back: refused exactly when a printed stage shares its percentage
   * with another stage; otherwise every stage's cumulative quantity is recovered and priced as it would be.
   */
  lemma {:induction false} RemarkRoundTrip(
      given: seq<StageLine>, p: Percentages, unit_: string, rate: Dec, remark: string)
    requires ComputeRemark(given, unit_, None) == Some(remark) && IsLedger(InRenderOrder(given), p) && '%' !in unit_
    ensures var lines, proposal := InRenderOrder(given), Proposal(remark, p, rate);
      && (proposal == None <==> Ambiguous(lines))
      && (proposal.Some? ==>
            && |proposal.value.quantities| == 4
            && (forall i :: 0 <= i < 4 ==> Val(proposal.value.quantities[i]) == Val(Cumulative(lines[i])))
            && proposal.value.amount == LedgerAmount(rate, p, lines))
  {
    hide Val, FindClaims, Ambiguous, Attributable, StagePaise, Cumulative, OrderedRemark, InRenderOrder;
    hide StageQuantities, IsNumber;
    var lines, percents := InRenderOrder(given), InStageOrder(p);
    RemarkIsRead(lines, unit_);
    ClaimsForSplit(PrepaidOf(lines), NowOf(lines));
    DeclinedWhenAmbiguous(lines, p);
    if !Ambiguous(lines) {
      var q := StageQuantities(percents, FindClaims(remark));
      forall i | 0 <= i < 4 ensures Val(q[i]) == Val(Cumulatives(lines)[i]) {
        StageRecovered(lines, p, i);
      }
      AmountsRecovered(rate, percents, q, Cumulatives(lines));
      AmountsAdd(rate, p, lines);
    }
  }

  lemma AmountsAdd(rate: Dec, p: Percentages, lines: seq<StageLine>)
    requires IsLedger(lines, p)
    ensures SumPaise(StageAmounts(rate, InStageOrder(p), Cumulatives(lines))) == LedgerAmount(rate, p, lines)
  {
    hide StagePaise, Cumulative;
    SumFour(StageAmounts(rate, InStageOrder(p), Cumulatives(lines)));
  }

  /** Where the percentage is positive, what is recovered is the prior quantity plus this book's. */
  lemma PriorPlusDelta(l: StageLine)
    requires IsPositive(l.percent)
    ensures Val(Cumulative(l)) == Val(l.prior) + Val(l.delta)
  {
    AddVal(l.prior, l.delta);
  }
}
