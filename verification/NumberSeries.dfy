/** Document number templates (number-series.ts): what is accepted, what is printed, and why numbers never repeat. */
module NumberSeries {
  import opened Text

  datatype DocumentType =
    | DeliveryChallan | IssueChallan | TaxInvoice | BudgetaryQuotation | CreditNote | StandaloneChallan

  datatype TokenName = WORK | PREFIX | DIV | FY | FY2 | YYYY | YY | SEQ

  /** The values a template may draw on. */
  datatype Tokens = Tokens(
    work: Option<string>, prefix: Option<string>, divisionCode: Option<string>,
    financialYear: Option<string>, documentDate: Option<string>, sequence: nat)

  datatype TemplateError =
    | Blank | Malformed | UnknownToken(name: string) | NotAvailable(token: TokenName) | BadWidth | NoSequence | NoScope

  datatype Rendered = Number(text: string) | Missing(token: string)

  // ---- tokens in a template ----------------------------------------------

  datatype Piece = Literal(c: char) | Token(body: string)

  /** How far text runs without a brace. */
  function BodyRun(s: string): (n: nat)
    ensures n <= |s| && (n < |s| ==> s[n] in {'{', '}'})
    ensures forall i :: 0 <= i < n ==> s[i] !in {'{', '}'}
  {
    if s == [] || s[0] in {'{', '}'} then 0 else 1 + BodyRun(s[1..])
  }

  /** A template as literal characters and braced tokens of one to twenty characters. */
  function Pieces(s: string): seq<Piece>
    decreases |s|
  {
    if s == [] then []
    else if s[0] != '{' then [Literal(s[0])] + Pieces(s[1..])
    else
      var n := BodyRun(s[1..]);
      if 1 <= n <= 20 && n + 1 < |s| && s[n + 1] == '}' then [Token(s[1..n + 1])] + Pieces(s[n + 2..])
      else [Literal('{')] + Pieces(s[1..])
  }

  datatype TokenBody = TokenBody(name: string, width: Option<string>)

  function SplitToken(body: string): TokenBody {
    var colon := ColonAt(body);
    if colon == |body| then TokenBody(body, None) else TokenBody(body[..colon], Some(body[colon + 1..]))
  }

  function ColonAt(s: string): (n: nat)
    ensures n <= |s|
  {
    if s == [] || s[0] == ':' then 0 else 1 + ColonAt(s[1..])
  }

  // ---- rendering -----------------------------------------------------------

  /** A division code less one trailing zero. */
  function DivisionToken(code: string): string {
    if |code| > 1 && code[|code| - 1] == '0' then code[..|code| - 1] else code
  }

  /** String.prototype.slice on non-negative bounds. */
  function Slice(s: string, from: nat, to: nat): string
    requires from <= to
  {
    var end := if to <= |s| then to else |s|;
    if from <= end then s[from..end] else ""
  }

  function Present(value: Option<string>): Option<string> {
    if value == Some("") then None else value
  }

  function MapSlice(value: Option<string>, from: nat, to: nat): Option<string>
    requires from <= to
  {
    match Present(value) case None => None case Some(s) => Some(Slice(s, from, to))
  }

  /** The padding a width asks for; a stored template's widths are digit runs. */
  function Padding(width: Option<string>): nat {
    match width
    case None => 1
    case Some(w) => if w == "" then 1 else if AllDigits(w) then TextNat(w) else 0
  }

  /** The token a name spells, if it is one of the eight. */
  function Known(name: string): Option<TokenName> {
    match name
    case "WORK" => Some(WORK)
    case "PREFIX" => Some(PREFIX)
    case "DIV" => Some(DIV)
    case "FY" => Some(FY)
    case "FY2" => Some(FY2)
    case "YYYY" => Some(YYYY)
    case "YY" => Some(YY)
    case "SEQ" => Some(SEQ)
    case _ => None
  }

  function NamedText(name: TokenName, width: Option<string>, t: Tokens): Option<string> {
    match name
    case SEQ => Some(PadStart(NatText(t.sequence), Padding(width)))
    case WORK => Present(t.work)
    case PREFIX => Present(t.prefix)
    case DIV => (match Present(t.divisionCode) case None => None case Some(code) => Some(DivisionToken(code)))
    case FY => Present(t.financialYear)
    case FY2 => MapSlice(t.financialYear, 2, 4)
    case YYYY => MapSlice(t.documentDate, 0, 4)
    case YY => MapSlice(t.documentDate, 2, 4)
  }

  function NameIn(body: string): Option<TokenName> { Known(SplitToken(body).name) }

  function TokenText(body: string, t: Tokens): Option<string> {
    match NameIn(body)
    case None => None
    case Some(name) => NamedText(name, SplitToken(body).width, t)
  }

  function PieceText(p: Piece, t: Tokens): Option<string> {
    match p case Literal(c) => Some([c]) case Token(body) => TokenText(body, t)
  }

  function RenderPieces(pieces: seq<Piece>, t: Tokens): Rendered {
    if pieces == [] then Number("")
    else
      match PieceText(pieces[0], t)
      case None => Missing(if pieces[0].Token? then pieces[0].body else "")
      case Some(text) =>
        match RenderPieces(pieces[1..], t)
        case Missing(token) => Missing(token)
        case Number(rest) => Number(text + rest)
  }

  function Render(template: string, t: Tokens): Rendered { RenderPieces(Pieces(template), t) }

  // ---- what may be stored ----------------------------------------------------

  function Allowed(d: DocumentType): set<TokenName> {
    match d
    case DeliveryChallan => {WORK, PREFIX, SEQ, YYYY, YY}
    case IssueChallan => {WORK, PREFIX, SEQ, YYYY, YY}
    case TaxInvoice => {PREFIX, DIV, FY, FY2, YYYY, YY, SEQ}
    case BudgetaryQuotation => {SEQ, YYYY, YY}
    case CreditNote => {PREFIX, DIV, FY, FY2, YYYY, YY, SEQ}
    case StandaloneChallan => {PREFIX, FY, FY2, YYYY, YY, SEQ}
  }

  /** The tokens that widen a template to its counter's scope; an accepted template uses one of them. */
  function Scope(d: DocumentType): set<TokenName> {
    match d
    case DeliveryChallan => {WORK, PREFIX}
    case IssueChallan => {WORK, PREFIX}
    case TaxInvoice => {FY, FY2}
    case BudgetaryQuotation => {}
    case CreditNote => {FY, FY2}
    case StandaloneChallan => {FY, FY2, PREFIX}
  }

  predicate GoodWidth(width: Option<string>) {
    width.Some? ==> 1 <= |width.value| <= 2 && AllDigits(width.value) && 1 <= TextNat(width.value) <= 12
  }

  function CheckToken(body: string, d: DocumentType): Option<TemplateError> {
    match NameIn(body)
    case None => Some(UnknownToken(SplitToken(body).name))
    case Some(name) =>
      if name !in Allowed(d) then Some(NotAvailable(name))
      else if name == SEQ && !GoodWidth(SplitToken(body).width) then Some(BadWidth)
      else None
  }

  /** Every piece of a storable template: no stray brace, and only good tokens. */
  predicate GoodPiece(p: Piece, d: DocumentType) {
    match p
    case Literal(c) => c !in {'{', '}'}
    case Token(body) => CheckToken(body, d) == None
  }

  predicate Uses(pieces: seq<Piece>, name: TokenName) {
    exists p :: p in pieces && p.Token? && NameIn(p.body) == Some(name)
  }

  /** What assertValidTemplate demands of a template. */
  predicate Accepted(template: string, d: DocumentType) {
    var pieces := Pieces(Trim(template));
    && Trim(template) != ""
    && (forall p :: p in pieces ==> GoodPiece(p, d))
    && Uses(pieces, SEQ)
    && InScope(pieces, d)
  }

  predicate InScope(pieces: seq<Piece>, d: DocumentType) {
    Scope(d) == {} || exists name :: name in Scope(d) && Uses(pieces, name)
  }

  predicate HasStrayBrace(pieces: seq<Piece>) {
    exists p :: p in pieces && p.Literal? && p.c in {'{', '}'}
  }

  /** The first token that may not be stored, and why. */
  function FirstBadToken(pieces: seq<Piece>, d: DocumentType): Option<TemplateError> {
    if pieces == [] then None
    else
      var bad := if pieces[0].Token? then CheckToken(pieces[0].body, d) else None;
      if bad.Some? then bad else FirstBadToken(pieces[1..], d)
  }

  /** The reason a template is refused, in the order the checks run. */
  function Refusal(template: string, d: DocumentType): Option<TemplateError> {
    var pieces := Pieces(Trim(template));
    if Trim(template) == "" then Some(Blank)
    else if HasStrayBrace(pieces) then Some(Malformed)
    else if FirstBadToken(pieces, d).Some? then FirstBadToken(pieces, d)
    else if !Uses(pieces, SEQ) then Some(NoSequence)
    else if !InScope(pieces, d) then Some(NoScope)
    else None
  }

  lemma {:induction false} NoBadToken(pieces: seq<Piece>, d: DocumentType)
    ensures FirstBadToken(pieces, d) == None && !HasStrayBrace(pieces) <==> forall p :: p in pieces ==> GoodPiece(p, d)
  {
    if pieces != [] {
      var first, rest := pieces[0], pieces[1..];
      NoBadToken(rest, d);
      assert [first] + rest == pieces;
      if forall p :: p in pieces ==> GoodPiece(p, d) {
        assert first in pieces && GoodPiece(first, d);
        assert forall p :: p in rest ==> p in pieces;
      }
      if FirstBadToken(pieces, d) == None && !HasStrayBrace(pieces) {
        assert GoodPiece(first, d);
      }
    }
  }

  /** A template is refused exactly when it breaks one of the four rules. */
  lemma RefusedUnlessAccepted(template: string, d: DocumentType)
    ensures Refusal(template, d) == None <==> Accepted(template, d)
  {
    NoBadToken(Pieces(Trim(template)), d);
  }

  method AssertValidTemplate(template: string, d: DocumentType) returns (refusal: Option<TemplateError>)
    ensures refusal == Refusal(template, d)
  {
    var trimmed := Trim(template);
    if |trimmed| == 0 { return Some(Blank); }
    var pieces := Pieces(trimmed);
    if HasStrayBrace(pieces) { return Some(Malformed); }
    var usesSequence, used, bad := CheckTokens(pieces, d);
    if bad.Some? { return bad; }
    if !usesSequence { return Some(NoSequence); }
    if Scope(d) != {} && forall name :: name in Scope(d) ==> name !in used { return Some(NoScope); }
    return None;
  }

  method CheckTokens(pieces: seq<Piece>, d: DocumentType)
    returns (usesSequence: bool, used: set<TokenName>, bad: Option<TemplateError>)
    ensures bad == FirstBadToken(pieces, d)
    ensures bad == None ==> (usesSequence <==> SEQ in used) && forall name :: name in used <==> Uses(pieces, name)
  {
    usesSequence, used := false, {};
    for i := 0 to |pieces|
      invariant FirstBadToken(pieces[i..], d) == FirstBadToken(pieces, d)
      invariant usesSequence <==> SEQ in used
      invariant forall name :: name in used <==> Uses(pieces[..i], name)
    {
      assert pieces[..i + 1] == pieces[..i] + [pieces[i]];
      assert pieces[i..][1..] == pieces[i + 1..];
      if pieces[i].Token? {
        bad := CheckToken(pieces[i].body, d);
        if bad.Some? { return; }
        var name := NameIn(pieces[i].body).value;
        used := used + {name};
        if name == SEQ { usesSequence := true; }
      }
    }
    assert pieces[..|pieces|] == pieces;
    bad := None;
  }

  // ---- numbers never repeat ----------------------------------------------------

  function Texts(pieces: seq<Piece>, t: Tokens): seq<string>
    requires forall p :: p in pieces ==> PieceText(p, t).Some?
  {
    seq(|pieces|, i requires 0 <= i < |pieces| => PieceText(pieces[i], t).value)
  }

  function Concat(parts: seq<string>): string {
    if parts == [] then "" else parts[0] + Concat(parts[1..])
  }

  /** A number is the concatenation of its pieces' texts, and none of them may be missing. */
  lemma {:induction false} RenderedIsConcat(pieces: seq<Piece>, t: Tokens)
    ensures RenderPieces(pieces, t).Number? <==> forall p :: p in pieces ==> PieceText(p, t).Some?
    ensures RenderPieces(pieces, t).Number? ==> RenderPieces(pieces, t).text == Concat(Texts(pieces, t))
  {
    if pieces != [] {
      RenderedIsConcat(pieces[1..], t);
      assert pieces == [pieces[0]] + pieces[1..];
      if RenderPieces(pieces, t).Number? {
        assert Texts(pieces, t)[1..] == Texts(pieces[1..], t);
      }
    }
  }

  lemma {:induction false} ConcatLength(p: seq<string>, q: seq<string>)
    requires |p| == |q| && forall i :: 0 <= i < |p| ==> |p[i]| <= |q[i]|
    ensures |Concat(p)| <= |Concat(q)|
  {
    if p != [] { ConcatLength(p[1..], q[1..]); }
  }

  /** Parts that never shrink and print alike are the same parts. */
  lemma {:induction false} ConcatAligned(p: seq<string>, q: seq<string>)
    requires |p| == |q| && (forall i :: 0 <= i < |p| ==> |p[i]| <= |q[i]|) && Concat(p) == Concat(q)
    ensures p == q
  {
    if p != [] {
      ConcatLength(p[1..], q[1..]);
      assert |p[0]| == |q[0]|;
      assert Concat(p)[..|p[0]|] == p[0] && Concat(q)[..|q[0]|] == q[0];
      assert Concat(p)[|p[0]|..] == Concat(p[1..]) && Concat(q)[|q[0]|..] == Concat(q[1..]);
      ConcatAligned(p[1..], q[1..]);
    }
  }

  predicate SameLength(a: Option<string>, b: Option<string>) {
    a.Some? && b.Some? ==> |a.value| == |b.value|
  }

  /** Every token but the counter takes up the same room in both documents. */
  predicate SameShape(a: Tokens, b: Tokens) {
    forall name :: name != SEQ ==> SameLength(NamedText(name, None, a), NamedText(name, None, b))
  }

  lemma PaddedNumeralMonotone(m: nat, n: nat, width: nat)
    requires m <= n
    ensures |PadStart(NatText(m), width)| <= |PadStart(NatText(n), width)|
  {
    NatTextLengthMonotone(m, n);
  }

  lemma PaddedNumeralInjective(m: nat, n: nat, width: nat)
    requires PadStart(NatText(m), width) == PadStart(NatText(n), width)
    ensures m == n
  {
    TextNatOfNatText(m);
    TextNatOfNatText(n);
    PadStartValue(NatText(m), width);
    PadStartValue(NatText(n), width);
  }

  lemma PieceGrows(p: Piece, a: Tokens, b: Tokens)
    requires SameShape(a, b) && a.sequence <= b.sequence
    requires PieceText(p, a).Some? && PieceText(p, b).Some?
    ensures |PieceText(p, a).value| <= |PieceText(p, b).value|
  {
    if p.Token? {
      var name, width := NameIn(p.body).value, SplitToken(p.body).width;
      if name == SEQ {
        PaddedNumeralMonotone(a.sequence, b.sequence, Padding(width));
      } else {
        assert SameLength(NamedText(name, None, a), NamedText(name, None, b));
      }
    }
  }

  /** Two documents of one shape that print one number agree on the text of every piece. */
  lemma SameNumberSamePieces(pieces: seq<Piece>, a: Tokens, b: Tokens)
    requires SameShape(a, b)
    requires RenderPieces(pieces, a).Number? && RenderPieces(pieces, a) == RenderPieces(pieces, b)
    ensures forall p :: p in pieces ==> PieceText(p, a) == PieceText(p, b)
  {
    RenderedIsConcat(pieces, a);
    RenderedIsConcat(pieces, b);
    var x, y := Texts(pieces, a), Texts(pieces, b);
    if a.sequence <= b.sequence {
      forall i | 0 <= i < |pieces| ensures |x[i]| <= |y[i]| { PieceGrows(pieces[i], a, b); }
      ConcatAligned(x, y);
    } else {
      forall i | 0 <= i < |pieces| ensures |y[i]| <= |x[i]| { PieceGrows(pieces[i], b, a); }
      ConcatAligned(y, x);
    }
    forall p | p in pieces ensures PieceText(p, a) == PieceText(p, b) {
      var i :| 0 <= i < |pieces| && pieces[i] == p;
      assert x[i] == y[i];
    }
  }

  /** Under an accepted template two documents of one shape never share a number unless they share the counter. */
  lemma CounterDecides(template: string, d: DocumentType, a: Tokens, b: Tokens)
    requires Accepted(template, d) && SameShape(a, b)
    requires Render(Trim(template), a).Number? && Render(Trim(template), a) == Render(Trim(template), b)
    ensures a.sequence == b.sequence
  {
    hide RenderPieces, Pieces, TextNat, PadStart;
    var pieces := Pieces(Trim(template));
    SameNumberSamePieces(pieces, a, b);
    var p :| p in pieces && p.Token? && NameIn(p.body) == Some(SEQ);
    assert PieceText(p, a) == PieceText(p, b);
    PaddedNumeralInjective(a.sequence, b.sequence, Padding(SplitToken(p.body).width));
  }

  /** With every other token fixed, a new counter value is a new number. */
  lemma InjectiveInSequence(template: string, d: DocumentType, t: Tokens, other: nat)
    requires Accepted(template, d) && other != t.sequence
    requires Render(Trim(template), t).Number?
    ensures Render(Trim(template), t) != Render(Trim(template), t.(sequence := other))
  {
    var u := t.(sequence := other);
    assert forall name :: name != SEQ ==> NamedText(name, None, t) == NamedText(name, None, u);
    assert SameShape(t, u);
    if Render(Trim(template), t) == Render(Trim(template), u) { CounterDecides(template, d, t, u); }
  }

  // ---- across financial years ------------------------------------------------

  /** '2026-27' for the year opening in 2026. */
  function FinancialYearLabel(start: nat): string {
    NatText(start) + "-" + PadStart(NatText((start + 1) % 100), 2)
  }

  lemma FinancialYearShape(start: nat)
    requires 1000 <= start <= 9999
    ensures |FinancialYearLabel(start)| == 7
    ensures FinancialYearLabel(start)[2..4] == [DigitChar(start / 10 % 10), DigitChar(start % 10)]
  {
    assert NatText(start) == NatText(start / 10) + [DigitChar(start % 10)];
    assert NatText(start / 10) == NatText(start / 100) + [DigitChar(start / 10 % 10)];
    assert NatText(start / 100) == NatText(start / 1000) + [DigitChar(start / 100 % 10)];
    assert |NatText(start / 1000)| == 1;
    NatTextDigits((start + 1) % 100);
    assert |PadStart(NatText((start + 1) % 100), 2)| == 2;
  }

  lemma LastTwoDigits(n: nat)
    ensures n % 100 == 10 * (n / 10 % 10) + n % 10
  {
  }

  lemma SameLastDigits(x: nat, y: nat)
    requires 1000 <= x <= 9999 && 1000 <= y <= 9999
    requires |FinancialYearLabel(x)| >= 4 && |FinancialYearLabel(y)| >= 4
    requires FinancialYearLabel(x)[2..4] == FinancialYearLabel(y)[2..4]
    ensures x % 100 == y % 100
  {
    FinancialYearShape(x);
    FinancialYearShape(y);
    var u, v := FinancialYearLabel(x)[2..4], FinancialYearLabel(y)[2..4];
    assert u[0] == DigitChar(x / 10 % 10) && v[0] == DigitChar(y / 10 % 10);
    assert u[1] == DigitChar(x % 10) && v[1] == DigitChar(y % 10);
    LastTwoDigits(x);
    LastTwoDigits(y);
  }

  /** Prefix, division, work and date print at one length in both documents. */
  predicate FixedRoom(a: Tokens, b: Tokens) {
    && SameLength(NamedText(PREFIX, None, a), NamedText(PREFIX, None, b))
    && SameLength(NamedText(DIV, None, a), NamedText(DIV, None, b))
    && SameLength(NamedText(WORK, None, a), NamedText(WORK, None, b))
    && (Present(a.documentDate).Some? ==> |a.documentDate.value| >= 4)
    && (Present(b.documentDate).Some? ==> |b.documentDate.value| >= 4)
  }

  /**
   * A tax invoice or credit note number fixes both the counter and the last two digits of the year
   * the financial year opens in, whatever widths its {SEQ:n} tokens ask for.
   */
  lemma InjectiveAcrossYears(template: string, d: DocumentType, a: Tokens, b: Tokens, x: nat, y: nat)
    requires d == TaxInvoice || d == CreditNote
    requires Accepted(template, d) && FixedRoom(a, b) && 1000 <= x <= 9999 && 1000 <= y <= 9999
    requires a.financialYear == Some(FinancialYearLabel(x)) && b.financialYear == Some(FinancialYearLabel(y))
    requires Render(Trim(template), a).Number? && Render(Trim(template), a) == Render(Trim(template), b)
    ensures a.sequence == b.sequence && x % 100 == y % 100
  {
    hide FinancialYearLabel, RenderPieces, Pieces, Trim, SameShape, FixedRoom, GoodPiece, Uses;
    FinancialYearShape(x);
    FinancialYearShape(y);
    FixedRoomIsShape(a, b);
    CounterDecides(template, d, a, b);
    SameNumberSamePieces(Pieces(Trim(template)), a, b);
    SameYearDigits(Pieces(Trim(template)), d, a, b);
    SameLastDigits(x, y);
  }

  lemma FixedRoomIsShape(a: Tokens, b: Tokens)
    requires FixedRoom(a, b)
    requires a.financialYear.Some? && |a.financialYear.value| == 7
    requires b.financialYear.Some? && |b.financialYear.value| == 7
    ensures SameShape(a, b)
  {
  }

  lemma SameYearDigits(pieces: seq<Piece>, d: DocumentType, a: Tokens, b: Tokens)
    requires (d == TaxInvoice || d == CreditNote) && InScope(pieces, d)
    requires forall p :: p in pieces ==> PieceText(p, a) == PieceText(p, b)
    requires a.financialYear.Some? && |a.financialYear.value| == 7
    requires b.financialYear.Some? && |b.financialYear.value| == 7
    ensures a.financialYear.value[2..4] == b.financialYear.value[2..4]
  {
    hide SplitToken, Known, PadStart, NatText;
    var name :| name in Scope(d) && Uses(pieces, name);
    var p :| p in pieces && p.Token? && NameIn(p.body) == Some(name);
    assert PieceText(p, a) == PieceText(p, b);
  }

  lemma {:induction false} BodyRunIs(body: string, rest: string)
    requires forall i :: 0 <= i < |body| ==> body[i] !in {'{', '}'}
    requires rest != [] && rest[0] in {'{', '}'}
    ensures BodyRun(body + rest) == |body|
  {
    if body == [] {
      assert body + rest == rest;
    } else {
      assert (body + rest)[1..] == body[1..] + rest;
      BodyRunIs(body[1..], rest);
    }
  }

  lemma PiecesToken(body: string, rest: string)
    requires 1 <= |body| <= 20 && forall i :: 0 <= i < |body| ==> body[i] !in {'{', '}'}
    ensures Pieces("{" + body + "}" + rest) == [Token(body)] + Pieces(rest)
  {
    var s := "{" + body + "}" + rest;
    assert s[1..] == body + ("}" + rest);
    BodyRunIs(body, "}" + rest);
    assert s[1..|body| + 1] == body && s[|body| + 2..] == rest;
  }

  /** P{DIV}{FY2}{SEQ:3}, the series the module's header gives as its example. */
  function OwnersTemplate(): string { ['P'] + (Braced("DIV") + (Braced("FY2") + (Braced("SEQ:3") + ""))) }

  /** The fixed lengths are needed: a shorter division code lets another year and counter print the same number. */
  lemma DivisionLengthMatters()
    ensures var a := Tokens(None, None, Some("100"), Some("2026-27"), None, 1);
      var b := Tokens(None, None, Some("1"), Some("2002-03"), None, 6001);
      && Accepted(OwnersTemplate(), TaxInvoice)
      && Render(OwnersTemplate(), a) == Number("P1026001") && Render(OwnersTemplate(), b) == Number("P1026001")
  {
    hide RenderPieces, GoodPiece, Uses, InScope, OwnersTemplate, Pieces, Trim;
    OwnersPieces();
    DivisionExampleAccepted(Pieces(OwnersTemplate()));
    DivisionExamplePrints(Pieces(OwnersTemplate()));
  }

  lemma OwnersPieces()
    ensures Pieces(OwnersTemplate()) == [Literal('P'), Token("DIV"), Token("FY2"), Token("SEQ:3")]
    ensures Trim(OwnersTemplate()) == OwnersTemplate() != ""
  {
    hide Pieces, Trim, Braced;
    ThreeTokens('P', "DIV", "FY2", "SEQ:3");
    OwnersEnds();
    TrimTight(OwnersTemplate());
  }

  lemma OwnersEnds()
    ensures var t := OwnersTemplate(); t != [] && t[0] == 'P' && t[|t| - 1] == '}'
  {
  }

  predicate IsBody(s: string) {
    1 <= |s| <= 20 && forall i :: 0 <= i < |s| ==> s[i] !in {'{', '}'}
  }

  function Braced(body: string): string { "{" + body + "}" }

  lemma ThreeTokens(c: char, x: string, y: string, z: string)
    requires c != '{' && IsBody(x) && IsBody(y) && IsBody(z)
    ensures Pieces([c] + (Braced(x) + (Braced(y) + (Braced(z) + "")))) == [Literal(c), Token(x), Token(y), Token(z)]
  {
    var s := Braced(x) + (Braced(y) + (Braced(z) + ""));
    PiecesToken(z, "");
    PiecesToken(y, Braced(z) + "");
    PiecesToken(x, Braced(y) + (Braced(z) + ""));
    assert ([c] + s)[1..] == s;
  }

  lemma DivisionExampleTokens()
    ensures SplitToken("DIV") == TokenBody("DIV", None) && NameIn("DIV") == Some(DIV)
    ensures SplitToken("FY2") == TokenBody("FY2", None) && NameIn("FY2") == Some(FY2)
    ensures SplitToken("SEQ:3") == TokenBody("SEQ", Some("3")) && NameIn("SEQ:3") == Some(SEQ)
  {
    assert ColonAt("SEQ:3") == 3 by {
      assert "SEQ:3"[1..] == "EQ:3" && "EQ:3"[1..] == "Q:3" && "Q:3"[1..] == ":3";
    }
    assert ColonAt("DIV") == 3 by { assert "DIV"[1..] == "IV" && "IV"[1..] == "V" && "V"[1..] == ""; }
    assert ColonAt("FY2") == 3 by { assert "FY2"[1..] == "Y2" && "Y2"[1..] == "2" && "2"[1..] == ""; }
  }

  lemma DivisionExampleAccepted(pieces: seq<Piece>)
    requires pieces == [Literal('P'), Token("DIV"), Token("FY2"), Token("SEQ:3")]
    ensures (forall p :: p in pieces ==> GoodPiece(p, TaxInvoice)) && Uses(pieces, SEQ) && InScope(pieces, TaxInvoice)
  {
    DivisionExampleTokens();
    assert pieces[3] in pieces && pieces[2] in pieces;
    assert Uses(pieces, FY2) && FY2 in Scope(TaxInvoice);
  }

  lemma DivisionExamplePrints(pieces: seq<Piece>)
    requires pieces == [Literal('P'), Token("DIV"), Token("FY2"), Token("SEQ:3")]
    ensures RenderPieces(pieces, Tokens(None, None, Some("100"), Some("2026-27"), None, 1)) == Number("P1026001")
    ensures RenderPieces(pieces, Tokens(None, None, Some("1"), Some("2002-03"), None, 6001)) == Number("P1026001")
  {
    hide SplitToken, RenderPieces, Pieces, NamedText;
    DivisionExampleTokens();
    var a := Tokens(None, None, Some("100"), Some("2026-27"), None, 1);
    var b := Tokens(None, None, Some("1"), Some("2002-03"), None, 6001);
    DivisionExampleTexts(a, b);
    RenderFour(pieces, a, "P", "10", "26", "001");
    RenderFour(pieces, b, "P", "1", "02", "6001");
  }

  lemma DivisionExampleTexts(a: Tokens, b: Tokens)
    requires a == Tokens(None, None, Some("100"), Some("2026-27"), None, 1)
    requires b == Tokens(None, None, Some("1"), Some("2002-03"), None, 6001)
    ensures NamedText(DIV, None, a) == Some("10") && NamedText(DIV, None, b) == Some("1")
    ensures NamedText(FY2, None, a) == Some("26") && NamedText(FY2, None, b) == Some("02")
    ensures NamedText(SEQ, Some("3"), a) == Some("001") && NamedText(SEQ, Some("3"), b) == Some("6001")
  {
    assert NatText(6001) == "6001" by { assert NatText(600) == "600"; }
    assert "100"[..2] == "10" && "2026-27"[2..4] == "26" && "2002-03"[2..4] == "02" && Zeros(2) + "1" == "001";
  }

  lemma RenderFour(pieces: seq<Piece>, t: Tokens, w: string, x: string, y: string, z: string)
    requires |pieces| == 4
    requires PieceText(pieces[0], t) == Some(w) && PieceText(pieces[1], t) == Some(x)
    requires PieceText(pieces[2], t) == Some(y) && PieceText(pieces[3], t) == Some(z)
    ensures RenderPieces(pieces, t) == Number(w + (x + (y + (z + ""))))
  {
    assert pieces[1..][1..] == pieces[2..] && pieces[2..][1..] == pieces[3..] && pieces[3..][1..] == [];
    assert RenderPieces(pieces[3..], t) == Number(z + "");
    assert RenderPieces(pieces[2..], t) == Number(y + (z + ""));
    assert RenderPieces(pieces[1..], t) == Number(x + (y + (z + "")));
  }

  // ---- divisions of different lengths ------------------------------------------------------------

  /** What the owner's series prints for a division, a financial year and a counter. */
  function OwnersNumber(code: string, year: nat, n: nat): Rendered {
    Render(OwnersTemplate(), Tokens(None, None, Some(code), Some(FinancialYearLabel(year)), None, n))
  }

  predicate IsYear(year: nat) { 1000 <= year <= 9999 }

  function YearDigits(year: nat): string { [DigitChar(year / 10 % 10), DigitChar(year % 10)] }

  function Counter(n: nat): string { PadStart(NatText(n), 3) }

  lemma OwnersPrints(code: string, year: nat, n: nat)
    requires code != "" && IsYear(year)
    ensures OwnersNumber(code, year, n) == Number("P" + (DivisionToken(code) + (YearDigits(year) + (Counter(n) + ""))))
  {
    hide RenderPieces, OwnersTemplate, Pieces, Trim, FinancialYearLabel, PadStart, SplitToken;
    var t := Tokens(None, None, Some(code), Some(FinancialYearLabel(year)), None, n);
    OwnersPieces();
    DivisionExampleTokens();
    FinancialYearShape(year);
    assert Padding(Some("3")) == 3 by { WidthThree(); }
    RenderFour(Pieces(OwnersTemplate()), t, "P", DivisionToken(code), YearDigits(year), Counter(n));
  }

  lemma WidthThree()
    ensures Padding(Some("3")) == 3
  {
    assert "3"[..0] == [];
  }

  /** A counter's text of four digits or more starts with none of its padding. */
  lemma CounterText(n: nat)
    ensures AllDigits(Counter(n)) && |Counter(n)| >= 3 && TextNat(Counter(n)) == n
    ensures |Counter(n)| > 3 ==> Counter(n)[0] != '0'
  {
    TextNatOfNatText(n);
    NatTextDigits(n);
    PadStartValue(NatText(n), 3);
    if n == 0 { assert |NatText(n)| == 1; }
  }

  lemma {:induction false} NumeralOf(s: string)
    requires AllDigits(s) && s != [] && s[0] != '0'
    ensures TextNat(s) > 0 && NatText(TextNat(s)) == s
    decreases |s|
  {
    var init, last := s[..|s| - 1], s[|s| - 1];
    assert s == init + [last];
    if init == [] {
      assert TextNat(init) == 0;
    } else {
      NumeralOf(init);
    }
  }

  /** The counter that prints these digits. */
  lemma CounterOf(s: string)
    requires AllDigits(s) && |s| >= 3 && s[0] != '0'
    ensures Counter(TextNat(s)) == s
  {
    NumeralOf(s);
  }

  lemma SplitAfter(a: string, b: string, x: string, y: string)
    requires |a| <= |b|
    ensures a + x == b + y <==> a <= b && x == b[|a|..] + y
  {
    if a + x == b + y {
      assert a == (a + x)[..|a|] && b[..|a|] == (b + y)[..|a|];
      assert x == (a + x)[|a|..] && b[|a|..] + y == (b + y)[|a|..];
    }
    if a <= b && x == b[|a|..] + y {
      assert b == a + b[|a|..];
      assert b + y == a + (b[|a|..] + y);
    }
  }

  /** What the shorter division must print behind its code: the rest of the longer one's number. */
  function Remainder(c: string, d: string, y: nat, n: nat): string
    requires |DivisionToken(c)| <= |DivisionToken(d)|
  {
    DivisionToken(d)[|DivisionToken(c)|..] + (YearDigits(y) + Counter(n))
  }

  /** Two divisions print one number exactly when one code begins with the other and what follows is the same. */
  lemma SameNumberExactlyWhen(c: string, x: nat, m: nat, d: string, y: nat, n: nat)
    requires c != "" && d != "" && IsYear(x) && IsYear(y) && |DivisionToken(c)| <= |DivisionToken(d)|
    ensures OwnersNumber(c, x, m) == OwnersNumber(d, y, n) <==>
      DivisionToken(c) <= DivisionToken(d) && YearDigits(x) + Counter(m) == Remainder(c, d, y, n)
  {
    hide OwnersNumber, DivisionToken, YearDigits, Counter;
    OwnersPrints(c, x, m);
    OwnersPrints(d, y, n);
    var a, b := YearDigits(x) + Counter(m), YearDigits(y) + Counter(n);
    assert YearDigits(x) + (Counter(m) + "") == a && YearDigits(y) + (Counter(n) + "") == b;
    SplitAfter("P", "P", DivisionToken(c) + a, DivisionToken(d) + b);
    assert "P"[1..] + (DivisionToken(d) + b) == DivisionToken(d) + b;
    SplitAfter(DivisionToken(c), DivisionToken(d), a, b);
  }

  predicate Collide(c: string, x: nat, m: nat, d: string, y: nat, n: nat) {
    IsYear(x) && IsYear(y) && x % 100 != y % 100 && OwnersNumber(c, x, m) == OwnersNumber(d, y, n)
  }

  /** The longer code begins with the shorter, and what it has more could begin a year and a counter. */
  predicate MayCollide(c: string, d: string)
    requires |c| < |d|
  {
    c <= d && (|d| - |c| <= 2 || d[|c| + 2] != '0')
  }

  /**
   * In the owner's series, divisions whose codes print at different lengths can share a number in different years
   * exactly when the longer code begins with the shorter and the third digit it has more, if any, is not zero.
   */
  lemma DivisionsCollideExactlyWhen(c: string, d: string)
    requires c != "" && AllDigits(d) && |DivisionToken(c)| < |DivisionToken(d)|
    ensures (exists x, m, y, n :: Collide(c, x, m, d, y, n)) <==> MayCollide(DivisionToken(c), DivisionToken(d))
  {
    hide Collide, MayCollide, DivisionToken;
    assert d != "" by { NoTokenOfNothing(); }
    forall x, m, y, n | Collide(c, x, m, d, y, n) ensures MayCollide(DivisionToken(c), DivisionToken(d)) {
      CollidingCodes(c, x, m, d, y, n);
    }
    if MayCollide(DivisionToken(c), DivisionToken(d)) {
      var x, m, y, n := CollidingNumbers(c, d);
    }
  }

  lemma NoTokenOfNothing()
    ensures DivisionToken("") == ""
  {
  }

  lemma CollidingCodes(c: string, x: nat, m: nat, d: string, y: nat, n: nat)
    requires c != "" && d != "" && |DivisionToken(c)| < |DivisionToken(d)| && Collide(c, x, m, d, y, n)
    ensures MayCollide(DivisionToken(c), DivisionToken(d))
  {
    hide OwnersNumber, DivisionToken, Counter;
    var short, long := DivisionToken(c), DivisionToken(d);
    SameNumberExactlyWhen(c, x, m, d, y, n);
    CounterText(m);
    CounterText(n);
    var left, right := YearDigits(x) + Counter(m), Remainder(c, d, y, n);
    assert |left| == 2 + |Counter(m)| && |right| == |long| - |short| + 2 + |Counter(n)|;
    assert left[2] == Counter(m)[0];
    assert |long| - |short| > 2 ==> right[2] == long[|short| + 2];
  }

  /** A year for the longer division that leaves the shorter one a counter without a leading zero, in another year. */
  function OtherYear(more: string): nat
    requires more != []
  {
    if |more| == 1 then 2001 else if more[..2] == "11" then 2012 else 2011
  }

  lemma CollidingNumbers(c: string, d: string) returns (x: nat, m: nat, y: nat, n: nat)
    requires c != "" && AllDigits(d) && |DivisionToken(c)| < |DivisionToken(d)|
    requires MayCollide(DivisionToken(c), DivisionToken(d))
    ensures Collide(c, x, m, d, y, n)
  {
    hide OwnersNumber;
    var more := DivisionToken(d)[|DivisionToken(c)|..];
    y, n := OtherYear(more), 0;
    var rest := more + (YearDigits(y) + Counter(n));
    CounterText(n);
    RestStarts(more, y, rest);
    x := 2000 + 10 * DigitValue(rest[0]) + DigitValue(rest[1]);
    m := TextNat(rest[2..]);
    CounterOf(rest[2..]);
    YearOf(x, rest[0], rest[1]);
    assert YearDigits(x) + Counter(m) == rest by { assert rest == [rest[0], rest[1]] + rest[2..]; }
    SameNumberExactlyWhen(c, x, m, d, y, n);
  }

  lemma YearOf(x: nat, a: char, b: char)
    requires IsDigit(a) && IsDigit(b) && x == 2000 + 10 * DigitValue(a) + DigitValue(b)
    ensures IsYear(x) && YearDigits(x) == [a, b] && x % 100 == 10 * DigitValue(a) + DigitValue(b)
  {
    var u, v := DigitValue(a), DigitValue(b);
    assert x / 10 == 200 + u && x % 10 == v;
    assert DigitChar(u) == a && DigitChar(v) == b;
  }

  lemma RestStarts(more: string, y: nat, rest: string)
    requires AllDigits(more) && more != [] && (|more| <= 2 || more[2] != '0')
    requires y == OtherYear(more) && rest == more + (YearDigits(y) + Counter(0))
    ensures AllDigits(rest) && |rest| >= 5 && AllDigits(rest[2..]) && rest[2] != '0' && IsYear(y)
    ensures 10 * DigitValue(rest[0]) + DigitValue(rest[1]) != y % 100
  {
    CounterText(0);
    assert YearDigits(2001) == "01" && YearDigits(2011) == "11" && YearDigits(2012) == "12";
    assert |more| >= 2 ==> more[..2] == [more[0], more[1]];
  }

  // ---- what each token prints ------------------------------------------------------------------------

  lemma {:induction false} NoColon(s: string)
    requires ':' !in s
    ensures ColonAt(s) == |s| && SplitToken(s) == TokenBody(s, None)
    decreases |s|
  {
    if s != [] { NoColon(s[1..]); }
  }

  lemma {:induction false} ColonBetween(name: string, width: string)
    requires ':' !in name
    ensures ColonAt(name + ":" + width) == |name|
    ensures SplitToken(name + ":" + width) == TokenBody(name, Some(width))
    decreases |name|
  {
    var s := name + ":" + width;
    if name != [] {
      assert s[1..] == name[1..] + ":" + width;
      ColonBetween(name[1..], width);
    }
    assert s[..|name|] == name && s[|name| + 1..] == width;
  }

  lemma NamesKnown()
    ensures NameIn("WORK") == Some(WORK) && NameIn("PREFIX") == Some(PREFIX) && NameIn("DIV") == Some(DIV)
    ensures NameIn("FY") == Some(FY) && NameIn("FY2") == Some(FY2) && NameIn("YYYY") == Some(YYYY)
    ensures NameIn("YY") == Some(YY) && NameIn("SEQ") == Some(SEQ)
    ensures forall width ::
      NameIn("SEQ" + ":" + width) == Some(SEQ) && SplitToken("SEQ" + ":" + width).width == Some(width)
  {
    hide SplitToken, Known, NameIn;
    StoredNames();
    YearNames();
    CounterNames();
  }

  lemma StoredNames()
    ensures NameIn("WORK") == Some(WORK) && NameIn("PREFIX") == Some(PREFIX) && NameIn("DIV") == Some(DIV)
  {
    hide SplitToken;
    NoColon("WORK");
    NoColon("PREFIX");
    NoColon("DIV");
  }

  lemma YearNames()
    ensures NameIn("FY") == Some(FY) && NameIn("FY2") == Some(FY2)
    ensures NameIn("YYYY") == Some(YYYY) && NameIn("YY") == Some(YY)
  {
    hide SplitToken;
    NoColon("FY");
    NoColon("FY2");
    NoColon("YYYY");
    NoColon("YY");
  }

  lemma CounterNames()
    ensures NameIn("SEQ") == Some(SEQ)
    ensures forall width ::
      NameIn("SEQ" + ":" + width) == Some(SEQ) && SplitToken("SEQ" + ":" + width).width == Some(width)
  {
    hide SplitToken;
    NoColon("SEQ");
    forall width
      ensures NameIn("SEQ" + ":" + width) == Some(SEQ) && SplitToken("SEQ" + ":" + width).width == Some(width)
    {
      ColonBetween("SEQ", width);
    }
  }

  /** A token that stands for a stored text prints it as it is, and is missing without one. */
  lemma StoredTokens(t: Tokens)
    ensures TokenText("WORK", t) == (if t.work == Some("") then None else t.work)
    ensures TokenText("PREFIX", t) == (if t.prefix == Some("") then None else t.prefix)
    ensures TokenText("FY", t) == (if t.financialYear == Some("") then None else t.financialYear)
  {
    hide SplitToken;
    NamesKnown();
  }

  /** The division prints its code, less one zero at the end of a longer one. */
  lemma DivisionPrinted(t: Tokens, code: string)
    ensures t.divisionCode == Some(code + "0") && code != "" ==> TokenText("DIV", t) == Some(code)
    ensures t.divisionCode == Some(code) && code != "" && (code[|code| - 1] != '0' || |code| == 1) ==>
      TokenText("DIV", t) == Some(code)
  {
    hide SplitToken;
    NamesKnown();
    var longer := code + "0";
    assert longer[|longer| - 1] == '0' && longer[..|longer| - 1] == code;
  }

  /**
   * Of a date the year tokens print the year in full and its last two digits, and of a financial year its opening's.
   */
  lemma YearTokens(t: Tokens, century: string, year: string, rest: string, start: nat)
    requires |century| == 2 && |year| == 2 && t.documentDate == Some(century + year + rest)
    requires 1000 <= start <= 9999 && t.financialYear == Some(FinancialYearLabel(start))
    ensures TokenText("YYYY", t) == Some(century + year)
    ensures TokenText("YY", t) == Some(year)
    ensures TokenText("FY2", t) == Some([DigitChar(start / 10 % 10), DigitChar(start % 10)])
    ensures TokenText("FY", t) == Some(NatText(start) + "-" + PadStart(NatText((start + 1) % 100), 2))
  {
    hide SplitToken, NatText, PadStart;
    NamesKnown();
    FinancialYearShape(start);
    var date := century + year + rest;
    assert date[0..4] == century + year && date[2..4] == year;
  }

  /** The counter prints its numeral, led by zeros up to the width asked for. */
  lemma CounterToken(t: Tokens, width: nat)
    requires 1 <= width <= 12
    ensures var text := TokenText("SEQ" + ":" + NatText(width), t);
      && text.Some? && AllDigits(text.value) && TextNat(text.value) == t.sequence
      && |text.value| == if |NatText(t.sequence)| < width then width else |NatText(t.sequence)|
    ensures TokenText("SEQ", t) == Some(NatText(t.sequence))
  {
    hide SplitToken, NatText, TextNat;
    NamesKnown();
    TextNatOfNatText(width);
    NatTextDigits(width);
    TextNatOfNatText(t.sequence);
    NatTextDigits(t.sequence);
    PadStartValue(NatText(t.sequence), width);
    NoColon("SEQ");
  }

  /** Which documents each token may stand in. */
  lemma TokensAllowed(d: DocumentType)
    ensures CheckToken("WORK", d) == None <==> d in {DeliveryChallan, IssueChallan}
    ensures CheckToken("PREFIX", d) == None <==> d != BudgetaryQuotation
    ensures CheckToken("DIV", d) == None <==> d in {TaxInvoice, CreditNote}
    ensures CheckToken("FY", d) == None <==> d in {TaxInvoice, CreditNote, StandaloneChallan}
    ensures CheckToken("FY2", d) == None <==> d in {TaxInvoice, CreditNote, StandaloneChallan}
    ensures CheckToken("YYYY", d) == None && CheckToken("YY", d) == None && CheckToken("SEQ", d) == None
  {
    hide SplitToken;
    NamesKnown();
    NoColon("SEQ");
  }

  /** A counter's width is one or two digits that spell a number from one to twelve. */
  lemma WidthsAllowed(d: DocumentType, width: string)
    ensures CheckToken("SEQ" + ":" + width, d) == None <==>
      (|width| == 1 || |width| == 2) && AllDigits(width) && 1 <= TextNat(width) <= 12
    ensures CheckToken("SEQ" + ":" + width, d).Some? ==> CheckToken("SEQ" + ":" + width, d) == Some(BadWidth)
  {
    hide SplitToken, TextNat;
    NamesKnown();
  }

  // ---- which refusal ----------------------------------------------------------------------------------

  /** The first token that may not stand in the template, if there is one, at piece i. */
  predicate FirstBadAt(pieces: seq<Piece>, d: DocumentType, i: nat) {
    && i < |pieces| && pieces[i].Token? && CheckToken(pieces[i].body, d).Some?
    && forall k :: 0 <= k < i && pieces[k].Token? ==> CheckToken(pieces[k].body, d) == None
  }

  lemma {:induction false} FirstBadTokenAt(pieces: seq<Piece>, d: DocumentType, i: nat)
    requires FirstBadAt(pieces, d, i)
    ensures FirstBadToken(pieces, d) == CheckToken(pieces[i].body, d)
    decreases i
  {
    hide CheckToken;
    if i > 0 { FirstBadTokenAt(pieces[1..], d, i - 1); }
  }

  lemma {:induction false} NoBadTokenAt(pieces: seq<Piece>, d: DocumentType)
    requires forall k :: 0 <= k < |pieces| && pieces[k].Token? ==> CheckToken(pieces[k].body, d) == None
    ensures FirstBadToken(pieces, d) == None
    decreases |pieces|
  {
    hide CheckToken;
    if pieces != [] { NoBadTokenAt(pieces[1..], d); }
  }

  /** Blank text, then a stray brace, then the first bad token, then no counter, then no scope. */
  lemma RefusalExactlyWhen(template: string, d: DocumentType)
    ensures var pieces := Pieces(Trim(template));
      var stray := exists p :: p in pieces && p.Literal? && (p.c == '{' || p.c == '}');
      var good := Trim(template) != "" && !stray
        && forall k :: 0 <= k < |pieces| && pieces[k].Token? ==> CheckToken(pieces[k].body, d) == None;
      && (Refusal(template, d) == Some(Blank) <==> Trim(template) == "")
      && (Trim(template) != "" && stray ==> Refusal(template, d) == Some(Malformed))
      && (forall i: nat :: Trim(template) != "" && !stray && FirstBadAt(pieces, d, i) ==>
            Refusal(template, d) == CheckToken(pieces[i].body, d))
      && (good && !Uses(pieces, SEQ) ==> Refusal(template, d) == Some(NoSequence))
      && (good && Uses(pieces, SEQ) && !InScope(pieces, d) ==> Refusal(template, d) == Some(NoScope))
  {
    hide Pieces, Trim, CheckToken, FirstBadToken, Uses, InScope;
    var pieces := Pieces(Trim(template));
    CheckNeverBlank(pieces, d);
    forall i: nat | FirstBadAt(pieces, d, i) ensures FirstBadToken(pieces, d) == CheckToken(pieces[i].body, d) {
      FirstBadTokenAt(pieces, d, i);
    }
    if forall k :: 0 <= k < |pieces| && pieces[k].Token? ==> CheckToken(pieces[k].body, d) == None {
      NoBadTokenAt(pieces, d);
    }
  }

  lemma {:induction false} CheckNeverBlank(pieces: seq<Piece>, d: DocumentType)
    ensures FirstBadToken(pieces, d) != Some(Blank)
    decreases |pieces|
  {
    hide SplitToken, Known;
    if pieces != [] { CheckNeverBlank(pieces[1..], d); }
  }

  /** What is wrong with one token: its name, where it stands, or its width. */
  lemma BadTokenExactlyWhen(body: string, d: DocumentType)
    ensures CheckToken(body, d) == Some(UnknownToken(SplitToken(body).name)) <==>
      SplitToken(body).name !in {"WORK", "PREFIX", "DIV", "FY", "FY2", "YYYY", "YY", "SEQ"}
    ensures CheckToken(body, d) == Some(BadWidth) <==>
      SplitToken(body).name == "SEQ" && !GoodWidth(SplitToken(body).width)
  {
    hide SplitToken, GoodWidth;
    KnownExactlyWhen(SplitToken(body).name);
  }

  lemma KnownExactlyWhen(name: string)
    ensures Known(name) == None <==> name !in {"WORK", "PREFIX", "DIV", "FY", "FY2", "YYYY", "YY", "SEQ"}
    ensures Known(name) == Some(SEQ) <==> name == "SEQ"
  {
  }

  // ---- numbers of different scopes -------------------------------------------------------------------------

  /** One number of an accepted template for challans is of one counter, and of one work or one prefix. */
  lemma ChallansApart(template: string, d: DocumentType, a: Tokens, b: Tokens)
    requires d == DeliveryChallan || d == IssueChallan
    requires Accepted(template, d) && SameShape(a, b)
    requires Render(Trim(template), a).Number? && Render(Trim(template), a) == Render(Trim(template), b)
    ensures a.sequence == b.sequence && (a.work == b.work || a.prefix == b.prefix)
  {
    hide RenderPieces, Pieces, Trim, GoodPiece;
    CounterDecides(template, d, a, b);
    var pieces := Pieces(Trim(template));
    SameNumberSamePieces(pieces, a, b);
    RenderedIsConcat(pieces, a);
    var name :| name in Scope(d) && Uses(pieces, name);
    var p :| p in pieces && p.Token? && NameIn(p.body) == Some(name);
    assert name == WORK || name == PREFIX;
    TokenStored(p.body, name, a);
    TokenStored(p.body, name, b);
  }

  lemma TokenStored(body: string, name: TokenName, t: Tokens)
    requires NameIn(body) == Some(name) && TokenText(body, t).Some?
    ensures name == WORK ==> TokenText(body, t) == t.work
    ensures name == PREFIX ==> TokenText(body, t) == t.prefix
    ensures name == FY ==> TokenText(body, t) == t.financialYear
    ensures name == FY2 && t.financialYear.Some? && |t.financialYear.value| >= 4 ==>
      TokenText(body, t) == Some(t.financialYear.value[2..4])
  {
    hide SplitToken, Known;
  }

  /** One number of an accepted template for standalone challans is of one counter, and of one prefix or one year. */
  lemma StandaloneApart(template: string, a: Tokens, b: Tokens, x: nat, y: nat)
    requires Accepted(template, StandaloneChallan) && SameShape(a, b) && 1000 <= x <= 9999 && 1000 <= y <= 9999
    requires a.financialYear == Some(FinancialYearLabel(x)) && b.financialYear == Some(FinancialYearLabel(y))
    requires Render(Trim(template), a).Number? && Render(Trim(template), a) == Render(Trim(template), b)
    ensures a.sequence == b.sequence && (a.prefix == b.prefix || x % 100 == y % 100)
  {
    hide RenderPieces, Pieces, Trim, GoodPiece, FinancialYearLabel;
    CounterDecides(template, StandaloneChallan, a, b);
    var pieces := Pieces(Trim(template));
    SameNumberSamePieces(pieces, a, b);
    RenderedIsConcat(pieces, a);
    var name :| name in Scope(StandaloneChallan) && Uses(pieces, name);
    var p :| p in pieces && p.Token? && NameIn(p.body) == Some(name);
    assert name == PREFIX || name == FY || name == FY2;
    FinancialYearShape(x);
    FinancialYearShape(y);
    TokenStored(p.body, name, a);
    TokenStored(p.body, name, b);
    if name != PREFIX { SameLastDigits(x, y); }
  }

  // ---- pieces and holes ------------------------------------------------------------------------

  function Spelled(pieces: seq<Piece>): string {
    if pieces == [] then "" else Spelling(pieces[0]) + Spelled(pieces[1..])
  }

  function Spelling(p: Piece): string {
    match p case Literal(c) => [c] case Token(body) => "{" + body + "}"
  }

  /** The pieces of a template spell it, and its tokens are braced texts of one to twenty characters without braces. */
  lemma {:induction false} PiecesSpell(s: string)
    ensures Spelled(Pieces(s)) == s
    ensures forall p :: p in Pieces(s) && p.Token? ==> 1 <= |p.body| <= 20 && '{' !in p.body && '}' !in p.body
    decreases |s|
  {
    hide Pieces;
    if s == [] {
      assert Pieces(s) == [] by { NoPieces(); }
    } else {
      var p, rest := FirstPiece(s);
      PiecesSpell(rest);
      assert ([p] + Pieces(rest))[1..] == Pieces(rest);
    }
  }

  lemma NoPieces()
    ensures Pieces("") == []
  {
  }

  lemma FirstPiece(s: string) returns (p: Piece, rest: string)
    requires s != []
    ensures Pieces(s) == [p] + Pieces(rest) && |rest| < |s| && s == Spelling(p) + rest
    ensures p.Token? ==> 1 <= |p.body| <= 20 && '{' !in p.body && '}' !in p.body
  {
    var n := if s[0] == '{' then BodyRun(s[1..]) else 0;
    if s[0] == '{' && 1 <= n <= 20 && n + 1 < |s| && s[n + 1] == '}' {
      p, rest := Token(s[1..n + 1]), s[n + 2..];
      assert p.body == s[1..][..n];
      assert s == "{" + p.body + "}" + rest;
    } else {
      p, rest := Literal(s[0]), s[1..];
      assert s == [s[0]] + s[1..];
    }
  }

  /** The first piece that has nothing to print. */
  predicate FirstHole(pieces: seq<Piece>, t: Tokens, i: nat) {
    i < |pieces| && PieceText(pieces[i], t) == None && forall j :: 0 <= j < i ==> PieceText(pieces[j], t).Some?
  }

  /** A number with a hole in it is never printed: the first token without a value is named instead. */
  lemma {:induction false} MissingExactlyWhen(pieces: seq<Piece>, t: Tokens, i: nat)
    requires FirstHole(pieces, t, i)
    ensures pieces[i].Token? && RenderPieces(pieces, t) == Missing(pieces[i].body)
    decreases i
  {
    hide TokenText;
    if i > 0 {
      assert FirstHole(pieces[1..], t, i - 1) by {
        assert forall j :: 0 <= j < i - 1 ==> pieces[1..][j] == pieces[j + 1];
      }
      MissingExactlyWhen(pieces[1..], t, i - 1);
    }
  }

  /** A counter without a width, or with an empty one, prints its plain digits. */
  lemma PlainCounter(t: Tokens)
    ensures TokenText("SEQ", t) == TokenText("SEQ" + ":" + "", t) == Some(NatText(t.sequence))
  {
    hide NatText, TextNat, SplitToken;
    NamesKnown();
    NatTextDigits(t.sequence);
    NoColon("SEQ");
    ColonBetween("SEQ", "");
    PlainPadding(NatText(t.sequence));
  }

  lemma PlainPadding(digits: string)
    requires digits != ""
    ensures PadStart(digits, Padding(None)) == PadStart(digits, Padding(Some(""))) == digits
  {
  }
}
