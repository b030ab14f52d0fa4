/**
 * The line shapes and value lexemes every TallyPrime export reader shares (tally-scan.ts).  A line is
 * trimmed before its shape is read; tag comparison folds ASCII case.
 */
module TallyScan {
  import opened Text
  import opened Decimal
  import opened Money

  const MAX_REFUSALS: nat := 200

  /** How many document numbers one voucher may offer. */
  const MAX_MATCH_KEYS: nat := 40

  // ---- one line, structurally ------------------------------------------------------

  predicate IsTagChar(c: char) {
    'A' <= c <= 'Z' || 'a' <= c <= 'z' || IsDigit(c) || c == '.' || c == '_' || c == ':'
  }

  predicate AllTagChars(s: string) { forall i :: 0 <= i < |s| ==> IsTagChar(s[i]) }

  predicate IsTagName(t: string) { 1 <= |t| <= 64 && AllTagChars(t) }

  function TagRun(s: string): (n: nat)
    ensures n <= |s| && AllTagChars(s[..n])
    ensures n < |s| ==> !IsTagChar(s[n])
  {
    if s == [] || !IsTagChar(s[0]) then 0
    else
      var n := 1 + TagRun(s[1..]);
      assert s[..n] == [s[0]] + s[1..][..n - 1];
      n
  }

  /** An opening tag at the start of a line and the position of its '>'. */
  datatype Head = Head(tag: string, end: nat)

  function HeadOf(s: string): (h: Option<Head>)
    ensures h.Some? ==> IsTagName(h.value.tag) && |h.value.tag| < h.value.end < |s|
  {
    if s == [] || s[0] != '<' then None
    else
      var n, end := TagRun(s[1..]), IndexOf(s, '>');
      assert forall i :: 1 <= i < 1 + n ==> s[i] == s[1..][..n][i - 1];
      if 1 <= n <= 64 && end < |s| && (end == 1 + n || IsSpace(s[1 + n])) then Some(Head(s[1..][..n], end)) else None
  }

  function CloseTag(tag: string): string { "</" + tag + ">" }

  datatype Value = Value(tag: string, raw: string)

  /** "<TAG ...>value</TAG>" closed on its own line. */
  function CompleteOf(s: string): Option<Value> {
    var h := HeadOf(s);
    if h == None then None
    else
      var tag, end := h.value.tag, h.value.end;
      if |s| >= end + 1 + |tag| + 3 && Upper(s[|s| - |tag| - 3..]) == CloseTag(Upper(tag)) then
        Some(Value(tag, s[end + 1..|s| - |tag| - 3]))
      else None
  }

  /** "<TAG ...>" with nothing after it. */
  function OpenOf(s: string): Option<string> {
    var h := HeadOf(s);
    if h.Some? && h.value.end == |s| - 1 then Some(h.value.tag) else None
  }

  /** "</TAG>" */
  function CloseOf(s: string): Option<string> {
    if |s| >= 4 && s[0] == '<' && s[1] == '/' && s[|s| - 1] == '>' && IsTagName(s[2..|s| - 1]) then Some(s[2..|s| - 1])
    else None
  }

  /** "<TAG ...>text", whatever becomes of the rest of the line. */
  function SpansOf(s: string): Option<string> {
    var h := HeadOf(s);
    if h.Some? && h.value.end + 1 < |s| && !IsSpace(s[h.value.end + 1]) then Some(h.value.tag) else None
  }

  datatype Shape =
    Closes(tag: string) | Completes(tag: string, raw: string) | Opens(tag: string) | Spans(tag: string) | Other

  /** What a line is, with its tag folded to upper case; a self-closing element is nothing. */
  function ShapeOf(s: string): Shape {
    if CloseOf(s).Some? then Closes(Upper(CloseOf(s).value))
    else if CompleteOf(s).Some? then Completes(Upper(CompleteOf(s).value.tag), CompleteOf(s).value.raw)
    else if OpenOf(s).Some? && !EndsWith(s, "/>") then Opens(Upper(OpenOf(s).value))
    else if SpansOf(s).Some? then Spans(Upper(SpansOf(s).value))
    else Other
  }

  // ---- the lines a document prints ----------------------------------------------------

  /** Attributes start with a space, or are absent, and hold no '>'. */
  predicate IsAttributes(attrs: string) { (attrs != [] ==> IsSpace(attrs[0])) && '>' !in attrs }

  function OpenTag(tag: string, attrs: string): string { "<" + tag + attrs + ">" }

  lemma {:induction false} TagRunOf(tag: string, rest: string)
    requires AllTagChars(tag) && (rest != [] ==> !IsTagChar(rest[0]))
    ensures TagRun(tag + rest) == |tag|
  {
    if tag == [] {
      assert tag + rest == rest;
    } else {
      assert (tag + rest)[1..] == tag[1..] + rest;
      TagRunOf(tag[1..], rest);
    }
  }

  lemma HeadOfPrinted(tag: string, attrs: string, rest: string)
    requires IsTagName(tag) && IsAttributes(attrs)
    ensures HeadOf(OpenTag(tag, attrs) + rest) == Some(Head(tag, 1 + |tag| + |attrs|))
  {
    var s := OpenTag(tag, attrs) + rest;
    var tail := attrs + ">" + rest;
    assert s[1..] == tag + tail;
    assert !IsTagChar(tail[0]);
    TagRunOf(tag, tail);
    assert s[1..][..|tag|] == tag;
    assert s == "<" + tag + attrs + ['>'] + rest;
    IndexOfSplit("<" + tag + attrs, '>', rest);
    assert attrs != [] ==> s[1 + |tag|] == attrs[0];
  }

  lemma CompletePrinted(tag: string, attrs: string, raw: string)
    requires IsTagName(tag) && IsAttributes(attrs)
    ensures ShapeOf(OpenTag(tag, attrs) + (raw + CloseTag(tag))) == Completes(Upper(tag), raw)
  {
    hide HeadOf, Upper;
    var rest := raw + CloseTag(tag);
    var s := OpenTag(tag, attrs) + rest;
    HeadOfPrinted(tag, attrs, rest);
    assert s[|s| - |tag| - 3..] == CloseTag(tag);
    assert s[1 + |tag| + |attrs| + 1..|s| - |tag| - 3] == raw;
  }

  lemma OpenPrinted(tag: string, attrs: string)
    requires IsTagName(tag) && IsAttributes(attrs) && (attrs != [] ==> attrs[|attrs| - 1] != '/')
    ensures ShapeOf(OpenTag(tag, attrs)) == Opens(Upper(tag))
  {
    hide HeadOf, Upper;
    var s := OpenTag(tag, attrs);
    assert s + "" == s;
    HeadOfPrinted(tag, attrs, "");
    NotSelfClosing(tag, attrs);
  }

  lemma NotSelfClosing(tag: string, attrs: string)
    requires IsTagName(tag) && (attrs != [] ==> attrs[|attrs| - 1] != '/')
    ensures !EndsWith(OpenTag(tag, attrs), "/>")
  {
    var s := OpenTag(tag, attrs);
    assert s[|s| - 2] == if attrs == [] then tag[|tag| - 1] else attrs[|attrs| - 1];
    assert IsTagChar(tag[|tag| - 1]);
    assert s[|s| - 2..][0] == s[|s| - 2];
  }

  lemma SelfClosedPrinted(tag: string, attrs: string)
    requires IsTagName(tag) && IsAttributes(attrs) && attrs != [] && attrs[|attrs| - 1] == '/'
    ensures ShapeOf(OpenTag(tag, attrs)) == Other
  {
    hide HeadOf, Upper;
    var s := OpenTag(tag, attrs);
    assert s + "" == s;
    HeadOfPrinted(tag, attrs, "");
    assert s[|s| - 2..] == "/>";
  }

  lemma ClosePrinted(tag: string)
    requires IsTagName(tag)
    ensures ShapeOf(CloseTag(tag)) == Closes(Upper(tag))
  {
    var s := CloseTag(tag);
    assert s[2..|s| - 1] == tag;
  }

  /** Text that runs past the end of its tag's line. */
  predicate RunsOn(tag: string, text: string) {
    && text != [] && !IsSpace(text[0])
    && !(|text| >= |tag| + 3 && Upper(text[|text| - |tag| - 3..]) == CloseTag(Upper(tag)))
  }

  lemma SpansPrinted(tag: string, attrs: string, text: string)
    requires IsTagName(tag) && IsAttributes(attrs) && RunsOn(tag, text)
    ensures ShapeOf(OpenTag(tag, attrs) + text) == Spans(Upper(tag))
  {
    hide HeadOf, Upper;
    var s := OpenTag(tag, attrs) + text;
    HeadOfPrinted(tag, attrs, text);
    var end := 1 + |tag| + |attrs|;
    assert s[end + 1] == text[0];
    if |s| >= end + 1 + |tag| + 3 {
      assert s[|s| - |tag| - 3..] == text[|text| - |tag| - 3..];
    }
  }

  // ---- what each shape looks like -------------------------------------------------------

  /** A name of one to sixty-four letters, digits, dots, underscores and colons. */
  predicate IsTag(t: string) {
    && 1 <= |t| <= 64
    && forall i :: 0 <= i < |t| ==>
         'A' <= t[i] <= 'Z' || 'a' <= t[i] <= 'z' || '0' <= t[i] <= '9' || t[i] in {'.', '_', ':'}
  }

  lemma TagsSpelled(t: string)
    ensures IsTagName(t) <==> IsTag(t)
  {
  }

  lemma HeadParts(s: string) returns (attrs: string, rest: string)
    requires HeadOf(s).Some?
    ensures IsAttributes(attrs) && s == OpenTag(HeadOf(s).value.tag, attrs) + rest
    ensures HeadOf(s).value.end == 1 + |HeadOf(s).value.tag| + |attrs|
  {
    var tag, end := HeadOf(s).value.tag, HeadOf(s).value.end;
    attrs, rest := s[1 + |tag|..end], s[end + 1..];
    assert s[..1 + |tag|] == "<" + tag;
    assert s == s[..1 + |tag|] + (attrs + ([s[end]] + rest));
    assert attrs != [] ==> attrs[0] == s[1 + |tag|];
  }

  predicate PrintsClosing(s: string, t: string) { IsTag(t) && s == "</" + t + ">" }

  predicate PrintsOpening(s: string, t: string, attrs: string) {
    IsTag(t) && IsAttributes(attrs) && (attrs != [] ==> attrs[|attrs| - 1] != '/') && s == "<" + t + attrs + ">"
  }

  /** The closing tag may be spelled in another case than the opening one. */
  predicate PrintsComplete(s: string, t: string, attrs: string, raw: string, t': string) {
    IsTag(t) && IsAttributes(attrs) && Upper(t') == Upper(t) && s == "<" + t + attrs + ">" + (raw + ("</" + t' + ">"))
  }

  predicate PrintsRunning(s: string, t: string, attrs: string, text: string) {
    IsTag(t) && IsAttributes(attrs) && RunsOn(t, text) && s == "<" + t + attrs + ">" + text
  }

  lemma ClosesExactlyWhen(s: string, tag: string)
    ensures ShapeOf(s) == Closes(tag) <==> exists t :: PrintsClosing(s, t) && Upper(t) == tag
  {
    hide Upper, CompleteOf, OpenOf, SpansOf;
    if CloseOf(s).Some? {
      TagsSpelled(CloseOf(s).value);
      assert s == "</" + CloseOf(s).value + ">";
      assert PrintsClosing(s, CloseOf(s).value);
    }
    forall t | PrintsClosing(s, t) ensures ShapeOf(s) == Closes(Upper(t)) {
      TagsSpelled(t);
      ClosePrinted(t);
    }
  }

  lemma OpensExactlyWhen(s: string, tag: string)
    ensures ShapeOf(s) == Opens(tag) <==> exists t, attrs :: PrintsOpening(s, t, attrs) && Upper(t) == tag
  {
    hide Upper, CompleteOf, CloseOf, SpansOf, HeadOf;
    if ShapeOf(s).Opens? {
      var t := HeadOf(s).value.tag;
      var attrs, rest := HeadParts(s);
      TagsSpelled(t);
      assert rest == [] && s == OpenTag(t, attrs);
      if attrs != [] { assert s[|s| - 2..] == [attrs[|attrs| - 1], '>']; }
      assert PrintsOpening(s, t, attrs);
    }
    forall t, attrs | PrintsOpening(s, t, attrs) ensures ShapeOf(s) == Opens(Upper(t)) {
      TagsSpelled(t);
      OpenPrinted(t, attrs);
    }
  }

  lemma CompleteInAnyCase(tag: string, attrs: string, raw: string, tag': string)
    requires IsTagName(tag) && IsAttributes(attrs) && Upper(tag') == Upper(tag)
    ensures ShapeOf(OpenTag(tag, attrs) + (raw + CloseTag(tag'))) == Completes(Upper(tag), raw)
  {
    hide HeadOf;
    var rest := raw + CloseTag(tag');
    var s := OpenTag(tag, attrs) + rest;
    HeadOfPrinted(tag, attrs, rest);
    assert |tag'| == |tag|;
    assert s[|s| - |tag| - 3..] == CloseTag(tag');
    assert s[1 + |tag| + |attrs| + 1..|s| - |tag| - 3] == raw;
  }

  lemma CompleteParts(s: string) returns (t: string, attrs: string, t': string)
    requires CompleteOf(s).Some?
    ensures t == CompleteOf(s).value.tag && PrintsComplete(s, t, attrs, CompleteOf(s).value.raw, t')
  {
    hide HeadOf, IsTag;
    var rest;
    t := HeadOf(s).value.tag;
    attrs, rest := HeadParts(s);
    TagsSpelled(t);
    var tail := s[|s| - |t| - 3..];
    t' := tail[2..|tail| - 1];
    ClosedInAnyCase(tail, t);
    assert s == OpenTag(t, attrs) + (CompleteOf(s).value.raw + tail);
  }

  lemma ClosedInAnyCase(tail: string, t: string)
    requires Upper(tail) == CloseTag(Upper(t))
    ensures |tail| == |t| + 3 && tail == CloseTag(tail[2..|tail| - 1]) && Upper(tail[2..|tail| - 1]) == Upper(t)
  {
    assert |Upper(tail)| == |tail| && |Upper(t)| == |t|;
    forall i | 0 <= i < |t| ensures Upper(tail[2..|tail| - 1])[i] == Upper(t)[i] {
      assert Upper(tail)[i + 2] == Upper(t)[i];
    }
    assert Upper(tail)[0] == '<' && Upper(tail)[1] == '/' && Upper(tail)[|tail| - 1] == '>';
  }

  lemma CompletesExactlyWhen(s: string, tag: string, raw: string)
    ensures ShapeOf(s) == Completes(tag, raw) <==>
      exists t, attrs, t' :: PrintsComplete(s, t, attrs, raw, t') && Upper(t) == tag
  {
    hide Upper, CompleteOf, OpenOf, CloseOf, SpansOf, HeadOf;
    if ShapeOf(s).Completes? { var t, attrs, t' := CompleteParts(s); }
    forall t, attrs, t' | PrintsComplete(s, t, attrs, raw, t') ensures ShapeOf(s) == Completes(Upper(t), raw) {
      TagsSpelled(t);
      CompleteInAnyCase(t, attrs, raw, t');
      assert s == OpenTag(t, attrs) + (raw + CloseTag(t'));
    }
  }

  lemma RunningParts(s: string) returns (t: string, attrs: string, text: string)
    requires SpansOf(s).Some? && CompleteOf(s) == None
    ensures t == SpansOf(s).value && PrintsRunning(s, t, attrs, text)
  {
    hide HeadOf, Upper, IsTag;
    t := HeadOf(s).value.tag;
    attrs, text := HeadParts(s);
    TagsSpelled(t);
    var end := HeadOf(s).value.end;
    assert text == s[end + 1..] && text[0] == s[end + 1];
    if |text| >= |t| + 3 { assert text[|text| - |t| - 3..] == s[|s| - |t| - 3..]; }
  }

  lemma SpansExactlyWhen(s: string, tag: string)
    ensures ShapeOf(s) == Spans(tag) <==>
      exists t, attrs, text :: PrintsRunning(s, t, attrs, text) && Upper(t) == tag
  {
    hide Upper, CompleteOf, OpenOf, CloseOf, SpansOf, HeadOf, RunsOn;
    if ShapeOf(s).Spans? { var t, attrs, text := RunningParts(s); }
    forall t, attrs, text | PrintsRunning(s, t, attrs, text) ensures ShapeOf(s) == Spans(Upper(t)) {
      TagsSpelled(t);
      SpansPrinted(t, attrs, text);
      assert s == OpenTag(t, attrs) + text;
    }
  }

  // ---- values ---------------------------------------------------------------------------

  function DropSpaces(s: string): string {
    if s == [] then []
    else
      var rest := DropSpaces(s[1..]);
      if IsSpace(s[0]) then rest else [s[0]] + rest
  }

  /** An unsigned rupee figure as text with exactly two fraction digits. */
  function UnsignedRupees(body: string): Option<string> {
    var dot := IndexOf(body, '.');
    var whole := body[..dot];
    if !IsDigitRun(whole) || |whole| > 15 then None
    else if dot == |body| then Some(whole + ".00")
    else
      var frac := body[dot + 1..];
      if IsDigitRun(frac) && |frac| <= 2 then Some(whole + "." + PadEnd(frac, 2)) else None
  }

  /** An exact rupee figure, or None for text that is not one. */
  function ExactRupees(value: string): Option<string> {
    var text := DropSpaces(value);
    if StartsWith(text, "-") then
      match UnsignedRupees(text[1..])
      case None => None
      case Some(r) => Some("-" + r)
    else UnsignedRupees(text)
  }

  lemma UnsignedRupeesRead(body: string)
    ensures UnsignedRupees(body).Some? ==>
      var r := UnsignedRupees(body).value;
      && r != [] && IsDigit(r[0]) && IsDigit(r[|r| - 1])
      && UnsignedPaise(r).Some? && UnsignedPaise(r) == UnsignedPaise(body) && UnsignedPaise(r).value >= 0
  {
    hide UnsignedPaise;
    if UnsignedRupees(body).Some? {
      var dot := IndexOf(body, '.');
      if dot == |body| {
        assert body[..dot] == body;
        WholeRupees(body);
      } else {
        assert body == body[..dot] + "." + body[dot + 1..];
        FractionRupees(body[..dot], body[dot + 1..]);
      }
    }
  }

  lemma WholeRupees(whole: string)
    requires IsDigitRun(whole) && '.' !in whole
    ensures UnsignedPaise(whole + ".00") == UnsignedPaise(whole) == Some(TextNat(whole) * 100)
  {
    hide TextNat;
    assert ".00"[1..] == "00";
    ReadRupees(whole, "00");
    assert whole + "." + "00" == whole + ".00";
    DoubleZero();
    assert IndexOf(whole, '.') == |whole|;
  }

  lemma DoubleZero()
    ensures TextNat("00") == 0
  {
    ZerosValue(2);
    assert Zeros(2) == "00";
  }

  lemma FractionRupees(whole: string, frac: string)
    requires IsDigitRun(whole) && IsDigitRun(frac) && |frac| <= 2
    ensures UnsignedPaise(whole + "." + PadEnd(frac, 2)) == UnsignedPaise(whole + "." + frac)
    ensures UnsignedPaise(whole + "." + frac) == Some(TextNat(whole) * 100 + TextNat(PadEnd(frac, 2)))
    ensures AllDigits(PadEnd(frac, 2)) && |PadEnd(frac, 2)| == 2
  {
    hide TextNat, IndexOf;
    var padded := PadEnd(frac, 2);
    assert AllDigits(padded) && |padded| == 2;
    ReadRupees(whole, padded);
    assert forall i :: 0 <= i < |whole| ==> IsDigit(whole[i]) && whole[i] != '.';
    IndexOfSplit(whole, '.', frac);
    var body := whole + "." + frac;
    assert body[..|whole|] == whole && body[|whole| + 1..] == frac;
  }

  /** A figure the scanner keeps is one the money reader accepts, with the sign its text shows. */
  lemma ExactRupeesRead(value: string)
    ensures ExactRupees(value).Some? ==>
      var r := ExactRupees(value).value;
      && ToPaise(r).Some?
      && (StartsWith(r, "-") ==> ToPaise(r).value <= 0 && ToPaise(r[1..]) == Some(-ToPaise(r).value))
      && (!StartsWith(r, "-") ==> ToPaise(r).value >= 0)
  {
    hide UnsignedRupees, UnsignedPaise, ToPaise;
    var text := DropSpaces(value);
    var body := if StartsWith(text, "-") then text[1..] else text;
    UnsignedRupeesRead(body);
    if UnsignedRupees(body).Some? {
      var r := UnsignedRupees(body).value;
      ReadSigned(r, UnsignedPaise(r).value);
      assert ("-" + r)[1..] == r;
    }
  }

  /** The figures that are kept, and as what text: up to fifteen digits of rupees, at most two of paise. */
  lemma FigureExactlyWhen(whole: string, frac: string)
    requires AllDigits(whole) && AllDigits(frac)
    ensures UnsignedRupees(whole) == if 1 <= |whole| <= 15 then Some(whole + ".00") else None
    ensures UnsignedRupees(whole + "." + frac) ==
      if !(1 <= |whole| <= 15) || !(1 <= |frac| <= 2) then None
      else Some(whole + "." + if |frac| == 1 then frac + "0" else frac)
  {
    hide IndexOf;
    assert '.' !in whole by { assert forall i :: 0 <= i < |whole| ==> IsDigit(whole[i]); }
    assert IndexOf(whole, '.') == |whole| && whole[..|whole|] == whole;
    IndexOfSplit(whole, '.', frac);
    var body := whole + "." + frac;
    assert body[..|whole|] == whole && body[|whole| + 1..] == frac;
    if |frac| == 1 { assert PadEnd(frac, 2) == frac + "0"; }
  }

  lemma OnlyFiguresKept(body: string)
    requires UnsignedRupees(body).Some?
    ensures IsDigitRun(body)
         || exists whole, frac :: IsDigitRun(whole) && IsDigitRun(frac) && body == whole + "." + frac
  {
    var dot := IndexOf(body, '.');
    if dot < |body| {
      assert body == body[..dot] + "." + body[dot + 1..];
    } else {
      assert body == body[..dot];
    }
  }

  lemma {:induction false} SpacesDropped(a: string, b: string)
    ensures DropSpaces(a + b) == DropSpaces(a) + DropSpaces(b)
    decreases |a|
  {
    if a == [] {
      assert a + b == b;
    } else {
      assert (a + b)[1..] == a[1..] + b;
      SpacesDropped(a[1..], b);
    }
  }

  /** A blank anywhere in a figure makes no difference, and a minus sign leads the text kept. */
  lemma SignsKept(a: string, b: string, blank: char)
    requires IsSpace(blank)
    ensures ExactRupees(a + ([blank] + b)) == ExactRupees(a + b)
    ensures DropSpaces(b) == b && (b == "" || b[0] != '-') ==>
      && ExactRupees(b) == UnsignedRupees(b)
      && ExactRupees("-" + b) == if UnsignedRupees(b) == None then None else Some("-" + UnsignedRupees(b).value)
  {
    hide UnsignedRupees;
    SpacesDropped(a, [blank] + b);
    SpacesDropped([blank], b);
    SpacesDropped(a, b);
    SpacesDropped("-", b);
    assert DropSpaces([blank]) == [] && DropSpaces("-") == "-";
    assert ("-" + b)[1..] == b;
  }

  /** Tally's YYYYMMDD as YYYY-MM-DD, or None where no such day exists. */
  function TallyDate(value: string): Option<string> {
    var t := Trim(value);
    if |t| == 8 && AllDigits(t) && IsRealDay(TextNat(t[..4]), TextNat(t[4..6]), TextNat(t[6..])) then
      Some(t[..4] + "-" + t[4..6] + "-" + t[6..])
    else None
  }

  predicate IsLeap(year: nat) { year % 4 == 0 && (year % 100 != 0 || year % 400 == 0) }

  function DaysIn(year: nat, month: nat): nat
    requires 1 <= month <= 12
  {
    if month == 2 then (if IsLeap(year) then 29 else 28)
    else if month == 4 || month == 6 || month == 9 || month == 11 then 30
    else 31
  }

  /** The date constructor moves years below 100 into the twentieth century, so those never probe equal. */
  predicate IsRealDay(year: nat, month: nat, day: nat) {
    year >= 100 && 1 <= month <= 12 && 1 <= day <= DaysIn(year, month)
  }

  predicate KeepSourceField(tag: string, value: string) {
    1 <= |value| <= 2000 && value != "Yes" && value != "No" && !EndsWith(tag, ".LIST")
  }
}
