/**
 * What the matcher's reduction of a remark (railway-measurement-match.ts) keeps of the claims a Measurement Book
 * prints: the digits of every percentage and quantity, and nothing of where their points stood.
 */
module RemarkReduction {
  import opened Text
  import opened Decimal
  import opened MbRemark
  import opened RemarkClaims
  import opened RailwayMatch

  // ---- the reduction, piece by piece ---------------------------------------------------------

  /** No number runs across the join. */
  predicate Apart(a: string, b: string) {
    a == [] || b == [] || !IsDigit(b[0]) || !(IsDigit(a[|a| - 1]) || a[|a| - 1] == '.')
  }

  /** No "nill" runs across the join. */
  predicate NoNillAcross(a: string, b: string) {
    a == [] || b == [] || b[0] !in {'i', 'l'} || a[|a| - 1] !in {'n', 'i', 'l'}
  }

  lemma {:induction false} DropAcross(a: string, b: string, leading: bool)
    requires Apart(a, b) && (a == [] ==> leading)
    ensures DropLeadingZeros(a + b, leading) == DropLeadingZeros(a, leading) + DropLeadingZeros(b, true)
    decreases |a|
  {
    hide DropLeadingZeros;
    DropStep(a + b, leading);
    DropStep(a, leading);
    DropStep(b, false);
    DropStep(b, true);
    DropStep([], true);
    DropStep([], false);
    if a == [] {
      assert a + b == b;
    } else {
      assert (a + b)[1..] == a[1..] + b && (|a| == 1 ==> a[1..] + b == b);
      if |a| > 1 {
        DropAcross(a[1..], b, !IsDigit(a[0]) && a[0] != '.');
        DropAcross(a[1..], b, true);
      }
    }
  }

  lemma DropStep(s: string, leading: bool)
    ensures s == [] ==> DropLeadingZeros(s, leading) == []
    ensures s != [] && leading && s[0] == '0' && |s| > 1 && IsDigit(s[1]) ==>
      DropLeadingZeros(s, leading) == DropLeadingZeros(s[1..], true)
    ensures s != [] && !(leading && s[0] == '0' && |s| > 1 && IsDigit(s[1])) ==>
      DropLeadingZeros(s, leading) == [s[0]] + DropLeadingZeros(s[1..], !IsDigit(s[0]) && s[0] != '.')
  {
  }

  lemma LowerAcross(a: string, b: string)
    ensures Lower(a + b) == Lower(a) + Lower(b)
  {
  }

  lemma {:induction false} MarksAcross(a: string, b: string)
    ensures KeepMarks(a + b) == KeepMarks(a) + KeepMarks(b)
    decreases |a|
  {
    if a == [] {
      assert a + b == b;
    } else {
      assert (a + b)[1..] == a[1..] + b;
      MarksAcross(a[1..], b);
    }
  }

  predicate NillFirst(s: string) { |s| >= 4 && s[..4] == "nill" }

  lemma NillStep(s: string)
    ensures NillFirst(s) ==> |s| >= 4 && NillToNil(s) == "nil" + NillToNil(s[4..])
    ensures s != [] && !NillFirst(s) ==> NillToNil(s) == [s[0]] + NillToNil(s[1..])
  {
  }

  lemma NillLetters(s: string)
    ensures NillFirst(s) <==> |s| >= 4 && s[0] == 'n' && s[1] == 'i' && s[2] == 'l' && s[3] == 'l'
  {
    assert |s| >= 4 ==> s[0] == s[..4][0] && s[1] == s[..4][1] && s[2] == s[..4][2] && s[3] == s[..4][3];
  }

  lemma NillFirstAcross(a: string, b: string)
    requires a != [] && NoNillAcross(a, b)
    ensures NillFirst(a + b) <==> NillFirst(a)
  {
    hide NillFirst;
    NillLetters(a);
    NillLetters(a + b);
    assert (a + b)[|a| - 1] == a[|a| - 1] && (b != [] ==> (a + b)[|a|] == b[0]);
  }

  lemma {:induction false} NillAcross(a: string, b: string)
    requires NoNillAcross(a, b)
    ensures NillToNil(a + b) == NillToNil(a) + NillToNil(b)
    decreases |a|
  {
    hide NillFirst, NillToNil;
    if a == [] {
      NoneToNil();
      assert a + b == b;
    } else {
      NillFirstAcross(a, b);
      NillStep(a);
      NillStep(a + b);
      if NillFirst(a) {
        assert (a + b)[4..] == a[4..] + b;
        NillAcross(a[4..], b);
      } else {
        assert (a + b)[1..] == a[1..] + b;
        NillAcross(a[1..], b);
      }
    }
  }

  lemma NoneToNil()
    ensures NillToNil([]) == []
  {
  }

  lemma ReduceAcross(a: string, b: string)
    requires Apart(a, b) && NoNillAcross(Marks(a), Marks(b))
    ensures Marks(a + b) == Marks(a) + Marks(b)
    ensures Reduce(a + b) == Reduce(a) + Reduce(b)
  {
    hide DropLeadingZeros, KeepMarks, NillToNil, Lower;
    DropAcross(a, b, true);
    LowerAcross(DropLeadingZeros(a, true), DropLeadingZeros(b, true));
    MarksAcross(Lower(DropLeadingZeros(a, true)), Lower(DropLeadingZeros(b, true)));
    NillAcross(Marks(a), Marks(b));
  }

  // ---- words and numbers ------------------------------------------------------------------------

  lemma {:induction false} NoZerosToDrop(s: string, leading: bool)
    requires forall i :: 0 <= i < |s| ==> !IsDigit(s[i])
    ensures DropLeadingZeros(s, leading) == s
    decreases |s|
  {
    if s != [] { NoZerosToDrop(s[1..], !IsDigit(s[0]) && s[0] != '.'); }
  }

  lemma {:induction false} AllMarks(s: string)
    requires forall i :: 0 <= i < |s| ==> IsMark(s[i])
    ensures KeepMarks(s) == s
    decreases |s|
  {
    if s != [] { AllMarks(s[1..]); }
  }

  lemma {:induction false} NoNill(s: string)
    requires forall i :: 0 <= i < |s| - 1 && s[i] == 'n' ==> s[i + 1] != 'i'
    ensures NillToNil(s) == s
    decreases |s|
  {
    hide NillFirst, NillToNil;
    NoneToNil();
    if s != [] {
      NillLetters(s);
      NillStep(s);
      forall i | 0 <= i < |s[1..]| - 1 && s[1..][i] == 'n' ensures s[1..][i + 1] != 'i' {
        assert s[i + 1] == 'n';
      }
      NoNill(s[1..]);
    }
  }

  /** The digits of a printed number, without its sign and its point. */
  function DigitsOf(s: string): (r: string)
    ensures AllDigits(r)
  {
    if s == [] then []
    else
      var rest := DigitsOf(s[1..]);
      if IsDigit(s[0]) then [s[0]] + rest else rest
  }

  predicate NumberChar(c: char) { IsDigit(c) || c == '.' }

  lemma {:induction false} MarksOfNumber(s: string)
    requires forall i :: 0 <= i < |s| ==> NumberChar(s[i])
    ensures KeepMarks(s) == DigitsOf(s) && DropLeadingZeros(s, false) == s
    decreases |s|
  {
    if s != [] { MarksOfNumber(s[1..]); }
  }

  lemma DigitsReduceToThemselves(s: string)
    requires AllDigits(s)
    ensures NillToNil(s) == s
  {
    NoNill(s);
  }

  /** A number as printed: digits and points, no zero in front of another digit. */
  predicate Plain(s: string) {
    && s != [] && IsDigit(s[0]) && (forall i :: 0 <= i < |s| ==> NumberChar(s[i]))
    && (s[0] == '0' && |s| > 1 ==> !IsDigit(s[1]))
  }

  lemma PlainReduces(s: string)
    requires Plain(s)
    ensures Marks(s) == Reduce(s) == DigitsOf(s) && DigitsOf(s) != []
  {
    MarksOfNumber(s);
    assert forall i :: 0 <= i < |s[1..]| ==> NumberChar(s[1..][i]) by {
      assert forall i :: 0 <= i < |s[1..]| ==> s[1..][i] == s[i + 1];
    }
    MarksOfNumber(s[1..]);
    assert DropLeadingZeros(s, true) == [s[0]] + s[1..] == s;
    assert Lower(s) == s by { assert forall i :: 0 <= i < |s| ==> NumberChar(s[i]) && LowerChar(s[i]) == s[i]; }
    DigitsReduceToThemselves(DigitsOf(s));
  }

  lemma MinusReduces()
    ensures Marks("-") == []
  {
    assert DropLeadingZeros("-", true) == "-" by { NoZerosToDrop("-", true); }
    assert Lower("-") == "-";
  }

  lemma PaddedIsPlain(n: nat, scale: nat)
    ensures |PadStart(NatText(n), scale + 1)| > scale
    ensures Plain(Pointed(PadStart(NatText(n), scale + 1), scale)) || (n == 0 && scale > 0)
  {
    hide NatText;
    NatTextDigits(n);
    var digits := PadStart(NatText(n), scale + 1);
    PadStartValue(NatText(n), scale + 1);
    if n > 0 || scale == 0 {
      assert n == 0 ==> NatText(n) == "0" by { ZeroText(); }
      PlainWhenPointed(digits, scale);
    }
  }

  lemma ZeroText()
    ensures NatText(0) == "0"
  {
  }

  lemma PlainWhenPointed(digits: string, scale: nat)
    requires AllDigits(digits) && |digits| > scale
    requires digits[0] == '0' ==> |digits| == scale + 1
    ensures Plain(Pointed(digits, scale))
  {
    var s, at := Pointed(digits, scale), |digits| - scale;
    if scale > 0 {
      assert forall i :: 0 <= i < |s| ==> s[i] == if i < at then digits[i] else if i == at then '.' else digits[i - 1];
    }
  }

  lemma {:induction false} NormaliseZero(d: Dec)
    requires d.units == 0
    ensures Normalise(d).scale == 0
    decreases d.scale
  {
    if d.scale > 0 { NormaliseZero(Dec(0, d.scale - 1)); }
  }

  lemma {:induction false} NormaliseUnits(d: Dec)
    ensures Normalise(d).units == 0 <==> d.units == 0
    decreases d.scale
  {
    if d.scale > 0 && d.units % 10 == 0 { NormaliseUnits(Dec(d.units / 10, d.scale - 1)); }
  }

  /** A printed number reduces to its digits. */
  lemma NumberReduces(d: Dec)
    ensures Marks(Render(d)) == Reduce(Render(d)) == DigitsOf(Render(d)) && DigitsOf(Render(d)) != []
    ensures NumberChar(Render(d)[|Render(d)| - 1])
  {
    hide Normalise, Pointed, PadStart, NatText, Plain, Marks, Reduce, DigitsOf;
    var n := Normalise(d);
    NormaliseUnits(d);
    if d.units == 0 { NormaliseZero(d); }
    PaddedIsPlain(Abs(n.units), n.scale);
    var digits := PadStart(NatText(Abs(n.units)), n.scale + 1);
    var body := Pointed(digits, n.scale);
    SignedReduces(body);
    assert Render(d) == body || Render(d) == "-" + body;
  }

  lemma SignedReduces(body: string)
    requires Plain(body)
    ensures Marks(body) == Reduce(body) == DigitsOf(body) && DigitsOf(body) != []
    ensures Marks("-" + body) == Reduce("-" + body) == DigitsOf("-" + body) && DigitsOf("-" + body) != []
    ensures NumberChar(body[|body| - 1]) && ("-" + body)[|"-" + body| - 1] == body[|body| - 1]
  {
    PlainReduces(body);
    MinusReduces();
    ReduceAcross("-", body);
    assert Reduce("-") == [] && [] + DigitsOf(body) == DigitsOf(body);
    assert ("-" + body)[1..] == body;
  }

  // ---- the fixed wording ----------------------------------------------------------------------------

  lemma WordMarks(s: string)
    requires forall i :: 0 <= i < |s| ==> !IsDigit(s[i])
    ensures Marks(s) == KeepMarks(Lower(s))
  {
    NoZerosToDrop(s, true);
  }

  /** A word of letters between blanks, or between a blank and a stop. */
  lemma Worded(s: string, before: string, word: string, low: string, after: string)
    requires s == before + word + after && forall i :: 0 <= i < |s| ==> !IsDigit(s[i])
    requires low == Lower(word) && forall i :: 0 <= i < |low| ==> IsMark(low[i])
    requires KeepMarks(Lower(before)) == [] && KeepMarks(Lower(after)) == []
    ensures Marks(s) == low
    ensures (forall i :: 0 <= i < |low| - 1 && low[i] == 'n' ==> low[i + 1] != 'i') ==> Reduce(s) == low
  {
    hide KeepMarks, DropLeadingZeros, NillToNil, Lower;
    WordMarks(s);
    LowerAcross(before + word, after);
    LowerAcross(before, word);
    MarksAcross(Lower(before) + low, Lower(after));
    MarksAcross(Lower(before), low);
    AllMarks(low);
    if forall i :: 0 <= i < |low| - 1 && low[i] == 'n' ==> low[i + 1] != 'i' { NoNill(low); }
  }

  lemma Blank()
    ensures KeepMarks(Lower("")) == [] && KeepMarks(Lower(" ")) == [] && KeepMarks(Lower(".")) == []
    ensures Marks(" ") == Reduce(" ") == [] && Marks(".") == Reduce(".") == []
    ensures Marks(". ") == Reduce(". ") == []
  {
    WordMarks(" ");
    WordMarks(".");
    WordMarks(". ");
    assert Lower(" ") == " " && Lower(".") == "." && Lower(". ") == ". " && Lower("") == "";
    assert KeepMarks(" ") == [] && ". "[1..] == " ";
  }

  lemma ForWord()
    ensures Marks("% for ") == Reduce("% for ") == "%for"
  {
    hide DropLeadingZeros, KeepMarks, NillToNil, Marks, Reduce;
    Blank();
    assert Lower("%") == "%" && Lower("for") == "for" && "% " + "for " == "% for ";
    Worded("% ", "", "%", "%", " ");
    Worded("for ", "", "for", "for", " ");
    ReduceAcross("% ", "for ");
    assert "%" + "for" == "%for";
  }

  lemma AndWord()
    ensures Marks(" and ") == Reduce(" and ") == "and"
  {
    hide DropLeadingZeros, KeepMarks, NillToNil, Marks, Reduce;
    Blank();
    assert Lower("and") == "and";
    Worded(" and ", " ", "and", "and", " ");
  }

  lemma PrepaidWord()
    ensures Marks("Prepaid ") == Reduce("Prepaid ") == "prepaid"
  {
    hide DropLeadingZeros, KeepMarks, NillToNil, Marks, Reduce;
    Blank();
    assert Lower("Pre") == "pre" && Lower("paid") == "paid";
    Worded("Pre", "", "Pre", "pre", "");
    Worded("paid ", "", "paid", "paid", " ");
    ReduceAcross("Pre", "paid ");
    assert "Pre" + "paid " == "Prepaid " && "pre" + "paid" == "prepaid";
  }

  lemma ToPayWords()
    ensures Marks("to pay ") == Reduce("to pay ") == "topay"
  {
    hide DropLeadingZeros, KeepMarks, NillToNil, Marks, Reduce;
    Blank();
    assert Lower("to") == "to" && Lower("pay") == "pay" && "to " + "pay " == "to pay " && "to" + "pay" == "topay";
    Worded("to ", "", "to", "to", " ");
    Worded("pay ", "", "pay", "pay", " ");
    ReduceAcross("to ", "pay ");
  }

  lemma NowWords()
    ensures Marks("Now to pay ") == Reduce("Now to pay ") == "nowtopay"
  {
    hide DropLeadingZeros, KeepMarks, NillToNil, Marks, Reduce;
    Blank();
    ToPayWords();
    assert Lower("Now") == "now";
    Worded("Now ", "", "Now", "now", " ");
    ReduceAcross("Now ", "to pay ");
    assert "Now " + "to pay " == "Now to pay " && "now" + "topay" == "nowtopay";
  }

  lemma NillWord()
    ensures Marks("nill.") == "nill" && Reduce("nill.") == "nil"
  {
    hide DropLeadingZeros, KeepMarks;
    Blank();
    assert Lower("nill") == "nill";
    Worded("nill.", "", "nill", "nill", ".");
    assert "nill"[..4] == "nill" && "nill"[4..] == [] && NillToNil([]) == [];
  }

  // ---- the claims as the reduction spells them ---------------------------------------------------------

  /** A claim with the points dropped from both its numbers. */
  function DigitClaim(p: Printed): Claim { Claim(DigitsOf(Render(p.percent)), DigitsOf(Render(p.quantity))) }

  function DigitClaims(ps: seq<Printed>): (r: seq<Claim>)
    ensures |r| == |ps|
  {
    if ps == [] then [] else [DigitClaim(ps[0])] + DigitClaims(ps[1..])
  }

  function Spelled(c: Claim, rest: string): string { c.percent + ("%for" + (c.quantity + rest)) }

  /** The reduction of one clause from its claims, the reduced unit and the reduction of what follows. */
  function Clause(claims: seq<Claim>, unit_: string, after: string): string
    requires claims != []
  {
    Spelled(claims[0], unit_ + if |claims| == 1 then after else "and" + Clause(claims[1..], unit_, after))
  }

  function NowReduced(now: seq<Claim>, unit_: string): string {
    "nowtopay" + if now == [] then "nil" else Clause(now, unit_, "")
  }

  function RemarkReduced(prepaid: seq<Claim>, now: seq<Claim>, unit_: string): string {
    if prepaid == [] then NowReduced(now, unit_) else "prepaid" + Clause(prepaid, unit_, NowReduced(now, unit_))
  }

  /** What may follow a unit: nothing or a stop, a blank, and no letter that could continue a "nill". */
  predicate Follows(after: string) {
    (after != [] ==> !IsDigit(after[0])) && (Marks(after) != [] ==> Marks(after)[0] !in {'i', 'l'})
  }

  lemma UnitReduces(unit_: string, after: string)
    requires Follows(after)
    ensures Reduce(" " + (unit_ + after)) == Reduce(unit_) + Reduce(after)
    ensures (" " + (unit_ + after))[0] == ' '
  {
    hide DropLeadingZeros, KeepMarks, NillToNil;
    Blank();
    ReduceAcross(unit_, after);
    ReduceAcross(" ", unit_ + after);
  }

  lemma LastDigit(s: string)
    requires AllDigits(s) && s != []
    ensures IsDigit(s[|s| - 1]) && IsDigit(s[0])
  {
  }

  lemma FragmentReduces(p: Printed, rest: string)
    requires rest != [] && rest[0] == ' '
    ensures Reduce(Render(p.percent) + ("% for " + (Render(p.quantity) + rest))) == Spelled(DigitClaim(p), Reduce(rest))
    ensures var marks := Marks(Render(p.percent) + ("% for " + (Render(p.quantity) + rest)));
      marks != [] && IsDigit(marks[0])
  {
    hide Render, Marks, Reduce, DigitsOf;
    var percent, quantity := Render(p.percent), Render(p.quantity);
    NumberReduces(p.percent);
    NumberReduces(p.quantity);
    LastDigit(DigitsOf(percent));
    LastDigit(DigitsOf(quantity));
    ForWord();
    ReduceAcross(quantity, rest);
    ReduceAcross("% for ", quantity + rest);
    ReduceAcross(percent, "% for " + (quantity + rest));
  }

  lemma {:induction false} ClauseReduces(ps: seq<Printed>, unit_: string, after: string)
    requires ps != [] && Follows(after)
    ensures var text := JoinWith(Fragments(ps, unit_), " and ") + after;
      && Reduce(text) == Clause(DigitClaims(ps), Reduce(unit_), Reduce(after))
      && Marks(text) != [] && IsDigit(Marks(text)[0])
    decreases |ps|
  {
    hide Render, Marks, Reduce, DigitsOf;
    var p := ps[0];
    if |ps| == 1 {
      OneFragment(p, ps, unit_, after);
      UnitReduces(unit_, after);
      FragmentReduces(p, " " + (unit_ + after));
    } else {
      var more := JoinWith(Fragments(ps[1..], unit_), " and ") + after;
      ClauseReduces(ps[1..], unit_, after);
      AndReduces(more);
      FirstFragment(p, ps, unit_, after, more, " " + unit_ + " and ");
      assert " " + unit_ + " and " + more == " " + (unit_ + (" and " + more));
      UnitReduces(unit_, " and " + more);
      FragmentReduces(p, " " + (unit_ + (" and " + more)));
    }
  }

  lemma AndReduces(more: string)
    requires Marks(more) != [] && IsDigit(Marks(more)[0])
    ensures Reduce(" and " + more) == "and" + Reduce(more) && Follows(" and " + more)
  {
    hide Marks, Reduce;
    AndWord();
    ReduceAcross(" and ", more);
    assert (" and " + more)[0] == ' ' && ("and" + Marks(more))[0] == 'a';
  }

  lemma StopFollows()
    ensures Follows(".")
  {
    hide Marks, Reduce;
    Blank();
  }

  lemma NowReduces(now: seq<Printed>, unit_: string)
    ensures Reduce(NowClause(now, unit_)) == NowReduced(DigitClaims(now), Reduce(unit_))
    ensures Marks(NowClause(now, unit_)) != [] && Marks(NowClause(now, unit_))[0] == 'n'
  {
    hide Marks, Reduce, Fragments, Clause;
    NowWords();
    NoFragments(now, unit_);
    if now == [] {
      NillWord();
      ReduceAcross("Now to pay ", "nill.");
      assert "Now to pay " + "nill." == "Now to pay nill.";
    } else {
      Blank();
      StopFollows();
      var rest := JoinWith(Fragments(now, unit_), " and ") + ".";
      ClauseReduces(now, unit_, ".");
      ReduceAcross("Now to pay ", rest);
      assert "Now to pay " + rest == NowClause(now, unit_);
    }
  }

  /** The reduction of a printed remark, spelt from its claims. */
  lemma RemarkReduces(lines: seq<StageLine>, unit_: string)
    ensures Reduce(OrderedRemark(lines, unit_, None))
         == RemarkReduced(DigitClaims(PrepaidOf(lines)), DigitClaims(NowOf(lines)), Reduce(unit_))
  {
    hide Marks, Reduce, JoinWith, Fragments, DigitClaims, Clause, NowClause, NowReduced;
    FragmentsOfRemark(lines, unit_);
    NowReduces(NowOf(lines), unit_);
    RemarkText(lines, unit_);
    NoFragments(PrepaidOf(lines), unit_);
    if PrepaidOf(lines) != [] { PrepaidReduces(PrepaidOf(lines), NowClause(NowOf(lines), unit_), unit_); }
  }

  lemma NoFragments(ps: seq<Printed>, unit_: string)
    ensures (Fragments(ps, unit_) == [] <==> ps == []) && (DigitClaims(ps) == [] <==> ps == [])
  {
  }

  lemma RemarkText(lines: seq<StageLine>, unit_: string)
    ensures OrderedRemark(lines, unit_, None) ==
      if PrepaidOf(lines) == [] then NowClause(NowOf(lines), unit_)
      else
        var joined := JoinWith(Fragments(PrepaidOf(lines), unit_), " and ");
        "Prepaid " + (joined + (". " + NowClause(NowOf(lines), unit_)))
  {
    hide JoinWith, Fragments;
    FragmentsOfRemark(lines, unit_);
    NoFragments(PrepaidOf(lines), unit_);
    NoFragments(NowOf(lines), unit_);
    Stopped(JoinWith(Fragments(PrepaidOf(lines), unit_), " and "), NowClause(NowOf(lines), unit_));
  }

  lemma Stopped(joined: string, clause: string)
    ensures "Prepaid " + joined + "." + " " + clause == "Prepaid " + (joined + (". " + clause))
  {
  }

  lemma PrepaidReduces(prepaid: seq<Printed>, clause: string, unit_: string)
    requires prepaid != [] && Marks(clause) != [] && Marks(clause)[0] == 'n'
    ensures Reduce("Prepaid " + (JoinWith(Fragments(prepaid, unit_), " and ") + (". " + clause)))
         == "prepaid" + Clause(DigitClaims(prepaid), Reduce(unit_), Reduce(clause))
  {
    hide Marks, Reduce, JoinWith, Fragments, DigitClaims, Clause;
    StopReduces(clause);
    ClauseReduces(prepaid, unit_, ". " + clause);
    PrepaidWord();
    ReduceAcross("Prepaid ", JoinWith(Fragments(prepaid, unit_), " and ") + (". " + clause));
  }

  lemma StopReduces(clause: string)
    requires Marks(clause) != [] && Marks(clause)[0] == 'n'
    ensures Reduce(". " + clause) == Reduce(clause) && Follows(". " + clause)
  {
    hide Marks, Reduce;
    Blank();
    ReduceAcross(". ", clause);
    assert (". " + clause)[0] == '.' && [] + Marks(clause) == Marks(clause);
  }

  // ---- reading the reduction back ---------------------------------------------------------------------------

  predicate NotDigitFirst(s: string) { s != [] ==> !IsDigit(s[0]) }

  lemma {:induction false} RunsAgree(a: string, b: string, x: string, y: string)
    requires AllDigits(a) && AllDigits(b) && NotDigitFirst(x) && NotDigitFirst(y) && a + x == b + y
    ensures a == b && x == y
    decreases |a|
  {
    FirstOfRun(a, x);
    FirstOfRun(b, y);
    if a != [] && b != [] {
      RunsAgree(a[1..], b[1..], x, y);
      assert a == [a[0]] + a[1..] && b == [b[0]] + b[1..];
    }
  }

  lemma FirstOfRun(a: string, x: string)
    ensures a == [] ==> a + x == x
    ensures a != [] ==> (a + x)[0] == a[0] && (a + x)[1..] == a[1..] + x
  {
  }

  lemma Regrouped(a: string, digits: string, rest: string, x: string)
    ensures (a + digits) + (rest + x) == a + ((digits + rest) + x)
  {
  }

  /** A quantity runs into a unit that starts with digits, and still both can be told apart. */
  lemma QuantitiesAgree(a: string, b: string, unit_: string, x: string, y: string)
    requires AllDigits(a) && AllDigits(b) && NotDigitFirst(x) && NotDigitFirst(y) && a + (unit_ + x) == b + (unit_ + y)
    ensures a == b && x == y
  {
    var n := DigitsLength(unit_);
    var digits, rest := unit_[..n], unit_[n..];
    assert unit_ == digits + rest;
    Regrouped(a, digits, rest, x);
    Regrouped(b, digits, rest, y);
    RunsAgree(a + digits, b + digits, rest + x, rest + y);
    CancelEnd(a, b, digits);
    CancelStart(rest, x, y);
  }

  lemma CancelEnd(a: string, b: string, x: string)
    requires a + x == b + x
    ensures a == b
  {
    assert |a| == |b| && a == (a + x)[..|a|] && b == (b + x)[..|b|];
  }

  lemma CancelStart(a: string, x: string, y: string)
    requires a + x == a + y
    ensures x == y
  {
    assert x == (a + x)[|a|..] && y == (a + y)[|a|..];
  }

  predicate Digital(c: Claim) { AllDigits(c.percent) && AllDigits(c.quantity) && c.percent != [] }

  predicate AllDigital(claims: seq<Claim>) { forall c :: c in claims ==> Digital(c) }

  lemma SpelledAgree(a: Claim, b: Claim, unit_: string, x: string, y: string)
    requires Digital(a) && Digital(b) && NotDigitFirst(x) && NotDigitFirst(y)
    requires Spelled(a, unit_ + x) == Spelled(b, unit_ + y)
    ensures a == b && x == y
  {
    var s, t := "%for" + (a.quantity + (unit_ + x)), "%for" + (b.quantity + (unit_ + y));
    assert s[0] == '%' && t[0] == '%';
    RunsAgree(a.percent, b.percent, s, t);
    assert s[4..] == a.quantity + (unit_ + x) && t[4..] == b.quantity + (unit_ + y);
    QuantitiesAgree(a.quantity, b.quantity, unit_, x, y);
  }

  predicate AfterClause(after: string) { after != [] ==> after[0] == 'n' }

  function Tail(claims: seq<Claim>, unit_: string, after: string): (r: string)
    requires claims != [] && AfterClause(after)
    ensures NotDigitFirst(r) && (|claims| > 1 ==> r != [] && r[0] == 'a')
  {
    if |claims| == 1 then after else "and" + Clause(claims[1..], unit_, after)
  }

  lemma {:induction false} ClausesAgree(a: seq<Claim>, b: seq<Claim>, unit_: string, x: string, y: string)
    requires a != [] && b != [] && AllDigital(a) && AllDigital(b) && AfterClause(x) && AfterClause(y)
    requires Clause(a, unit_, x) == Clause(b, unit_, y)
    ensures a == b && x == y
    decreases |a|
  {
    hide Spelled, Digital;
    assert a[0] in a && b[0] in b;
    SpelledAgree(a[0], b[0], unit_, Tail(a, unit_, x), Tail(b, unit_, y));
    assert |a| == 1 <==> |b| == 1;
    if |a| > 1 {
      var s, t := Clause(a[1..], unit_, x), Clause(b[1..], unit_, y);
      assert ("and" + s)[3..] == s && ("and" + t)[3..] == t;
      assert AllDigital(a[1..]) && AllDigital(b[1..]) by {
        assert forall c :: c in a[1..] ==> c in a;
        assert forall c :: c in b[1..] ==> c in b;
      }
      ClausesAgree(a[1..], b[1..], unit_, x, y);
    }
    assert a == [a[0]] + a[1..] && b == [b[0]] + b[1..];
  }

  lemma ClauseStarts(claims: seq<Claim>, unit_: string, after: string)
    requires claims != [] && AllDigital(claims)
    ensures Clause(claims, unit_, after) != [] && IsDigit(Clause(claims, unit_, after)[0])
  {
    assert Digital(claims[0]);
  }

  lemma NowsAgree(a: seq<Claim>, b: seq<Claim>, unit_: string)
    requires AllDigital(a) && AllDigital(b) && NowReduced(a, unit_) == NowReduced(b, unit_)
    ensures a == b
  {
    hide Clause;
    var s := if a == [] then "nil" else Clause(a, unit_, "");
    var t := if b == [] then "nil" else Clause(b, unit_, "");
    assert s == NowReduced(a, unit_)[8..] && t == NowReduced(b, unit_)[8..];
    if a != [] { ClauseStarts(a, unit_, ""); }
    if b != [] { ClauseStarts(b, unit_, ""); }
    if a != [] && b != [] { ClausesAgree(a, b, unit_, "", ""); }
  }

  lemma RemarksAgree(p: seq<Claim>, a: seq<Claim>, q: seq<Claim>, b: seq<Claim>, unit_: string)
    requires AllDigital(p) && AllDigital(a) && AllDigital(q) && AllDigital(b)
    requires RemarkReduced(p, a, unit_) == RemarkReduced(q, b, unit_)
    ensures p == q && a == b
  {
    hide Clause;
    assert (p == [] <==> q == []) by { assert RemarkReduced(p, a, unit_)[0] == RemarkReduced(q, b, unit_)[0]; }
    var x, y := NowReduced(a, unit_), NowReduced(b, unit_);
    if p != [] {
      assert Clause(p, unit_, x) == RemarkReduced(p, a, unit_)[7..];
      assert Clause(q, unit_, y) == RemarkReduced(q, b, unit_)[7..];
      ClausesAgree(p, q, unit_, x, y);
    }
    NowsAgree(a, b, unit_);
  }

  // ---- what the reduction keeps --------------------------------------------------------------------------------

  lemma {:induction false} DigitClaimsDigital(ps: seq<Printed>)
    ensures AllDigital(DigitClaims(ps))
  {
    hide DigitsOf, Render;
    if ps != [] {
      DigitClaimsDigital(ps[1..]);
      NumberReduces(ps[0].percent);
    }
  }

  /** No printed remark loses a leading clause to the rule about "Prepaid Nil". */
  lemma NoPrepaidNil(p: seq<Claim>, a: seq<Claim>, unit_: string)
    requires AllDigital(p)
    ensures !StartsWith(RemarkReduced(p, a, unit_), "prepaidnil")
  {
    hide Clause;
    var s := RemarkReduced(p, a, unit_);
    if p != [] {
      ClauseStarts(p, unit_, NowReduced(a, unit_));
      assert s[7] == Clause(p, unit_, NowReduced(a, unit_))[0];
      assert "prepaidnil"[7] == 'n';
    } else {
      assert s[0] == 'n' && "prepaidnil"[0] == 'p';
    }
  }

  /**
   * Two printed remarks of one unit reduce to one text exactly when their claims, clause by clause, are the same
   * once the points are dropped from every number.
   */
  lemma ReducedAlikeExactlyWhen(a: seq<StageLine>, b: seq<StageLine>, unit_: string)
    ensures NormaliseRemark(OrderedRemark(a, unit_, None)) == NormaliseRemark(OrderedRemark(b, unit_, None)) <==>
      && DigitClaims(PrepaidOf(a)) == DigitClaims(PrepaidOf(b))
      && DigitClaims(NowOf(a)) == DigitClaims(NowOf(b))
  {
    hide NillToNil, KeepMarks, DropLeadingZeros, Lower, RemarkReduced, AllDigital, OrderedRemark, DigitClaims;
    RemarkReduces(a, unit_);
    RemarkReduces(b, unit_);
    DigitClaimsDigital(PrepaidOf(a));
    DigitClaimsDigital(PrepaidOf(b));
    DigitClaimsDigital(NowOf(a));
    DigitClaimsDigital(NowOf(b));
    NoPrepaidNil(DigitClaims(PrepaidOf(a)), DigitClaims(NowOf(a)), Reduce(unit_));
    NoPrepaidNil(DigitClaims(PrepaidOf(b)), DigitClaims(NowOf(b)), Reduce(unit_));
    if NormaliseRemark(OrderedRemark(a, unit_, None)) == NormaliseRemark(OrderedRemark(b, unit_, None)) {
      RemarksAgree(DigitClaims(PrepaidOf(a)), DigitClaims(NowOf(a)),
                   DigitClaims(PrepaidOf(b)), DigitClaims(NowOf(b)), Reduce(unit_));
    }
  }

  // ---- when a claim survives -----------------------------------------------------------------------------------

  /** How many digits a printed number has behind its point. */
  function PlacesOf(s: string): nat { if IndexOf(s, '.') == |s| then 0 else |s| - 1 - IndexOf(s, '.') }

  function Places(ps: seq<Printed>): seq<(nat, nat)> {
    if ps == [] then [] else [(PlacesOf(Render(ps[0].percent)), PlacesOf(Render(ps[0].quantity)))] + Places(ps[1..])
  }

  lemma {:induction false} DigitsOfDigits(s: string)
    requires AllDigits(s)
    ensures DigitsOf(s) == s
    decreases |s|
  {
    if s != [] { DigitsOfDigits(s[1..]); }
  }

  lemma {:induction false} DigitsAcross(a: string, b: string)
    ensures DigitsOf(a + b) == DigitsOf(a) + DigitsOf(b)
    decreases |a|
  {
    if a == [] {
      assert a + b == b;
    } else {
      assert (a + b)[1..] == a[1..] + b;
      DigitsAcross(a[1..], b);
    }
  }

  lemma PointedParts(digits: string, scale: nat)
    requires AllDigits(digits) && |digits| > scale
    ensures DigitsOf(Pointed(digits, scale)) == digits && PlacesOf(Pointed(digits, scale)) == scale
  {
    hide IndexOf, DigitsOf;
    if scale == 0 {
      DigitsOfDigits(digits);
      assert IndexOf(digits, '.') < |digits| ==> IsDigit(digits[IndexOf(digits, '.')]);
    } else {
      var at := |digits| - scale;
      PointBetween(digits[..at], digits[at..]);
      assert digits[..at] + digits[at..] == digits;
    }
  }

  lemma PointBetween(whole: string, fraction: string)
    requires AllDigits(whole) && AllDigits(fraction) && fraction != []
    ensures DigitsOf(whole + "." + fraction) == whole + fraction && PlacesOf(whole + "." + fraction) == |fraction|
  {
    hide IndexOf;
    DigitsOfDigits(whole);
    DigitsOfDigits(fraction);
    DigitsAcross(whole + ".", fraction);
    DigitsAcross(whole, ".");
    assert DigitsOf(".") == [] && whole + [] == whole;
    assert '.' !in whole by { assert forall i :: 0 <= i < |whole| ==> IsDigit(whole[i]); }
    IndexOfSplit(whole, '.', fraction);
  }

  lemma RenderPointed(d: Dec) returns (digits: string, scale: nat)
    requires d.units >= 0
    ensures AllDigits(digits) && |digits| > scale && Render(d) == Pointed(digits, scale)
  {
    hide Val, Normalise;
    var n := Normalise(d);
    NormaliseCanonical(d);
    SignVal(d);
    SignVal(n);
    digits, scale := FormatPointed(n);
  }

  lemma FormatPointed(n: Dec) returns (digits: string, scale: nat)
    requires n.units >= 0
    ensures AllDigits(digits) && |digits| > scale && Format(n) == Pointed(digits, scale)
  {
    hide NatText, Pointed, TextNat;
    NatTextDigits(n.units);
    PadStartValue(NatText(n.units), n.scale + 1);
    digits, scale := PadStart(NatText(n.units), n.scale + 1), n.scale;
  }

  /** A printed number is its digits and the place of its point. */
  lemma NumberExactlyWhen(a: Dec, b: Dec)
    requires a.units >= 0 && b.units >= 0
    ensures Render(a) == Render(b) <==>
      DigitsOf(Render(a)) == DigitsOf(Render(b)) && PlacesOf(Render(a)) == PlacesOf(Render(b))
  {
    hide Render, Pointed, PlacesOf, DigitsOf;
    var digits, scale := RenderPointed(a);
    var digits', scale' := RenderPointed(b);
    PointedParts(digits, scale);
    PointedParts(digits', scale');
  }

  lemma {:induction false} ClaimsExactlyWhen(a: seq<Printed>, b: seq<Printed>)
    requires (forall p :: p in a ==> Spellable(p)) && (forall p :: p in b ==> Spellable(p))
    ensures ClaimsFor(a) == ClaimsFor(b) <==> DigitClaims(a) == DigitClaims(b) && Places(a) == Places(b)
    decreases |a|
  {
    hide Render, PlacesOf, DigitsOf;
    if a != [] && b != [] {
      assert a[0] in a && b[0] in b;
      NumberExactlyWhen(a[0].percent, b[0].percent);
      NumberExactlyWhen(a[0].quantity, b[0].quantity);
      ClaimsExactlyWhen(a[1..], b[1..]);
      HeadAndRest(ClaimFor(a[0]), ClaimsFor(a[1..]), ClaimFor(b[0]), ClaimsFor(b[1..]));
      HeadAndRest(DigitClaim(a[0]), DigitClaims(a[1..]), DigitClaim(b[0]), DigitClaims(b[1..]));
      HeadAndRest((PlacesOf(Render(a[0].percent)), PlacesOf(Render(a[0].quantity))), Places(a[1..]),
                  (PlacesOf(Render(b[0].percent)), PlacesOf(Render(b[0].quantity))), Places(b[1..]));
    }
  }

  lemma HeadAndRest<T>(x: T, xs: seq<T>, y: T, ys: seq<T>)
    ensures [x] + xs == [y] + ys <==> x == y && xs == ys
  {
    assert ([x] + xs)[0] == x && ([y] + ys)[0] == y && ([x] + xs)[1..] == xs && ([y] + ys)[1..] == ys;
  }

  /** Two printed remarks of one unit state the same claims exactly when they reduce alike and their points agree. */
  lemma SameClaimsExactlyWhen(a: seq<StageLine>, b: seq<StageLine>, unit_: string)
    requires NoNegatives(a) && NoNegatives(b)
    ensures ClaimsFor(PrepaidOf(a)) == ClaimsFor(PrepaidOf(b)) && ClaimsFor(NowOf(a)) == ClaimsFor(NowOf(b)) <==>
      && NormaliseRemark(OrderedRemark(a, unit_, None)) == NormaliseRemark(OrderedRemark(b, unit_, None))
      && Places(PrepaidOf(a)) == Places(PrepaidOf(b)) && Places(NowOf(a)) == Places(NowOf(b))
  {
    hide NormaliseRemark, OrderedRemark, ClaimsFor, DigitClaims, Places, Spellable;
    ReducedAlikeExactlyWhen(a, b, unit_);
    PrintedSpellable(a);
    PrintedSpellable(b);
    assert forall p :: p in PrepaidOf(a) || p in NowOf(a) ==> p in PrepaidOf(a) + NowOf(a);
    assert forall p :: p in PrepaidOf(b) || p in NowOf(b) ==> p in PrepaidOf(b) + NowOf(b);
    ClaimsExactlyWhen(PrepaidOf(a), PrepaidOf(b));
    ClaimsExactlyWhen(NowOf(a), NowOf(b));
  }

  predicate Whole(p: Printed) { '.' !in Render(p.percent) && '.' !in Render(p.quantity) }

  predicate AllWhole(ps: seq<Printed>) { forall p :: p in ps ==> Whole(p) }

  lemma {:induction false} WholePlaces(a: seq<Printed>, b: seq<Printed>)
    requires AllWhole(a) && AllWhole(b) && |a| == |b|
    ensures Places(a) == Places(b)
    decreases |a|
  {
    hide Render;
    if a != [] {
      assert Whole(a[0]) && Whole(b[0]);
      assert AllWhole(a[1..]) && AllWhole(b[1..]) by {
        assert forall p :: p in a[1..] ==> p in a;
        assert forall p :: p in b[1..] ==> p in b;
      }
      WholePlaces(a[1..], b[1..]);
    }
  }

  lemma {:induction false} ClaimsLength(ps: seq<Printed>)
    ensures |ClaimsFor(ps)| == |ps|
  {
    if ps != [] { ClaimsLength(ps[1..]); }
  }

  /** Where every printed number is whole, remarks reduce alike exactly when they state the same claims. */
  lemma WholeClaimsSurvive(a: seq<StageLine>, b: seq<StageLine>, unit_: string)
    requires NoNegatives(a) && NoNegatives(b)
    requires AllWhole(PrepaidOf(a) + NowOf(a)) && AllWhole(PrepaidOf(b) + NowOf(b))
    ensures NormaliseRemark(OrderedRemark(a, unit_, None)) == NormaliseRemark(OrderedRemark(b, unit_, None)) <==>
      ClaimsFor(PrepaidOf(a)) == ClaimsFor(PrepaidOf(b)) && ClaimsFor(NowOf(a)) == ClaimsFor(NowOf(b))
  {
    hide NormaliseRemark, OrderedRemark, ClaimsFor, DigitClaims, Places, Whole;
    ReducedAlikeExactlyWhen(a, b, unit_);
    SameClaimsExactlyWhen(a, b, unit_);
    assert forall p :: p in PrepaidOf(a) || p in NowOf(a) ==> p in PrepaidOf(a) + NowOf(a);
    assert forall p :: p in PrepaidOf(b) || p in NowOf(b) ==> p in PrepaidOf(b) + NowOf(b);
    if |PrepaidOf(a)| == |PrepaidOf(b)| { WholePlaces(PrepaidOf(a), PrepaidOf(b)); }
    if |NowOf(a)| == |NowOf(b)| { WholePlaces(NowOf(a), NowOf(b)); }
  }

  // ---- a claim that does not ---------------------------------------------------------------------------------------

  const ONE_AND_A_HALF := Dec(15, 1)
  const FIFTEEN := Dec(15, 0)
  const SEVENTY := Dec(70, 0)

  function Remark(quantity: Dec): string {
    OrderedRemark([StageLine(Supply, SEVENTY, ZERO, quantity)], "Nos", None)
  }

  lemma Numerals()
    ensures Render(ONE_AND_A_HALF) == "1.5" && Render(FIFTEEN) == "15" && Render(SEVENTY) == "70"
  {
    hide PadStart;
    assert NatText(15) == "15" && NatText(70) == "70" by { assert NatText(1) == "1" && NatText(7) == "7"; }
    assert Normalise(ONE_AND_A_HALF) == ONE_AND_A_HALF;
    assert Normalise(FIFTEEN) == FIFTEEN && Normalise(SEVENTY) == SEVENTY;
    assert PadStart("15", 2) == "15" && PadStart("15", 1) == "15" && PadStart("70", 1) == "70" by { AsIs(); }
    assert "15"[..1] == "1" && "15"[1..] == "5" && "1" + "." + "5" == "1.5";
  }

  lemma AsIs()
    ensures PadStart("15", 2) == "15" && PadStart("15", 1) == "15" && PadStart("70", 1) == "70"
  {
  }

  lemma OneClaim(quantity: Dec)
    requires IsPositive(quantity)
    ensures var line := StageLine(Supply, SEVENTY, ZERO, quantity);
      PrepaidOf([line]) == [] && NowOf([line]) == [Printed(SEVENTY, quantity)]
    ensures Remark(quantity) == "Now to pay " + (Render(SEVENTY) + "% for " + Render(quantity) + " " + "Nos") + "."
  {
    hide Render;
    var lines := [StageLine(Supply, SEVENTY, ZERO, quantity)];
    assert PrepaidOf(lines[1..]) == [] && NowOf(lines[1..]) == [];
    FragmentsOfRemark(lines, "Nos");
    OneFragmentList(Printed(SEVENTY, quantity));
  }

  lemma OneFragmentList(p: Printed)
    ensures Fragments([p], "Nos") == [QuantityFragment(p.percent, p.quantity, "Nos")] && Fragments([], "Nos") == []
  {
    assert [p][1..] == [];
  }

  /** The two remarks, as printed: they state different claims and reduce alike. */
  lemma PrintedApart()
    ensures Remark(ONE_AND_A_HALF) == "Now to pay 70% for 1.5 Nos." && Remark(FIFTEEN) == "Now to pay 70% for 15 Nos."
    ensures NormaliseRemark(Remark(ONE_AND_A_HALF)) == NormaliseRemark(Remark(FIFTEEN))
  {
    hide Render, NormaliseRemark, OrderedRemark, PrepaidOf, NowOf, Remark;
    Numerals();
    OneClaim(ONE_AND_A_HALF);
    OneClaim(FIFTEEN);
    ReducedAlike();
    Printed70("1.5");
    Printed70("15");
  }

  lemma Printed70(quantity: string)
    ensures "Now to pay " + ("70" + "% for " + quantity + " " + "Nos") + "."
         == "Now to pay 70% for " + quantity + " Nos."
  {
  }

  lemma ReducedAlike()
    ensures NormaliseRemark(Remark(ONE_AND_A_HALF)) == NormaliseRemark(Remark(FIFTEEN))
  {
    hide Render, NormaliseRemark, DigitsOf, PlacesOf, OrderedRemark, PrepaidOf, NowOf;
    Numerals();
    OneClaim(ONE_AND_A_HALF);
    OneClaim(FIFTEEN);
    PointBetween("1", "5");
    DigitsOfDigits("15");
    assert "1" + "." + "5" == "1.5" && "1" + "5" == "15";
    ReducedAlikeExactlyWhen([StageLine(Supply, SEVENTY, ZERO, ONE_AND_A_HALF)],
                            [StageLine(Supply, SEVENTY, ZERO, FIFTEEN)], "Nos");
  }

  /**
   * A book bills 1.5 at 70%, a figure of 1.05 as coefficients go; the railway's sheet shows 1.05 and says 15.
   * The line is answered "matched".
   */
  lemma LostPointMatches(itemNumber: string)
    ensures var line := BookLine(itemNumber, Remark(ONE_AND_A_HALF), [StageFigures(ONE_AND_A_HALF, ZERO, SEVENTY)]);
      var item := Item(itemNumber, Dec(105, 2), Remark(FIFTEEN));
      Verdicts([line], [item], Coefficient) == [Matched(itemNumber, Coefficient)]
  {
    hide NormaliseRemark, Remark, PhysicalFrom, Expected, Render, Verdicts;
    var stage := StageFigures(ONE_AND_A_HALF, ZERO, SEVENTY);
    var line := BookLine(itemNumber, Remark(ONE_AND_A_HALF), [stage]);
    var item := Item(itemNumber, Dec(105, 2), Remark(FIFTEEN));
    PrintedApart();
    FigureOfThree(stage);
    OneOfEach(line, item, Coefficient);
  }

  lemma OneOfEach(line: BookLine, item: Item, recorded: Way)
    requires line.itemNumber == item.itemNumber
    ensures Verdicts([line], [item], recorded) == [Judge(line, item, recorded)]
  {
    hide Judge, NormaliseItemNumber;
    assert [line][..0] == [] && [item][..0] == [] && line in [line];
    assert BookVerdicts([line], [item], recorded) == [VerdictOn(line, [item], recorded)];
    assert Unmeasured(BookKeys([line]), [item]) == [];
  }

  lemma FigureOfThree(stage: StageFigures)
    requires stage == StageFigures(ONE_AND_A_HALF, ZERO, SEVENTY)
    ensures Render(Expected([stage])) == Render(Dec(105, 2))
  {
    hide Render, Val, Expected;
    ExpectedMeaning([stage]);
    assert [stage][..0] == [];
    ValTimesPower(105, 2);
    ValTimesPower(15, 1);
    ValTimesPower(70, 0);
    ValZero();
    RenderInjective(Expected([stage]), Dec(105, 2));
  }

  // ---- the differences it sets aside -----------------------------------------------------------------------------

  /** Of one character: a small letter, a digit and a percent sign stand, a capital turns small, anything else goes. */
  lemma ReduceOne(c: char)
    ensures Marks([c]) == Reduce([c]) ==
      if 'a' <= c <= 'z' || '0' <= c <= '9' || c == '%' then [c]
      else if 'A' <= c <= 'Z' then [('a' as int + (c as int - 'A' as int)) as char]
      else []
  {
    var low := Lower([c]);
    assert [c][1..] == [] && DropLeadingZeros([c], true) == [c];
    assert low == [LowerChar(c)] && low[1..] == [] && KeepMarks(low[1..]) == [];
    NoNill(KeepMarks(low));
  }

  /** A zero in front of a number's digits goes. */
  lemma PaddingAside(a: string, b: string)
    requires a != [] && !NumberChar(a[|a| - 1]) && b != [] && IsDigit(b[0])
    ensures Reduce(a + ("0" + b)) == Reduce(a + b)
  {
    hide DropLeadingZeros;
    DropAcross(a, "0" + b, true);
    DropAcross(a, b, true);
    DropStep("0" + b, true);
    assert ("0" + b)[1..] == b;
  }

  lemma PrepaidNil()
    ensures Marks("Prepaid Nil ") == Reduce("Prepaid Nil ") == "prepaidnil"
  {
    hide DropLeadingZeros, KeepMarks, NillToNil, Marks, Reduce;
    Blank();
    PrepaidWord();
    NilWord();
    ReduceAcross("Prepaid ", "Nil ");
    assert "Prepaid " + "Nil " == "Prepaid Nil " && "prepaid" + "nil" == "prepaidnil";
  }

  lemma NilWord()
    ensures Marks("Nil ") == Reduce("Nil ") == "nil"
  {
    hide DropLeadingZeros, KeepMarks, NillToNil, Marks;
    Blank();
    assert Lower("Nil") == "nil";
    Worded("Nil ", "", "Nil", "nil", " ");
    NilStands();
  }

  lemma NilStands()
    ensures NillToNil("nil") == "nil" && NillToNil("nill") == "nil"
  {
    NillLetters("nil");
    assert "nil"[1..] == "il" && "il"[1..] == "l" && "l"[1..] == [];
    assert "nill"[..4] == "nill" && "nill"[4..] == [] && NillToNil([]) == [];
  }

  /** "Prepaid Nil" in front of a remark is set aside. */
  lemma PrepaidNilAside(remark: string)
    requires Marks(remark) != [] && Marks(remark)[0] !in {'i', 'l'} && !StartsWith(Reduce(remark), "prepaidnil")
    ensures NormaliseRemark("Prepaid Nil " + remark) == NormaliseRemark(remark)
  {
    hide Marks, Reduce;
    PrepaidNil();
    ReduceAcross("Prepaid Nil ", remark);
    assert |"prepaidnil"| == 10;
    assert ("prepaidnil" + Reduce(remark))[..10] == "prepaidnil";
    assert ("prepaidnil" + Reduce(remark))[10..] == Reduce(remark);
  }

  /** The railway's wording of a claim and the book's reduce alike. */
  lemma RailwayWording(number: Dec)
    requires IsPositive(number)
    ensures NormaliseRemark("Prepaid Nil " + ("Now to Pay " + ("0" + Render(number))))
         == NormaliseRemark("Now to pay " + Render(number))
  {
    hide Marks, Reduce, Render, DigitsOf;
    var ours, padded := "Now to Pay " + Render(number), "Now to Pay " + ("0" + Render(number));
    NumberReduces(number);
    NumberStartsDigit(number);
    LastDigit(DigitsOf(Render(number)));
    NowWords();
    CapitalPay();
    ReduceAcross("Now to pay ", Render(number));
    ReduceAcross("Now to Pay ", Render(number));
    PaddingAside("Now to Pay ", Render(number));
    PaddedMarks("Now to Pay ", Render(number));
    var reduced := "nowtopay" + DigitsOf(Render(number));
    assert reduced[0] == 'n' && "prepaidnil"[0] == 'p';
    PrepaidNilAside(padded);
  }

  lemma PaddedMarks(a: string, b: string)
    requires a != [] && !NumberChar(a[|a| - 1]) && b != [] && IsDigit(b[0])
    ensures Marks(a + ("0" + b)) == Marks(a + b)
  {
    hide DropLeadingZeros;
    DropAcross(a, "0" + b, true);
    DropAcross(a, b, true);
    DropStep("0" + b, true);
    assert ("0" + b)[1..] == b;
  }

  lemma NumberStartsDigit(number: Dec)
    requires IsPositive(number)
    ensures Render(number) != [] && IsDigit(Render(number)[0])
  {
    RenderIsNumber(number);
    NumberStarts(Render(number));
  }

  lemma CapitalPay()
    ensures Marks("Now to Pay ") == Reduce("Now to Pay ") == "nowtopay"
  {
    hide DropLeadingZeros, KeepMarks, NillToNil, Marks, Reduce;
    Blank();
    assert Lower("Now") == "now" && Lower("to") == "to" && Lower("Pay") == "pay";
    Worded("Now ", "", "Now", "now", " ");
    Worded("to ", "", "to", "to", " ");
    Worded("Pay ", "", "Pay", "pay", " ");
    ReduceAcross("to ", "Pay ");
    ReduceAcross("Now ", "to " + "Pay ");
    assert "now" + ("to" + "pay") == "nowtopay" && "Now " + ("to " + "Pay ") == "Now to Pay ";
  }
}
