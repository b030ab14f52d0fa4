/**
 * Reading percentage claims back out of a remark (billing-baseline-propose.ts): the pattern is
 * digits, an optional fraction, '%', 'for', digits, an optional fraction, searched left to right.
 */
module RemarkClaims {
  import opened Text
  import opened Decimal
  import opened MbRemark

  function DigitsLength(s: string): (n: nat)
    ensures n <= |s| && AllDigits(s[..n])
    ensures n < |s| ==> !IsDigit(s[n])
  {
    if s == [] || !IsDigit(s[0]) then 0
    else
      var n := 1 + DigitsLength(s[1..]);
      assert s[..n] == [s[0]] + s[1..][..n - 1];
      n
  }

  /** The length of the digits, and of the fraction behind them when there is one. */
  function NumberLength(s: string): (n: nat)
    ensures n <= |s|
  {
    var whole := DigitsLength(s);
    if whole == 0 || whole == |s| || s[whole] != '.' then whole
    else
      var fraction := DigitsLength(s[whole + 1..]);
      if fraction == 0 then whole else whole + 1 + fraction
  }

  datatype Claim = Claim(percent: string, quantity: string)

  datatype Match = Match(claim: Claim, length: nat)

  /** The length of "% for " with the spacing the pattern allows: none is needed before "for". */
  function MiddleLength(s: string): (n: Option<nat>)
    ensures n.Some? ==> n.value <= |s|
  {
    var q := SpacesLength(s);
    if q == |s| || s[q] != '%' then None
    else
      var r := q + 1 + SpacesLength(s[q + 1..]);
      if |s| < r + 3 || s[r..r + 3] != "for" || SpacesLength(s[r + 3..]) == 0 then None
      else Some(r + 3 + SpacesLength(s[r + 3..]))
  }

  /** The pattern at the start of s.  No shorter reading of a part can succeed where the longest fails. */
  function MatchHere(s: string): (m: Option<Match>)
    ensures m.Some? ==> 0 < m.value.length <= |s|
  {
    var p := NumberLength(s);
    var middle := MiddleLength(s[p..]);
    if p == 0 || middle == None then None
    else
      var t := p + middle.value;
      var u := t + NumberLength(s[t..]);
      if u == t then None else Some(Match(Claim(s[..p], s[t..u]), u))
  }

  /** Every match, left to right, none overlapping. */
  function FindClaims(s: string): seq<Claim>
    decreases |s|
  {
    if s == [] then []
    else
      var m := MatchHere(s);
      if m.Some? then [m.value.claim] + FindClaims(s[m.value.length..]) else FindClaims(s[1..])
  }

  // ---- what cannot match ----------------------------------------------------------

  predicate BeforePercent(c: char) { IsDigit(c) || c == '.' || IsSpace(c) }

  lemma NumberLengthChars(s: string)
    ensures forall i :: 0 <= i < NumberLength(s) ==> IsDigit(s[i]) || s[i] == '.'
  {
    hide DigitsLength;
    var whole := DigitsLength(s);
    assert forall i :: 0 <= i < whole ==> IsDigit(s[..whole][i]);
    if whole < |s| {
      var rest := s[whole + 1..];
      var fraction := DigitsLength(rest);
      assert forall i :: whole + 1 <= i < whole + 1 + fraction ==> s[i] == rest[..fraction][i - whole - 1];
    }
  }

  /** A match reaches a percent sign through digits, points and spaces alone. */
  lemma MatchReachesPercent(s: string) returns (q: nat)
    requires MatchHere(s).Some?
    ensures q < |s| && s[q] == '%' && forall i :: 0 <= i < q ==> BeforePercent(s[i])
  {
    hide NumberLength;
    var p := NumberLength(s);
    var spaces := SpacesLength(s[p..]);
    q := p + spaces;
    NumberLengthChars(s);
    assert forall i :: p <= i < q ==> s[i] == s[p..][i - p];
  }

  lemma {:induction false} NoPercentNoClaims(s: string)
    requires '%' !in s
    ensures FindClaims(s) == []
    decreases |s|
  {
    hide MatchHere;
    if s != [] {
      if MatchHere(s).Some? {
        var q := MatchReachesPercent(s);
      }
      NoPercentNoClaims(s[1..]);
    }
  }

  /** Wording that ends in a letter and a space, and holds no percent sign. */
  predicate IsLead(lead: string) {
    && |lead| >= 2 && '%' !in lead && lead[|lead| - 1] == ' '
    && !BeforePercent(lead[|lead| - 2])
  }

  lemma {:induction false} LeadIsSkipped(lead: string, rest: string)
    requires IsLead(lead)
    ensures FindClaims(lead + rest) == FindClaims(rest)
    decreases |lead|
  {
    hide MatchHere;
    var s := lead + rest;
    NoMatchInLead(lead, rest);
    if |lead| > 2 {
      assert s[1..] == lead[1..] + rest;
      LeadIsSkipped(lead[1..], rest);
    } else {
      assert s[1..] == [' '] + rest && s[1..][1..] == rest;
      NoMatchAtSpace(rest);
    }
  }

  lemma NoMatchInLead(lead: string, rest: string)
    requires IsLead(lead)
    ensures MatchHere(lead + rest) == None
  {
    hide MatchHere, IsLead;
    if MatchHere(lead + rest).Some? {
      var q := MatchReachesPercent(lead + rest);
      PercentBehindLead(lead, rest, q);
    }
  }

  lemma PercentBehindLead(lead: string, rest: string, q: nat)
    requires IsLead(lead) && q < |lead + rest| && (lead + rest)[q] == '%'
    ensures 0 <= |lead| - 2 < q && !BeforePercent((lead + rest)[|lead| - 2])
  {
    assert forall i :: 0 <= i < |lead| ==> (lead + rest)[i] == lead[i] && lead[i] in lead;
  }

  lemma NoMatchAtSpace(rest: string)
    ensures MatchHere([' '] + rest) == None
  {
  }

  // ---- what does match --------------------------------------------------------------

  /** Digits, or digits, a point and digits. */
  predicate IsNumber(t: string) {
    IsDigitRun(t) || exists at :: 0 < at < |t| - 1 && t[at] == '.' && IsDigitRun(t[..at]) && IsDigitRun(t[at + 1..])
  }

  lemma {:induction false} DigitsLengthOf(run: string, rest: string)
    requires AllDigits(run) && (rest != [] ==> !IsDigit(rest[0]))
    ensures DigitsLength(run + rest) == |run|
  {
    if run == [] {
      assert run + rest == rest;
    } else {
      assert (run + rest)[1..] == run[1..] + rest;
      DigitsLengthOf(run[1..], rest);
    }
  }

  predicate EndsNumber(rest: string) { rest == [] || (!IsDigit(rest[0]) && rest[0] != '.') }

  lemma NumberLengthOf(t: string, rest: string)
    requires IsNumber(t) && EndsNumber(rest)
    ensures NumberLength(t + rest) == |t|
  {
    hide DigitsLength;
    if IsDigitRun(t) {
      DigitsLengthOf(t, rest);
    } else {
      var at :| 0 < at < |t| - 1 && t[at] == '.' && IsDigitRun(t[..at]) && IsDigitRun(t[at + 1..]);
      assert t == t[..at] + ['.'] + t[at + 1..];
      PointedLength(t[..at], t[at + 1..], rest);
    }
  }

  lemma PointedLength(whole: string, fraction: string, rest: string)
    requires IsDigitRun(whole) && IsDigitRun(fraction) && EndsNumber(rest)
    ensures NumberLength(whole + ['.'] + fraction + rest) == |whole| + 1 + |fraction|
  {
    hide DigitsLength;
    var s := whole + ['.'] + fraction + rest;
    var tail := ['.'] + (fraction + rest);
    DigitsLengthOf(whole, tail);
    assert s == whole + tail;
    DigitsLengthOf(fraction, rest);
    assert s[|whole| + 1..] == fraction + rest;
  }

  /** What stands between the two numbers of a claim. */
  lemma ClaimTail(after: string)
    requires after != [] && IsDigit(after[0])
    ensures MiddleLength("% for " + after) == Some(6)
  {
    var tail := "% for " + after;
    SpacesLengthOne("for " + after);
    assert tail[1..] == " " + ("for " + after);
    SpacesLengthOne(after);
    assert tail[5..] == " " + after;
    assert tail[2..5] == "for";
  }

  lemma MatchOfParts(p: string, tail: string, q: string, rest: string)
    requires p != [] && q != [] && |tail| == 6 + |q + rest| && tail[6..] == q + rest && MiddleLength(tail) == Some(6)
    requires NumberLength(p + tail) == |p| && NumberLength(q + rest) == |q|
    ensures MatchHere(p + tail) == Some(Match(Claim(p, q), |p| + 6 + |q|))
  {
    hide NumberLength, MiddleLength;
    var s := p + tail;
    assert s[..|p|] == p && s[|p|..] == tail && s[|p| + 6..] == tail[6..];
    assert s[|p| + 6..|p| + 6 + |q|] == tail[6..][..|q|] == q;
  }

  /** "<p>% for <q>" with anything but a digit or a point behind it is read as that claim. */
  lemma ClaimIsRead(p: string, q: string, rest: string)
    requires IsNumber(p) && IsNumber(q) && EndsNumber(rest)
    ensures FindClaims(p + ("% for " + (q + rest))) == [Claim(p, q)] + FindClaims(rest)
  {
    hide NumberLength, IsNumber, MatchHere, SpacesLength;
    NumberStarts(p);
    NumberStarts(q);
    ClaimTail(q + rest);
    ghost var tail := "% for " + (q + rest);
    NumberLengthOf(p, tail);
    NumberLengthOf(q, rest);
    MatchOfParts(p, tail, q, rest);
    assert (p + tail)[|p| + 6 + |q|..] == rest;
  }

  lemma NumberStarts(t: string)
    requires IsNumber(t)
    ensures t != [] && IsDigit(t[0])
  {
  }

  lemma SpacesLengthOne(after: string)
    requires after != [] && !IsSpace(after[0])
    ensures SpacesLength(" " + after) == 1
  {
    assert (" " + after)[1..] == after;
  }

  // ---- the remark as leads and claims ------------------------------------------------

  datatype Printed = Printed(percent: Dec, quantity: Dec)

  predicate Spellable(p: Printed) { p.percent.units >= 0 && p.quantity.units >= 0 }

  lemma RenderIsNumber(d: Dec)
    requires d.units >= 0
    ensures IsNumber(Render(d))
  {
    var n := Normalise(d);
    NormaliseCanonical(d);
    SignVal(d);
    SignVal(n);
    FormatIsNumber(n);
  }

  lemma FormatIsNumber(n: Dec)
    requires n.units >= 0
    ensures IsNumber(Format(n))
  {
    hide IsNumber, Pointed, NatText, AllDigits;
    NatTextDigits(n.units);
    PadStartValue(NatText(n.units), n.scale + 1);
    PointedIsNumber(PadStart(NatText(n.units), n.scale + 1), n.scale);
  }

  lemma PointedIsNumber(digits: string, scale: nat)
    requires AllDigits(digits) && |digits| > scale
    ensures IsNumber(Pointed(digits, scale))
  {
    if scale > 0 {
      var at := |digits| - scale;
      var t := Pointed(digits, scale);
      assert t[..at] == digits[..at] && t[at + 1..] == digits[at..] && t[at] == '.';
    }
  }

  function ClaimFor(p: Printed): Claim { Claim(Render(p.percent), Render(p.quantity)) }

  function ClaimsFor(ps: seq<Printed>): seq<Claim> {
    if ps == [] then [] else [ClaimFor(ps[0])] + ClaimsFor(ps[1..])
  }

  function Fragments(ps: seq<Printed>, unit_: string): seq<string> {
    if ps == [] then [] else [QuantityFragment(ps[0].percent, ps[0].quantity, unit_)] + Fragments(ps[1..], unit_)
  }

  /** A clause: its lead, its fragments joined by " and ", and whatever follows the last unit. */
  lemma {:induction false} ClauseIsRead(lead: string, ps: seq<Printed>, unit_: string, after: string)
    requires ps != [] && IsLead(lead) && '%' !in unit_ && forall p :: p in ps ==> Spellable(p)
    ensures FindClaims(lead + (JoinWith(Fragments(ps, unit_), " and ") + after))
         == ClaimsFor(ps) + FindClaims(" " + (unit_ + after))
    decreases |ps|
  {
    hide FindClaims, Render, IsLead;
    var p := ps[0];
    assert p in ps;
    if |ps| == 1 {
      OneFragment(p, ps, unit_, after);
      FragmentIsRead(lead, p, " " + (unit_ + after));
      assert ClaimsFor(ps) == [ClaimFor(p)] + ClaimsFor([]);
    } else {
      var more := JoinWith(Fragments(ps[1..], unit_), " and ") + after;
      var next := " " + unit_ + " and ";
      FirstFragment(p, ps, unit_, after, more, next);
      FragmentIsRead(lead, p, next + more);
      assert IsLead(next) by { AndIsLead(unit_); }
      ClauseIsRead(next, ps[1..], unit_, after);
    }
  }

  lemma AndIsLead(unit_: string)
    requires '%' !in unit_
    ensures IsLead(" " + unit_ + " and ")
  {
    var next := " " + unit_ + " and ";
    assert next[|next| - 2] == 'd';
  }

  lemma OneFragment(p: Printed, ps: seq<Printed>, unit_: string, after: string)
    requires ps == [p]
    ensures JoinWith(Fragments(ps, unit_), " and ") + after
         == Render(p.percent) + ("% for " + (Render(p.quantity) + (" " + (unit_ + after))))
  {
    hide Render;
    assert Fragments(ps[1..], unit_) == [];
    assert Fragments(ps, unit_) == [QuantityFragment(p.percent, p.quantity, unit_)];
  }

  lemma FirstFragment(p: Printed, ps: seq<Printed>, unit_: string, after: string, more: string, next: string)
    requires |ps| > 1 && ps[0] == p && next == " " + unit_ + " and "
    requires more == JoinWith(Fragments(ps[1..], unit_), " and ") + after
    ensures JoinWith(Fragments(ps, unit_), " and ") + after
         == Render(p.percent) + ("% for " + (Render(p.quantity) + (next + more)))
  {
    hide Render, QuantityFragment, JoinWith;
    var fs := Fragments(ps, unit_);
    assert |fs| > 1 && fs[1..] == Fragments(ps[1..], unit_) && fs[0] == QuantityFragment(p.percent, p.quantity, unit_);
    JoinFirst(fs, " and ");
    FragmentText(p, unit_, " and ", more, next);
    assert JoinWith(fs, " and ") + after == fs[0] + " and " + more;
  }

  lemma JoinFirst(fs: seq<string>, separator: string)
    requires |fs| > 1
    ensures JoinWith(fs, separator) == fs[0] + separator + JoinWith(fs[1..], separator)
  {
  }

  lemma FragmentText(p: Printed, unit_: string, separator: string, more: string, next: string)
    requires next == " " + unit_ + separator
    ensures QuantityFragment(p.percent, p.quantity, unit_) + separator + more
         == Render(p.percent) + ("% for " + (Render(p.quantity) + (next + more)))
  {
    hide Render;
  }

  lemma FragmentIsRead(lead: string, p: Printed, rest: string)
    requires IsLead(lead) && Spellable(p) && EndsNumber(rest)
    ensures FindClaims(lead + (Render(p.percent) + ("% for " + (Render(p.quantity) + rest))))
         == [ClaimFor(p)] + FindClaims(rest)
  {
    hide FindClaims, IsNumber, Render;
    RenderIsNumber(p.percent);
    RenderIsNumber(p.quantity);
    LeadIsSkipped(lead, Render(p.percent) + ("% for " + (Render(p.quantity) + rest)));
    ClaimIsRead(Render(p.percent), Render(p.quantity), rest);
  }

  // ---- a whole remark -----------------------------------------------------------------

  function PrepaidOf(lines: seq<StageLine>): seq<Printed> {
    if lines == [] then []
    else
      var s, rest := lines[0], PrepaidOf(lines[1..]);
      if IsPositive(s.percent) && IsPositive(s.prior) then [Printed(s.percent, s.prior)] + rest else rest
  }

  function NowOf(lines: seq<StageLine>): seq<Printed> {
    if lines == [] then []
    else
      var s, rest := lines[0], NowOf(lines[1..]);
      if IsPositive(s.delta) then [Printed(s.percent, s.delta)] + rest else rest
  }

  lemma {:induction false} FragmentsOfRemark(lines: seq<StageLine>, unit_: string)
    ensures PrepaidFragments(lines, unit_, None) == Fragments(PrepaidOf(lines), unit_)
    ensures NowFragments(lines, unit_, None) == Fragments(NowOf(lines), unit_)
  {
    if lines != [] { FragmentsOfRemark(lines[1..], unit_); }
  }

  predicate NoNegatives(lines: seq<StageLine>) {
    forall l :: l in lines ==> l.percent.units >= 0 && l.prior.units >= 0 && l.delta.units >= 0
  }

  lemma {:induction false} PrintedSpellable(lines: seq<StageLine>)
    requires NoNegatives(lines)
    ensures forall p :: p in PrepaidOf(lines) + NowOf(lines) ==> Spellable(p)
  {
    if lines != [] {
      assert lines[0] in lines && forall l :: l in lines[1..] ==> l in lines;
      PrintedSpellable(lines[1..]);
    }
  }

  /** The remark of an item without a cadence states exactly its printed stages, prepaid first. */
  lemma RemarkIsRead(lines: seq<StageLine>, unit_: string)
    requires NoNegatives(lines) && '%' !in unit_
    ensures FindClaims(OrderedRemark(lines, unit_, None)) == ClaimsFor(PrepaidOf(lines)) + ClaimsFor(NowOf(lines))
  {
    FragmentsOfRemark(lines, unit_);
    PrintedSpellable(lines);
    TwoClausesAreRead(PrepaidOf(lines), NowOf(lines), unit_);
  }

  function NowClause(now: seq<Printed>, unit_: string): string {
    if now == [] then "Now to pay nill." else "Now to pay " + JoinWith(Fragments(now, unit_), " and ") + "."
  }

  lemma TwoClausesAreRead(prepaid: seq<Printed>, now: seq<Printed>, unit_: string)
    requires '%' !in unit_ && forall p :: p in prepaid + now ==> Spellable(p)
    ensures var clause, joined := NowClause(now, unit_), JoinWith(Fragments(prepaid, unit_), " and ");
      FindClaims(if prepaid == [] then clause else "Prepaid " + joined + "." + " " + clause)
      == ClaimsFor(prepaid) + ClaimsFor(now)
  {
    hide FindClaims, NowClause, JoinWith, Fragments, Spellable, ClaimsFor;
    assert forall p :: p in prepaid ==> p in prepaid + now;
    assert forall p :: p in now ==> p in prepaid + now;
    if prepaid == [] {
      NowClauseIsRead("", now, unit_);
      assert "" + NowClause(now, unit_) == NowClause(now, unit_);
      assert ClaimsFor(prepaid) + ClaimsFor(now) == ClaimsFor(now) by { assert ClaimsFor([]) == [] by { NoClaims(); } }
    } else {
      var clause := NowClause(now, unit_);
      PrepaidIsRead(prepaid, unit_, clause);
      NowClauseIsRead(" " + unit_ + ". ", now, unit_);
    }
  }

  lemma NoClaims()
    ensures ClaimsFor([]) == []
  {
  }

  lemma PrepaidIsRead(prepaid: seq<Printed>, unit_: string, clause: string)
    requires prepaid != [] && '%' !in unit_ && forall p :: p in prepaid ==> Spellable(p)
    ensures FindClaims("Prepaid " + JoinWith(Fragments(prepaid, unit_), " and ") + "." + " " + clause)
         == ClaimsFor(prepaid) + FindClaims(" " + unit_ + ". " + clause)
  {
    hide FindClaims, JoinWith, Fragments, ClaimsFor, Spellable;
    var joined, after := JoinWith(Fragments(prepaid, unit_), " and "), ". " + clause;
    ClauseIsRead("Prepaid ", prepaid, unit_, after);
    assert "Prepaid " + joined + "." + " " + clause == "Prepaid " + (joined + after);
    assert " " + (unit_ + after) == " " + unit_ + ". " + clause;
  }

  lemma NowClauseIsRead(before: string, now: seq<Printed>, unit_: string)
    requires '%' !in before && '%' !in unit_ && forall p :: p in now ==> Spellable(p)
    ensures FindClaims(before + NowClause(now, unit_)) == ClaimsFor(now)
  {
    hide FindClaims, JoinWith, Fragments, Spellable;
    if now == [] {
      NoPercentNoClaims(before + "Now to pay nill.");
    } else {
      var lead, joined := before + "Now to pay ", JoinWith(Fragments(now, unit_), " and ");
      assert before + NowClause(now, unit_) == lead + (joined + ".");
      assert lead[|lead| - 2] == 'y';
      ClauseIsRead(lead, now, unit_, ".");
      NoPercentNoClaims(" " + (unit_ + "."));
      assert ClaimsFor(now) + [] == ClaimsFor(now);
    }
  }
}
