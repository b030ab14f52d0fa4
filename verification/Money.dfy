/** Rupee text to integer paise and back (money.ts). */
module Money {
  import opened Text
  import opened Decimal

  function UnsignedPaise(body: string): Option<int> {
    var dot := IndexOf(body, '.');
    if dot == |body| then
      if IsDigitRun(body) then Some(TextNat(body) * 100) else None
    else
      var whole, frac := body[..dot], body[dot + 1..];
      if IsDigitRun(whole) && IsDigitRun(frac) && |frac| <= 2 then
        Some(TextNat(whole) * 100 + TextNat(PadEnd(frac, 2)))
      else None
  }

  /** Exact paise; None for what is refused: a third fraction digit, a plus sign, blank text. */
  function ToPaise(text: string): Option<int> {
    var t := Trim(text);
    if StartsWith(t, "-") then
      match UnsignedPaise(t[1..])
      case None => None
      case Some(p) => Some(-p)
    else UnsignedPaise(t)
  }

  function UnsignedPaiseText(paise: nat): string {
    NatText(paise / 100) + "." + PadStart(NatText(paise % 100), 2)
  }

  function PaiseText(paise: int): string {
    if paise < 0 then "-" + UnsignedPaiseText(-paise) else UnsignedPaiseText(paise)
  }

  lemma TwoDigitField(n: nat)
    requires n < 100
    ensures |PadStart(NatText(n), 2)| == 2 && AllDigits(PadStart(NatText(n), 2))
    ensures TextNat(PadStart(NatText(n), 2)) == n
  {
    TextNatOfNatText(n);
    PadStartValue(NatText(n), 2);
  }

  lemma ReadRupees(whole: string, frac: string)
    requires IsDigitRun(whole) && AllDigits(frac) && |frac| == 2
    ensures UnsignedPaise(whole + "." + frac) == Some(TextNat(whole) * 100 + TextNat(frac))
  {
    hide TextNat, IndexOf;
    assert forall i :: 0 <= i < |whole| ==> IsDigit(whole[i]) && whole[i] != '.';
    IndexOfSplit(whole, '.', frac);
    var body := whole + "." + frac;
    assert body[..|whole|] == whole && body[|whole| + 1..] == frac;
  }

  lemma UnsignedRoundTrip(paise: nat)
    ensures UnsignedPaise(UnsignedPaiseText(paise)) == Some(paise)
    ensures var t := UnsignedPaiseText(paise); t != [] && IsDigit(t[0]) && IsDigit(t[|t| - 1])
  {
    TextNatOfNatText(paise / 100);
    NatTextDigits(paise / 100);
    TwoDigitField(paise % 100);
    ReadRupees(NatText(paise / 100), PadStart(NatText(paise % 100), 2));
  }

  lemma ReadSigned(body: string, p: int)
    requires body != [] && IsDigit(body[0]) && IsDigit(body[|body| - 1]) && UnsignedPaise(body) == Some(p)
    ensures ToPaise(body) == Some(p) && ToPaise("-" + body) == Some(-p)
  {
    TrimTight(body);
    var signed := "-" + body;
    assert signed[|signed| - 1] == body[|body| - 1];
    TrimTight(signed);
    assert signed[1..] == body;
  }

  /** Every paise count survives being printed and read again. */
  lemma PaiseRoundTrip(paise: int)
    ensures ToPaise(PaiseText(paise)) == Some(paise)
  {
    UnsignedRoundTrip(Abs(paise));
    ReadSigned(UnsignedPaiseText(Abs(paise)), Abs(paise));
  }

  /** A whole number of rupees, or one with one or two digits behind the point, is read; any more digits are refused. */
  lemma RupeesExactlyWhen(whole: string, frac: string)
    requires AllDigits(whole) && AllDigits(frac)
    ensures UnsignedPaise(whole) == if whole == "" then None else Some(TextNat(whole) * 100)
    ensures UnsignedPaise(whole + "." + frac) ==
      if whole == "" || frac == "" || |frac| > 2 then None
      else Some(TextNat(whole) * 100 + (if |frac| == 1 then 10 else 1) * TextNat(frac))
  {
    hide TextNat, IndexOf;
    assert '.' !in whole by { assert forall i :: 0 <= i < |whole| ==> IsDigit(whole[i]); }
    assert IndexOf(whole, '.') == |whole|;
    IndexOfSplit(whole, '.', frac);
    var body := whole + "." + frac;
    assert body[..|whole|] == whole && body[|whole| + 1..] == frac;
    if |frac| == 1 { TenthsPadded(frac); }
  }

  lemma TenthsPadded(frac: string)
    requires AllDigits(frac) && |frac| == 1
    ensures AllDigits(PadEnd(frac, 2)) && TextNat(PadEnd(frac, 2)) == 10 * TextNat(frac)
  {
    var padded := PadEnd(frac, 2);
    assert padded == frac + Zeros(1);
    ZerosValue(1);
    TextNatConcat(frac, Zeros(1));
    assert Pow10(1) == 10;
  }

  /** Nothing else is read: what is read is digits, or digits on both sides of a point. */
  lemma OnlyFiguresRead(body: string)
    requires UnsignedPaise(body).Some?
    ensures IsDigitRun(body)
         || exists whole, frac :: IsDigitRun(whole) && IsDigitRun(frac) && |frac| <= 2 && body == whole + "." + frac
  {
    hide TextNat;
    var dot := IndexOf(body, '.');
    if dot < |body| {
      assert body == body[..dot] + "." + body[dot + 1..];
    }
  }

  /** A minus in front negates, and blanks around the text are set aside. */
  lemma SignsRead(body: string)
    requires body != "" && IsDigit(body[0]) && IsDigit(body[|body| - 1])
    ensures ToPaise(body) == ToPaise(" " + body + " ") == UnsignedPaise(body)
    ensures UnsignedPaise(body).Some? ==> ToPaise("-" + body) == Some(-UnsignedPaise(body).value)
  {
    hide UnsignedPaise;
    TrimTight(body);
    TrimTight("-" + body);
    var padded := " " + body + " ";
    assert padded[1..] == body + " " && (body + " ")[..|body|] == body;
    assert TrimStart(padded) == TrimStart(body + " ") == body + " ";
    assert TrimEnd(body + " ") == TrimEnd(body) == body;
    assert ("-" + body)[1..] == body;
  }
}
