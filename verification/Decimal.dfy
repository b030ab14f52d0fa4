/** The exact-decimal core: (units, scale) pairs, their text, and commercial rounding. */
module Decimal {
  import opened Text

  /** BigInt division and remainder, which truncate towards zero. */
  function TruncDiv(a: int, b: int): (q: int)
    requires b > 0
  {
    if a >= 0 then a / b else -((-a) / b)
  }

  function TruncMod(a: int, b: int): (r: int)
    requires b > 0
  {
    a - TruncDiv(a, b) * b
  }

  /** units / 10^scale, exactly. */
  datatype Dec = Dec(units: int, scale: nat)

  /** The number a decimal stands for: one division by ten for each fraction digit. */
  ghost function Val(d: Dec): real
    decreases d.scale
  {
    if d.scale == 0 then d.units as real else Val(Dec(d.units, d.scale - 1)) / 10.0
  }

  lemma ValZero()
    ensures Val(ZERO) == 0.0
  {
  }

  lemma {:induction false} ValTimesPower(units: int, scale: nat)
    ensures Val(Dec(units, scale)) * Pow10(scale) as real == units as real
  {
    if scale > 0 {
      ValTimesPower(units, scale - 1);
      var v, p := Val(Dec(units, scale - 1)), Pow10(scale - 1) as real;
      assert Pow10(scale) as real == 10.0 * p;
      assert (v / 10.0) * (10.0 * p) == v * p;
    }
  }

  const ZERO := Dec(0, 0)

  function Rescale(d: Dec, scale: nat): Dec
    requires scale >= d.scale
  {
    Dec(d.units * Pow10(scale - d.scale), scale)
  }

  function Max(a: nat, b: nat): nat { if a >= b then a else b }

  function Abs(x: int): nat { if x < 0 then -x else x }

  function Add(a: Dec, b: Dec): Dec {
    var scale := Max(a.scale, b.scale);
    Dec(Rescale(a, scale).units + Rescale(b, scale).units, scale)
  }

  function Neg(d: Dec): Dec { Dec(-d.units, d.scale) }

  function Sub(a: Dec, b: Dec): Dec { Add(a, Neg(b)) }

  function Mul(a: Dec, b: Dec): Dec { Dec(a.units * b.units, a.scale + b.scale) }

  predicate IsPositive(d: Dec) { d.units > 0 }

  predicate IsNegative(d: Dec) { d.units < 0 }

  /** The smaller of two decimals, in its own spelling. */
  function Min(a: Dec, b: Dec): Dec { if IsNegative(Sub(a, b)) then a else b }

  // ---- what the operations mean -----------------------------------------

  lemma {:induction false} ValOfSum(u: int, v: int, scale: nat)
    ensures Val(Dec(u + v, scale)) == Val(Dec(u, scale)) + Val(Dec(v, scale))
  {
    if scale > 0 { ValOfSum(u, v, scale - 1); }
  }

  lemma {:induction false} ValOfMultiple(k: int, u: int, scale: nat)
    ensures Val(Dec(k * u, scale)) == k as real * Val(Dec(u, scale))
  {
    if scale > 0 { ValOfMultiple(k, u, scale - 1); } else { RealProduct(k, u); }
  }

  lemma {:induction false} RescaleVal(d: Dec, scale: nat)
    requires scale >= d.scale
    ensures Val(Rescale(d, scale)) == Val(d)
    decreases scale
  {
    if scale > d.scale {
      var u := Rescale(d, scale - 1).units;
      RescaleVal(d, scale - 1);
      TenTimes(d.units, Pow10(scale - 1 - d.scale));
      assert Rescale(d, scale) == Dec(10 * u, scale);
      ValOfMultiple(10, u, scale - 1);
    }
  }

  lemma TenTimes(u: int, k: int)
    ensures u * (10 * k) == 10 * (u * k)
  {
  }

  lemma RealProduct(a: int, b: int)
    ensures (a * b) as real == a as real * b as real
  {
  }

  lemma AddVal(a: Dec, b: Dec)
    ensures Val(Add(a, b)) == Val(a) + Val(b)
  {
    var s := Max(a.scale, b.scale);
    RescaleVal(a, s);
    RescaleVal(b, s);
    ValOfSum(Rescale(a, s).units, Rescale(b, s).units, s);
  }

  lemma NegVal(d: Dec)
    ensures Val(Neg(d)) == -Val(d)
  {
    ValOfMultiple(-1, d.units, d.scale);
  }

  lemma SubVal(a: Dec, b: Dec)
    ensures Val(Sub(a, b)) == Val(a) - Val(b)
  {
    NegVal(b);
    AddVal(a, Neg(b));
  }

  lemma {:induction false} MulVal(a: Dec, b: Dec)
    ensures Val(Mul(a, b)) == Val(a) * Val(b)
    decreases b.scale
  {
    if b.scale == 0 {
      ValOfMultiple(b.units, a.units, a.scale);
      assert a.units * b.units == b.units * a.units;
    } else {
      var c := Dec(b.units, b.scale - 1);
      MulVal(a, c);
      assert Val(a) * (Val(c) / 10.0) == (Val(a) * Val(c)) / 10.0;
    }
  }

  lemma {:induction false} SignVal(d: Dec)
    ensures IsPositive(d) <==> Val(d) > 0.0
    ensures IsNegative(d) <==> Val(d) < 0.0
    decreases d.scale
  {
    if d.scale > 0 { SignVal(Dec(d.units, d.scale - 1)); }
  }

  lemma MinVal(a: Dec, b: Dec)
    ensures Min(a, b) == a || Min(a, b) == b
    ensures Val(Min(a, b)) == if Val(a) <= Val(b) then Val(a) else Val(b)
  {
    SubVal(a, b);
    SignVal(Sub(a, b));
  }

  // ---- rounding ----------------------------------------------------------

  /** Rounds to `scale` fraction digits, half away from zero; the result counts units of 10^-scale. */
  function RoundScaled(d: Dec, scale: nat): int {
    if d.scale <= scale then Rescale(d, scale).units
    else
      var divisor := Pow10(d.scale - scale);
      var quotient := TruncDiv(d.units, divisor);
      var remainder := TruncMod(d.units, divisor);
      if Abs(remainder) * 2 >= divisor then quotient + (if d.units < 0 then -1 else 1)
      else quotient
  }

  /** Half-away-from-zero division on integers, characterised without division. */
  ghost predicate RoundsTo(n: int, divisor: nat, r: int) {
    if n >= 0 then 2 * r * divisor - divisor <= 2 * n < 2 * r * divisor + divisor
    else 2 * r * divisor - divisor < 2 * n <= 2 * r * divisor + divisor
  }

  lemma TruncDivMod(a: int, b: int)
    requires b > 0
    ensures a == TruncDiv(a, b) * b + TruncMod(a, b)
    ensures a >= 0 ==> 0 <= TruncMod(a, b) < b
    ensures a < 0 ==> -b < TruncMod(a, b) <= 0
  {
  }

  lemma RoundScaledRoundsTo(d: Dec, scale: nat)
    requires d.scale > scale
    ensures RoundsTo(d.units, Pow10(d.scale - scale), RoundScaled(d, scale))
  {
    var divisor := Pow10(d.scale - scale);
    TruncDivMod(d.units, divisor);
    var q := TruncDiv(d.units, divisor);
    assert (q + 1) * divisor == q * divisor + divisor;
    assert (q - 1) * divisor == q * divisor - divisor;
    var r := RoundScaled(d, scale);
    assert r == q || r == q + 1 || r == q - 1;
    assert 2 * r * divisor == 2 * (r * divisor);
  }

  lemma RoundsToUnique(n: int, divisor: nat, r: int, s: int)
    requires divisor > 0 && RoundsTo(n, divisor, r) && RoundsTo(n, divisor, s)
    ensures r == s
  {
    if r < s { RoundsToOrdered(n, n, divisor, s, r); }
    if s < r { RoundsToOrdered(n, n, divisor, r, s); }
  }

  lemma RoundsToOrdered(m: int, n: int, divisor: nat, r: int, s: int)
    requires divisor > 0 && m <= n && RoundsTo(m, divisor, r) && RoundsTo(n, divisor, s)
    ensures r <= s
  {
    AtLeastOneTimes(r - s, divisor);
    assert (r - s) * divisor == r * divisor - s * divisor;
    assert 2 * r * divisor == 2 * (r * divisor) && 2 * s * divisor == 2 * (s * divisor);
  }

  lemma AtLeastOneTimes(x: int, y: nat)
    ensures x >= 1 ==> x * y >= y
  {
  }

  lemma RescaleRoundsTo(d: Dec, scale: nat, s: nat)
    requires s >= d.scale && s >= scale
    ensures RoundsTo(Rescale(d, s).units, Pow10(s - scale), RoundScaled(d, scale))
  {
    if d.scale <= scale {
      Pow10Add(scale - d.scale, s - scale);
      ExactRoundsTo(d.units, Pow10(scale - d.scale), Pow10(s - scale));
    } else {
      RoundScaledRoundsTo(d, scale);
      Pow10Add(s - d.scale, d.scale - scale);
      ScaleRoundsTo(d.units, Pow10(d.scale - scale), RoundScaled(d, scale), Pow10(s - d.scale));
    }
  }

  lemma ExactRoundsTo(n: int, k: nat, divisor: nat)
    requires divisor > 0
    ensures RoundsTo(n * (k * divisor), divisor, n * k)
  {
    assert n * (k * divisor) == (n * k) * divisor;
    assert 2 * (n * k) * divisor == 2 * ((n * k) * divisor);
  }

  lemma ScaleRoundsTo(n: int, divisor: nat, r: int, k: nat)
    requires k > 0 && RoundsTo(n, divisor, r)
    ensures RoundsTo(n * k, k * divisor, r)
  {
    var low, high := 2 * r * divisor - divisor, 2 * r * divisor + divisor;
    assert 2 * r * (k * divisor) == (2 * r * divisor) * k;
    assert 2 * (n * k) == (2 * n) * k;
    assert low * k == 2 * r * (k * divisor) - k * divisor;
    assert high * k == 2 * r * (k * divisor) + k * divisor;
    ScaleOrder(low, 2 * n, k);
    ScaleOrder(2 * n, high, k);
    ScaleSign(n, k);
  }

  lemma ScaleOrder(x: int, y: int, k: nat)
    requires k > 0
    ensures x <= y ==> x * k <= y * k
    ensures x < y ==> x * k < y * k
  {
  }

  lemma ScaleSign(n: int, k: nat)
    requires k > 0
    ensures n >= 0 <==> n * k >= 0
  {
  }

  lemma {:induction false} SameScaleOrder(a: Dec, b: Dec)
    requires a.scale == b.scale
    ensures Val(a) <= Val(b) <==> a.units <= b.units
    decreases a.scale
  {
    if a.scale > 0 { SameScaleOrder(Dec(a.units, a.scale - 1), Dec(b.units, b.scale - 1)); }
  }

  lemma RealScaleOrder(x: real, y: real, p: real)
    requires p > 0.0
    ensures x <= y <==> x * p <= y * p
  {
  }

  /** Rounding respects order, so equal values in different spellings round alike. */
  lemma RoundMonotone(a: Dec, b: Dec, scale: nat)
    requires Val(a) <= Val(b)
    ensures RoundScaled(a, scale) <= RoundScaled(b, scale)
  {
    var s := Max(scale, Max(a.scale, b.scale));
    RescaleVal(a, s);
    RescaleVal(b, s);
    SameScaleOrder(Rescale(a, s), Rescale(b, s));
    RescaleRoundsTo(a, scale, s);
    RescaleRoundsTo(b, scale, s);
    RoundsToOrdered(Rescale(a, s).units, Rescale(b, s).units, Pow10(s - scale),
                    RoundScaled(a, scale), RoundScaled(b, scale));
  }

  /** A rounded figure is within half a unit of the exact one. */
  lemma RoundError(d: Dec, scale: nat)
    ensures -0.5 <= RoundScaled(d, scale) as real - Val(d) * Pow10(scale) as real <= 0.5
  {
    RoundErrorCommon(d, scale, Max(scale, d.scale));
  }

  lemma RoundErrorCommon(d: Dec, scale: nat, s: nat)
    requires s >= scale && s >= d.scale
    ensures -0.5 <= RoundScaled(d, scale) as real - Val(d) * Pow10(scale) as real <= 0.5
  {
    hide Val, RoundsTo, RoundScaled, Pow10;
    var n := Rescale(d, s).units;
    RescaleVal(d, s);
    ValTimesPower(n, s);
    Pow10Add(s - scale, scale);
    RescaleRoundsTo(d, scale, s);
    RoundErrorAt(Val(d), n, Pow10(s - scale), Pow10(scale), Pow10(s), RoundScaled(d, scale));
  }

  lemma RoundErrorAt(v: real, n: int, divisor: nat, p: nat, q: nat, r: int)
    requires divisor > 0 && q == divisor * p
    requires v * q as real == n as real && RoundsTo(n, divisor, r)
    ensures -0.5 <= r as real - v * p as real <= 0.5
  {
    RealProduct(divisor, p);
    assert (v * p as real) * divisor as real == v * (divisor as real * p as real);
    RoundsToError(v * p as real, n, divisor, r);
  }

  lemma RoundsToError(w: real, n: int, divisor: nat, r: int)
    requires divisor > 0 && w * divisor as real == n as real && RoundsTo(n, divisor, r)
    ensures -0.5 <= r as real - w <= 0.5
  {
    hide Pow10;
    var q, e := divisor as real, r as real - w;
    RealProduct(r, divisor);
    assert 2 * r * divisor == 2 * (r * divisor);
    assert e * q == (r * divisor) as real - n as real;
    RealScaleOrder(e, 0.5, q);
    RealScaleOrder(-0.5, e, q);
  }

  // ---- text --------------------------------------------------------------

  /** Digits with the point `scale` places from the end. */
  function Pointed(digits: string, scale: nat): string
    requires |digits| > scale
  {
    var at := |digits| - scale;
    if scale == 0 then digits else digits[..at] + "." + digits[at..]
  }

  function Format(d: Dec): string {
    var digits := PadStart(NatText(Abs(d.units)), d.scale + 1);
    if d.units < 0 then "-" + Pointed(digits, d.scale) else Pointed(digits, d.scale)
  }

  /** The first position of c, or the length when there is none. */
  function IndexOf(s: string, c: char): (i: nat)
    ensures i <= |s|
    ensures i < |s| ==> s[i] == c
    ensures forall j :: 0 <= j < i ==> s[j] != c
  {
    if s == [] then 0 else if s[0] == c then 0 else 1 + IndexOf(s[1..], c)
  }

  predicate IsDigitRun(s: string) { s != [] && AllDigits(s) }

  function ParseUnsigned(body: string): Option<Dec> {
    var dot := IndexOf(body, '.');
    if dot == |body| then
      if IsDigitRun(body) then Some(Dec(TextNat(body), 0)) else None
    else
      var whole, frac := body[..dot], body[dot + 1..];
      if IsDigitRun(whole) && IsDigitRun(frac) then Some(Dec(TextNat(whole + frac), |frac|)) else None
  }

  /**
   * Reads an optional sign, digits and an optional fraction; None for text that is no such number, which is refused.
   */
  function Parse(raw: string): Option<Dec> {
    var text := Trim(raw);
    if StartsWith(text, "-") then
      match ParseUnsigned(text[1..])
      case None => None
      case Some(d) => Some(Neg(d))
    else ParseUnsigned(text)
  }

  lemma IndexOfSplit(head: string, c: char, tail: string)
    requires c !in head
    ensures IndexOf(head + [c] + tail, c) == |head|
  {
    var s := head + [c] + tail;
    assert s[|head|] == c;
    assert forall j :: 0 <= j < |head| ==> s[j] == head[j];
  }

  lemma ParseUnsignedWhole(whole: string)
    requires IsDigitRun(whole)
    ensures ParseUnsigned(whole) == Some(Dec(TextNat(whole), 0))
  {
    if IndexOf(whole, '.') < |whole| {
      assert IsDigit(whole[IndexOf(whole, '.')]);
    }
  }

  lemma ParseUnsignedFraction(whole: string, frac: string)
    requires IsDigitRun(whole) && IsDigitRun(frac)
    ensures AllDigits(whole + frac)
    ensures ParseUnsigned(whole + "." + frac) == Some(Dec(TextNat(whole + frac), |frac|))
  {
    assert forall i :: 0 <= i < |whole| ==> IsDigit(whole[i]) && whole[i] != '.';
    IndexOfSplit(whole, '.', frac);
    var body := whole + "." + frac;
    assert body[..|whole|] == whole && body[|whole| + 1..] == frac;
  }

  lemma ParsePointed(digits: string, scale: nat)
    requires AllDigits(digits) && |digits| > scale
    ensures ParseUnsigned(Pointed(digits, scale)) == Some(Dec(TextNat(digits), scale))
  {
    hide ParseUnsigned, TextNat, IndexOf;
    if scale == 0 {
      ParseUnsignedWhole(digits);
    } else {
      var at := |digits| - scale;
      assert digits[..at] + digits[at..] == digits;
      ParseUnsignedFraction(digits[..at], digits[at..]);
    }
  }

  /** A body that starts and ends in a digit is read with or without a sign in front. */
  lemma ParseSigned(body: string, d: Dec)
    requires body != [] && IsDigit(body[0]) && IsDigit(body[|body| - 1])
    requires ParseUnsigned(body) == Some(d)
    ensures Parse(body) == Some(d) && Parse("-" + body) == Some(Neg(d))
  {
    TrimTight(body);
    var signed := "-" + body;
    assert signed[|signed| - 1] == body[|body| - 1];
    TrimTight(signed);
    assert signed[1..] == body;
  }

  lemma ParseSignedPointed(d: Dec, digits: string)
    requires AllDigits(digits) && |digits| > d.scale && TextNat(digits) == Abs(d.units)
    ensures Parse(if d.units < 0 then "-" + Pointed(digits, d.scale) else Pointed(digits, d.scale)) == Some(d)
  {
    ParsePointed(digits, d.scale);
    PointedEnds(digits, d.scale);
    ParseSigned(Pointed(digits, d.scale), Dec(Abs(d.units), d.scale));
  }

  /** What one operation prints the next one reads back unchanged. */
  lemma ParseFormat(d: Dec)
    ensures Parse(Format(d)) == Some(d)
  {
    var numeral := NatText(Abs(d.units));
    TextNatOfNatText(Abs(d.units));
    PadStartValue(numeral, d.scale + 1);
    ParseSignedPointed(d, PadStart(numeral, d.scale + 1));
  }

  lemma PointedEnds(digits: string, scale: nat)
    requires AllDigits(digits) && |digits| > scale
    ensures var body := Pointed(digits, scale);
      body != [] && IsDigit(body[0]) && IsDigit(body[|body| - 1])
  {
  }

  /** Drops trailing fraction zeros. */
  function Normalise(d: Dec): (r: Dec)
    decreases d.scale
  {
    if d.scale > 0 && d.units % 10 == 0 then Normalise(Dec(d.units / 10, d.scale - 1)) else d
  }

  method RenderQuantity(d: Dec) returns (text: string)
    ensures text == Render(d)
  {
    var units, scale := d.units, d.scale;
    while scale > 0 && units % 10 == 0
      invariant Normalise(Dec(units, scale)) == Normalise(d)
      decreases scale
    {
      units, scale := TruncDiv(units, 10), scale - 1;
    }
    text := Format(Dec(units, scale));
  }

  function Render(d: Dec): string { Format(Normalise(d)) }

  predicate Canonical(d: Dec) { d.scale == 0 || d.units % 10 != 0 }

  lemma {:induction false} NormaliseCanonical(d: Dec)
    ensures Canonical(Normalise(d)) && Val(Normalise(d)) == Val(d)
    decreases d.scale
  {
    if d.scale > 0 && d.units % 10 == 0 {
      var e := Dec(d.units / 10, d.scale - 1);
      NormaliseCanonical(e);
      assert Pow10(1) == 10;
      assert Rescale(e, d.scale) == d;
      RescaleVal(e, d.scale);
    }
  }

  lemma CanonicalUnique(a: Dec, b: Dec)
    requires Canonical(a) && Canonical(b) && Val(a) == Val(b)
    ensures a == b
  {
    if a.scale > b.scale {
      ShorterWins(b, a);
    } else {
      ShorterWins(a, b);
    }
  }

  lemma ShorterWins(a: Dec, b: Dec)
    requires Canonical(b) && a.scale <= b.scale && Val(a) == Val(b)
    ensures a == b
  {
    hide Val;
    RescaleVal(a, b.scale);
    SameScaleOrder(Rescale(a, b.scale), b);
    SameScaleOrder(b, Rescale(a, b.scale));
    if a.scale < b.scale {
      TenDivides(a.units, Pow10(b.scale - a.scale - 1));
    }
  }

  lemma TenDivides(n: int, k: nat)
    ensures (n * (10 * k)) % 10 == 0
  {
    assert n * (10 * k) == 10 * (n * k);
  }

  /** Two decimals print alike exactly when they are one number. */
  lemma RenderInjective(a: Dec, b: Dec)
    ensures Render(a) == Render(b) <==> Val(a) == Val(b)
  {
    NormaliseCanonical(a);
    NormaliseCanonical(b);
    if Val(a) == Val(b) { CanonicalUnique(Normalise(a), Normalise(b)); }
    if Render(a) == Render(b) {
      ParseFormat(Normalise(a));
      ParseFormat(Normalise(b));
    }
  }
}
