/** Text as the server handles it: trimming, decimal numerals, padding and ASCII case. */
module Text {

  datatype Option<+T> = None | Some(value: T)

  function OrEmpty(s: Option<string>): string { if s.Some? then s.value else "" }

  function OrElse(a: Option<string>, b: Option<string>): Option<string> { if a.Some? then a else b }

  /** The characters String.prototype.trim removes. */
  predicate IsSpace(c: char) {
    var n := c as int;
    || 9 <= n <= 13 || n == 32 || n == 0xA0 || n == 0x1680 || 0x2000 <= n <= 0x200A
    || n == 0x2028 || n == 0x2029 || n == 0x202F || n == 0x205F || n == 0x3000 || n == 0xFEFF
  }

  predicate IsDigit(c: char) { '0' <= c <= '9' }

  predicate AllDigits(s: string) {
    forall i :: 0 <= i < |s| ==> IsDigit(s[i])
  }

  function TrimStart(s: string): string {
    if s != [] && IsSpace(s[0]) then TrimStart(s[1..]) else s
  }

  function TrimEnd(s: string): string {
    if s != [] && IsSpace(s[|s| - 1]) then TrimEnd(s[..|s| - 1]) else s
  }

  function Trim(s: string): string { TrimEnd(TrimStart(s)) }

  lemma TrimTight(s: string)
    requires s != [] ==> !IsSpace(s[0]) && !IsSpace(s[|s| - 1])
    ensures Trim(s) == s
  {
  }

  predicate AllSpaces(s: string) { forall i :: 0 <= i < |s| ==> IsSpace(s[i]) }

  /** The text without the blanks at its ends. */
  ghost predicate Stripped(s: string, t: string) {
    && (t != "" ==> !IsSpace(t[0]) && !IsSpace(t[|t| - 1]))
    && exists a, b :: AllSpaces(a) && AllSpaces(b) && s == a + t + b
  }

  lemma {:induction false} TrimStartStrips(s: string) returns (a: string)
    ensures AllSpaces(a) && s == a + TrimStart(s)
    decreases |s|
  {
    a := "";
    if s != [] && IsSpace(s[0]) {
      var rest := TrimStartStrips(s[1..]);
      a := [s[0]] + rest;
      assert s == [s[0]] + s[1..];
    }
  }

  lemma {:induction false} TrimEndStrips(s: string) returns (b: string)
    ensures AllSpaces(b) && s == TrimEnd(s) + b
    decreases |s|
  {
    b := "";
    if s != [] && IsSpace(s[|s| - 1]) {
      var rest := TrimEndStrips(s[..|s| - 1]);
      b := rest + [s[|s| - 1]];
      assert s == s[..|s| - 1] + [s[|s| - 1]];
    }
  }

  lemma {:induction false} TrimmedTight(s: string)
    ensures TrimStart(s) != "" ==> !IsSpace(TrimStart(s)[0])
    ensures TrimEnd(s) != "" ==> TrimEnd(s)[0] == s[0] && !IsSpace(TrimEnd(s)[|TrimEnd(s)| - 1])
    decreases |s|
  {
    if s != [] {
      TrimmedTight(s[1..]);
      TrimmedTight(s[..|s| - 1]);
    }
  }

  lemma TrimStrips(s: string)
    ensures Stripped(s, Trim(s))
  {
    var a := TrimStartStrips(s);
    var b := TrimEndStrips(TrimStart(s));
    TrimmedTight(s);
    TrimmedTight(TrimStart(s));
    assert s == a + Trim(s) + b;
  }

  lemma {:induction false} SpacesTrimAway(s: string)
    requires AllSpaces(s)
    ensures TrimStart(s) == Trim(s) == ""
    decreases |s|
  {
    if s != "" { SpacesTrimAway(s[1..]); }
  }

  lemma StrippedToNothing(s: string)
    requires Stripped(s, "")
    ensures AllSpaces(s)
  {
    var a, b :| AllSpaces(a) && AllSpaces(b) && s == a + "" + b;
    assert forall i :: 0 <= i < |s| ==> s[i] == if i < |a| then a[i] else b[i - |a|];
  }

  /** How many characters a \s* at the start of s takes. */
  function SpacesLength(s: string): (n: nat)
    ensures n <= |s| && forall i :: 0 <= i < n ==> IsSpace(s[i])
    ensures n < |s| ==> !IsSpace(s[n])
  {
    if s == [] || !IsSpace(s[0]) then 0 else 1 + SpacesLength(s[1..])
  }

  predicate StartsWith(s: string, prefix: string) { prefix <= s }

  predicate EndsWith(s: string, suffix: string) {
    |suffix| <= |s| && s[|s| - |suffix|..] == suffix
  }

  predicate Contains(s: string, part: string) {
    part <= s || (s != [] && Contains(s[1..], part))
  }

  predicate StandsAt(s: string, part: string, i: nat) { i + |part| <= |s| && s[i..i + |part|] == part }

  /** The part stands somewhere in the text. */
  ghost predicate Holds(s: string, part: string) { exists i: nat :: StandsAt(s, part, i) }

  lemma StandsFirst(s: string, part: string)
    ensures StandsAt(s, part, 0) <==> part <= s
  {
    if |part| <= |s| { assert s[0..0 + |part|] == s[..|part|]; }
  }

  lemma StandsLater(s: string, part: string, i: nat)
    requires s != []
    ensures StandsAt(s[1..], part, i) <==> StandsAt(s, part, i + 1)
  {
    if i + 1 + |part| <= |s| { assert s[1..][i..i + |part|] == s[i + 1..i + 1 + |part|]; }
  }

  lemma {:induction false} ContainsExactlyWhen(s: string, part: string)
    ensures Contains(s, part) <==> Holds(s, part)
    decreases |s|
  {
    hide StandsAt;
    StandsFirst(s, part);
    if s == [] {
      forall i: nat | StandsAt(s, part, i) ensures part <= s { NothingStands(part, i); }
    } else {
      ContainsExactlyWhen(s[1..], part);
      forall i: nat | StandsAt(s, part, i) ensures part <= s || Holds(s[1..], part) {
        if i > 0 { StandsLater(s, part, i - 1); }
      }
      forall i: nat | StandsAt(s[1..], part, i) ensures Holds(s, part) { StandsLater(s, part, i); }
    }
  }

  lemma NothingStands(part: string, i: nat)
    requires StandsAt([], part, i)
    ensures part == []
  {
  }

  function UpperChar(c: char): char {
    if 'a' <= c <= 'z' then (c as int - 32) as char else c
  }

  /** String.prototype.toUpperCase on ASCII text. */
  function Upper(s: string): (r: string)
    ensures |r| == |s|
    ensures forall i :: 0 <= i < |s| ==> r[i] == UpperChar(s[i])
  {
    seq(|s|, i requires 0 <= i < |s| => UpperChar(s[i]))
  }

  function LowerChar(c: char): char {
    if 'A' <= c <= 'Z' then (c as int + 32) as char else c
  }

  /** String.prototype.toLowerCase on ASCII text. */
  function Lower(s: string): string { seq(|s|, i requires 0 <= i < |s| => LowerChar(s[i])) }

  function JoinWith(parts: seq<string>, separator: string): string {
    if parts == [] then ""
    else if |parts| == 1 then parts[0]
    else parts[0] + separator + JoinWith(parts[1..], separator)
  }

  // ---- decimal numerals -------------------------------------------------

  function DigitChar(d: nat): char
    requires d < 10
  {
    ('0' as int + d) as char
  }

  function DigitValue(c: char): nat
    requires IsDigit(c)
  {
    c as int - '0' as int
  }

  /** The decimal numeral of n: no leading zero unless n is zero. */
  function NatText(n: nat): string {
    if n < 10 then [DigitChar(n)] else NatText(n / 10) + [DigitChar(n % 10)]
  }

  /** The number a run of digits spells; leading zeros count for nothing. */
  function TextNat(s: string): nat
    requires AllDigits(s)
  {
    if s == [] then 0 else 10 * TextNat(s[..|s| - 1]) + DigitValue(s[|s| - 1])
  }

  lemma {:induction false} NatTextDigits(n: nat)
    ensures AllDigits(NatText(n)) && |NatText(n)| >= 1
    ensures n > 0 ==> NatText(n)[0] != '0'
  {
    if n >= 10 { NatTextDigits(n / 10); }
  }

  lemma {:induction false} TextNatOfNatText(n: nat)
    ensures AllDigits(NatText(n)) && TextNat(NatText(n)) == n
  {
    NatTextDigits(n);
    if n >= 10 {
      TextNatOfNatText(n / 10);
      assert NatText(n)[..|NatText(n)| - 1] == NatText(n / 10);
    } else {
      assert NatText(n)[..0] == [];
      assert TextNat(NatText(n)[..0]) == 0;
    }
  }

  lemma {:induction false} NatTextLengthMonotone(m: nat, n: nat)
    requires m <= n
    ensures |NatText(m)| <= |NatText(n)|
  {
    if m >= 10 { NatTextLengthMonotone(m / 10, n / 10); } else { NatTextDigits(n); }
  }

  function Zeros(n: nat): (r: string)
    ensures |r| == n && AllDigits(r)
    ensures forall i :: 0 <= i < n ==> r[i] == '0'
  {
    seq(n, _ => '0')
  }

  /** String.prototype.padStart(width, '0'). */
  function PadStart(s: string, width: nat): string {
    if |s| >= width then s else Zeros(width - |s|) + s
  }

  /** String.prototype.padEnd(width, '0'). */
  function PadEnd(s: string, width: nat): string {
    if |s| >= width then s else s + Zeros(width - |s|)
  }

  lemma {:induction false} ZerosValue(n: nat)
    ensures TextNat(Zeros(n)) == 0
  {
    if n > 0 {
      assert Zeros(n)[..n - 1] == Zeros(n - 1);
      ZerosValue(n - 1);
    }
  }

  function Pow10(n: nat): (r: nat)
    ensures r >= 1
  {
    if n == 0 then 1 else 10 * Pow10(n - 1)
  }

  lemma {:induction false} Pow10Add(a: nat, b: nat)
    ensures Pow10(a + b) == Pow10(a) * Pow10(b)
  {
    if a == 0 {
    } else {
      Pow10Add(a - 1, b);
      assert Pow10(a + b) == 10 * Pow10(a - 1 + b);
      assert Pow10(a) * Pow10(b) == 10 * (Pow10(a - 1) * Pow10(b));
    }
  }

  lemma TenfoldProduct(x: int, y: int)
    ensures x * (10 * y) == 10 * (x * y)
  {
  }

  lemma {:induction false} TextNatConcat(a: string, b: string)
    requires AllDigits(a) && AllDigits(b)
    ensures AllDigits(a + b) && TextNat(a + b) == TextNat(a) * Pow10(|b|) + TextNat(b)
  {
    if b == [] {
      assert a + b == a;
    } else {
      var b' := b[..|b| - 1];
      TextNatConcat(a, b');
      assert (a + b)[..|a + b| - 1] == a + b';
      assert (a + b)[|a + b| - 1] == b[|b| - 1];
      TenfoldProduct(TextNat(a), Pow10(|b'|));
    }
  }

  lemma PadStartValue(s: string, width: nat)
    requires AllDigits(s)
    ensures AllDigits(PadStart(s, width)) && TextNat(PadStart(s, width)) == TextNat(s)
  {
    if |s| < width {
      ZerosValue(width - |s|);
      TextNatConcat(Zeros(width - |s|), s);
    }
  }

  lemma {:induction false} TextNatBound(s: string)
    requires AllDigits(s)
    ensures TextNat(s) < Pow10(|s|)
  {
    if s != [] { TextNatBound(s[..|s| - 1]); }
  }

  /** Two digit runs of one length that spell one number are one run. */
  lemma {:induction false} TextNatInjective(a: string, b: string)
    requires AllDigits(a) && AllDigits(b) && |a| == |b| && TextNat(a) == TextNat(b)
    ensures a == b
  {
    if a != [] {
      var a', b' := a[..|a| - 1], b[..|b| - 1];
      TextNatInjective(a', b');
      assert a == a' + [a[|a| - 1]] && b == b' + [b[|b| - 1]];
    }
  }
}
