/** Rupees and paise in Indian-system words (amount-in-words.ts), and a reader of those words that inverts it. */
module AmountInWords {
  import opened Text
  import opened Money

  // ---- the vocabulary ---------------------------------------------------------------------

  const HUNDRED := 28
  const THOUSAND := 29
  const LAKH := 30
  const CRORE := 31
  const RUPEES := 32
  const AND := 33
  const PAISE := 34
  const ONLY := 35
  const WORDS := 36

  /** Zero to nineteen, twenty to ninety by tens, the group names, and the words around a figure. */
  function Word(i: nat): string
    requires i < WORDS
  {
    if i < 10 then SmallWord(i)
    else if i < 20 then TeenWord(i)
    else if i < 28 then TensWord(i)
    else GroupWord(i)
  }

  function SmallWord(i: nat): string
    requires i < 10
  {
    match i
    case 0 => "Zero" case 1 => "One" case 2 => "Two" case 3 => "Three" case 4 => "Four"
    case 5 => "Five" case 6 => "Six" case 7 => "Seven" case 8 => "Eight" case _ => "Nine"
  }

  function TeenWord(i: nat): string
    requires 10 <= i < 20
  {
    match i
    case 10 => "Ten" case 11 => "Eleven" case 12 => "Twelve" case 13 => "Thirteen" case 14 => "Fourteen"
    case 15 => "Fifteen" case 16 => "Sixteen" case 17 => "Seventeen" case 18 => "Eighteen" case _ => "Nineteen"
  }

  function TensWord(i: nat): string
    requires 20 <= i < 28
  {
    match i
    case 20 => "Twenty" case 21 => "Thirty" case 22 => "Forty" case 23 => "Fifty"
    case 24 => "Sixty" case 25 => "Seventy" case 26 => "Eighty" case _ => "Ninety"
  }

  function GroupWord(i: nat): string
    requires 28 <= i < WORDS
  {
    match i
    case 28 => "Hundred" case 29 => "Thousand" case 30 => "Lakh" case 31 => "Crore"
    case 32 => "Rupees" case 33 => "and" case 34 => "Paise" case _ => "Only"
  }

  // ---- printing -------------------------------------------------------------------------------

  function TwoDigits(n: nat): string
    requires n < 100
  {
    if n < 20 then Word(n)
    else if n % 10 == 0 then Word(18 + n / 10)
    else Word(18 + n / 10) + "-" + Word(n % 10)
  }

  function ThreeDigits(n: nat): string
    requires n < 1000
  {
    if n / 100 == 0 then TwoDigits(n)
    else if n % 100 == 0 then Word(n / 100) + " " + Word(HUNDRED)
    else Word(n / 100) + " " + Word(HUNDRED) + " " + TwoDigits(n % 100)
  }

  const CRORE_UNIT := 10000000

  function If(c: bool, part: string): seq<string> { if c then [part] else [] }

  /** The groups that are not empty: crores, which may run to crores of crores, lakhs, thousands and the rest. */
  function Parts(n: nat): seq<string>
    decreases n, 0
  {
    var rest := n % CRORE_UNIT;
    (if n / CRORE_UNIT > 0 then [IntegerWords(n / CRORE_UNIT) + " " + Word(CRORE)] else [])
    + If(rest / 100000 > 0, TwoDigits(rest / 100000) + " " + Word(LAKH))
    + If(rest % 100000 / 1000 > 0, TwoDigits(rest % 100000 / 1000) + " " + Word(THOUSAND))
    + If(rest % 1000 > 0, ThreeDigits(rest % 1000))
  }

  function IntegerWords(n: nat): string
    decreases n, 1
  {
    if n == 0 then Word(0) else JoinWith(Parts(n), " ")
  }

  method PrintInteger(n: nat) returns (text: string)
    ensures text == IntegerWords(n)
    decreases n
  {
    hide Word, TwoDigits, ThreeDigits, JoinWith;
    if n == 0 { return Word(0); }
    var parts: seq<string> := [];
    var crore, rest := n / CRORE_UNIT, n % CRORE_UNIT;
    if crore > 0 {
      var words := PrintInteger(crore);
      parts := parts + [words + " " + Word(CRORE)];
    }
    var lakh := rest / 100000;
    rest := rest % 100000;
    if lakh > 0 { parts := parts + [TwoDigits(lakh) + " " + Word(LAKH)]; }
    var thousand := rest / 1000;
    rest := rest % 1000;
    if thousand > 0 { parts := parts + [TwoDigits(thousand) + " " + Word(THOUSAND)]; }
    if rest > 0 { parts := parts + [ThreeDigits(rest)]; }
    assert n % CRORE_UNIT % 100000 % 1000 == n % CRORE_UNIT % 1000;
    assert parts == Parts(n);
    text := JoinWith(parts, " ");
  }

  function WordsOf(paise: nat): string {
    var rupees := Word(RUPEES) + " " + IntegerWords(paise / 100);
    if paise % 100 == 0 then rupees + " " + Word(ONLY)
    else rupees + " " + Word(AND) + " " + Word(PAISE) + " " + TwoDigits(paise % 100) + " " + Word(ONLY)
  }

  /** None for anything but digits and at most two fraction digits, which is refused. */
  function InWords(amount: string): Option<string> {
    match UnsignedPaise(Trim(amount))
    case None => None
    case Some(p) => Some(WordsOf(p))
  }

  // ---- reading the words back -------------------------------------------------------------------

  predicate IsBreak(c: char) { c == ' ' || c == '-' }

  function Tokens(s: string): (parts: seq<string>)
    ensures |parts| >= 1
  {
    if s == [] then [""]
    else
      var rest := Tokens(s[1..]);
      if IsBreak(s[0]) then [""] + rest else [[s[0]] + rest[0]] + rest[1..]
  }

  /** What a reader takes a word for: a number, the name of a group, the start of the paise, or nothing. */
  datatype Sense = Number(n: nat) | Hundreds | Group(unit_: nat) | Crores | PaiseNow | Silent

  /** The reader's own vocabulary. */
  function SenseOf(w: string): Sense {
    if |w| == 3 then ShortSense(w) else if |w| == 4 then FourSense(w) else if |w| == 5 then FiveSense(w)
    else LongSense(w)
  }

  function ShortSense(w: string): Sense {
    match w
    case "One" => Number(1) case "Two" => Number(2) case "Six" => Number(6) case "Ten" => Number(10)
    case _ => Silent
  }

  function FourSense(w: string): Sense {
    match w
    case "Zero" => Number(0) case "Four" => Number(4) case "Five" => Number(5) case "Nine" => Number(9)
    case "Lakh" => Group(100000)
    case _ => Silent
  }

  function FiveSense(w: string): Sense {
    match w
    case "Three" => Number(3) case "Seven" => Number(7) case "Eight" => Number(8)
    case "Forty" => Number(40) case "Fifty" => Number(50) case "Sixty" => Number(60)
    case "Crore" => Crores
    case "Paise" => PaiseNow
    case _ => Silent
  }

  function LongSense(w: string): Sense {
    match w
    case "Eleven" => Number(11) case "Twelve" => Number(12) case "Thirteen" => Number(13)
    case "Fourteen" => Number(14) case "Fifteen" => Number(15) case "Sixteen" => Number(16)
    case "Seventeen" => Number(17) case "Eighteen" => Number(18) case "Nineteen" => Number(19)
    case "Twenty" => Number(20) case "Thirty" => Number(30) case "Seventy" => Number(70)
    case "Eighty" => Number(80) case "Ninety" => Number(90)
    case "Hundred" => Hundreds
    case "Thousand" => Group(1000)
    case _ => Silent
  }

  /** Rupees once the paise have begun, whole groups, and the group being read. */
  datatype Reading = Reading(rupees: Option<nat>, total: nat, current: nat)

  function Hear(r: Reading, s: Sense): Reading {
    match s
    case Number(n) => r.(current := r.current + n)
    case Hundreds => r.(current := r.current * 100)
    case Group(unit_) => r.(total := r.total + r.current * unit_, current := 0)
    case Crores => r.(total := (r.total + r.current) * 10000000, current := 0)
    case PaiseNow => Reading(Some(r.total + r.current), 0, 0)
    case Silent => r
  }

  function HearAll(r: Reading, tokens: seq<string>): Reading
    decreases |tokens|
  {
    if tokens == [] then r else Hear(HearAll(r, tokens[..|tokens| - 1]), SenseOf(tokens[|tokens| - 1]))
  }

  function Listen(r: Reading, s: string): Reading { HearAll(r, Tokens(s)) }

  const SILENCE := Reading(None, 0, 0)

  /** The paise a sentence of these words states. */
  function Evaluate(s: string): nat {
    var r := Listen(SILENCE, s);
    if r.rupees.Some? then r.rupees.value * 100 + r.total + r.current else (r.total + r.current) * 100
  }

  // ---- the printer's vocabulary in the reader's ----------------------------------------------------------

  /** What the printer means by a word. */
  function Meant(i: nat): Sense
    requires i < WORDS
  {
    if i < 20 then Number(i)
    else if i < 28 then Number(10 * (i - 18))
    else if i == HUNDRED then Hundreds
    else if i == THOUSAND then Group(1000)
    else if i == LAKH then Group(100000)
    else if i == CRORE then Crores
    else if i == PAISE then PaiseNow
    else Silent
  }

  predicate IsWord(w: string) { w != "" && forall i :: 0 <= i < |w| ==> !IsBreak(w[i]) }

  lemma SmallSense(i: nat)
    requires i < 10
    ensures IsWord(SmallWord(i)) && SenseOf(SmallWord(i)) == Meant(i)
  {
  }

  lemma TeenSense(i: nat)
    requires 10 <= i < 20
    ensures IsWord(TeenWord(i)) && SenseOf(TeenWord(i)) == Meant(i)
  {
  }

  lemma TensSense(i: nat)
    requires 20 <= i < 28
    ensures IsWord(TensWord(i)) && SenseOf(TensWord(i)) == Meant(i)
  {
  }

  lemma GroupSense(i: nat)
    requires 28 <= i < WORDS
    ensures IsWord(GroupWord(i)) && SenseOf(GroupWord(i)) == Meant(i)
  {
  }

  /** Every word the printer uses is one the reader takes for what is meant. */
  lemma WordSense(i: nat)
    requires i < WORDS
    ensures IsWord(Word(i)) && SenseOf(Word(i)) == Meant(i)
  {
    hide SmallWord, TeenWord, TensWord, GroupWord, IsWord, SenseOf, Meant;
    if i < 10 { SmallSense(i); } else if i < 20 { TeenSense(i); } else if i < 28 { TensSense(i); }
    else { GroupSense(i); }
  }

  // ---- hearing what was printed ------------------------------------------------------------------------

  lemma {:induction false} TokensApart(a: string, c: char, b: string)
    requires IsBreak(c)
    ensures Tokens(a + ([c] + b)) == Tokens(a) + Tokens(b)
    decreases |a|
  {
    var s := a + ([c] + b);
    if a == [] {
      assert s == [c] + b && s[1..] == b;
    } else {
      assert s[0] == a[0] && s[1..] == a[1..] + ([c] + b);
      TokensApart(a[1..], c, b);
    }
  }

  lemma {:induction false} HearConcat(r: Reading, a: seq<string>, b: seq<string>)
    ensures HearAll(r, a + b) == HearAll(HearAll(r, a), b)
    decreases |b|
  {
    hide SenseOf, Hear;
    if b == [] {
      assert a + b == a;
    } else {
      assert (a + b)[..|a + b| - 1] == a + b[..|b| - 1];
      HearConcat(r, a, b[..|b| - 1]);
    }
  }

  /** Words with a break between them are heard one after the other. */
  lemma ListenApart(r: Reading, a: string, c: char, b: string)
    requires IsBreak(c)
    ensures Listen(r, a + ([c] + b)) == Listen(Listen(r, a), b)
  {
    TokensApart(a, c, b);
    HearConcat(r, Tokens(a), Tokens(b));
  }

  lemma ListenSpaced(r: Reading, a: string, b: string)
    ensures Listen(r, a + " " + b) == Listen(Listen(r, a), b)
  {
    ListenApart(r, a, ' ', b);
    assert a + " " + b == a + ([' '] + b);
  }

  lemma {:induction false} PlainToken(w: string)
    requires forall i :: 0 <= i < |w| ==> !IsBreak(w[i])
    ensures Tokens(w) == [w]
  {
    if w != [] {
      assert w == [w[0]] + w[1..];
      PlainToken(w[1..]);
    }
  }

  lemma ListenWord(r: Reading, i: nat)
    requires i < WORDS
    ensures Listen(r, Word(i)) == Hear(r, Meant(i))
  {
    hide Word, Hear, SenseOf, Meant;
    WordSense(i);
    PlainToken(Word(i));
    assert [Word(i)][..0] == [];
    assert HearAll(r, [Word(i)][..0]) == r;
  }

  lemma ListenTwo(r: Reading, n: nat)
    requires n < 100
    ensures Listen(r, TwoDigits(n)) == r.(current := r.current + n)
  {
    hide Word, Listen;
    if n < 20 {
      ListenWord(r, n);
    } else {
      ListenWord(r, 18 + n / 10);
      if n % 10 != 0 {
        ListenApart(r, Word(18 + n / 10), '-', Word(n % 10));
        assert Word(18 + n / 10) + "-" + Word(n % 10) == Word(18 + n / 10) + (['-'] + Word(n % 10));
        ListenWord(Hear(r, Meant(18 + n / 10)), n % 10);
      }
    }
  }

  lemma ListenThree(r: Reading, n: nat)
    requires n < 1000 && r.current == 0
    ensures Listen(r, ThreeDigits(n)) == r.(current := n)
  {
    hide Word, Listen, TwoDigits;
    if n / 100 == 0 {
      ListenTwo(r, n);
    } else {
      var s := Hear(r, Meant(n / 100));
      ListenWord(r, n / 100);
      ListenSpaced(r, Word(n / 100), Word(HUNDRED));
      ListenWord(s, HUNDRED);
      if n % 100 != 0 {
        ListenSpaced(r, Word(n / 100) + " " + Word(HUNDRED), TwoDigits(n % 100));
        ListenTwo(Hear(s, Meant(HUNDRED)), n % 100);
      }
    }
  }

  function ListenParts(r: Reading, parts: seq<string>): Reading
    decreases |parts|
  {
    if parts == [] then r else ListenParts(Listen(r, parts[0]), parts[1..])
  }

  lemma {:induction false} ListenJoined(r: Reading, parts: seq<string>)
    requires parts != []
    ensures Listen(r, JoinWith(parts, " ")) == ListenParts(r, parts)
    decreases |parts|
  {
    hide Listen;
    if |parts| > 1 {
      ListenJoined(Listen(r, parts[0]), parts[1..]);
      ListenSpaced(r, parts[0], JoinWith(parts[1..], " "));
    } else {
      assert parts[1..] == [];
    }
  }

  lemma {:induction false} ListenPartsConcat(r: Reading, a: seq<string>, b: seq<string>)
    ensures ListenParts(r, a + b) == ListenParts(ListenParts(r, a), b)
    decreases |a|
  {
    hide Listen;
    if a == [] {
      assert a + b == b;
    } else {
      assert (a + b)[1..] == a[1..] + b;
      ListenPartsConcat(Listen(r, a[0]), a[1..], b);
    }
  }

  /** One group: its number, then its name. */
  lemma ListenGroup(r: Reading, n: nat, name: nat)
    requires n < 100 && r.current == 0 && (name == LAKH || name == THOUSAND)
    ensures ListenParts(r, If(n > 0, TwoDigits(n) + " " + Word(name)))
         == r.(total := r.total + n * (if name == LAKH then 100000 else 1000))
  {
    hide Word, Listen, TwoDigits;
    if n > 0 {
      ListenSpaced(r, TwoDigits(n), Word(name));
      ListenTwo(r, n);
      ListenWord(r.(current := n), name);
    }
  }

  lemma ListenRest(r: Reading, n: nat)
    requires n < 1000 && r.current == 0
    ensures ListenParts(r, If(n > 0, ThreeDigits(n))) == r.(current := n)
  {
    hide Word, Listen, ThreeDigits;
    if n > 0 {
      ListenThree(r, n);
    }
  }

  /** Everything below a crore. */
  lemma ListenBelowCrore(r: Reading, rest: nat)
    requires rest < CRORE_UNIT && r.current == 0
    ensures var lakh, thousand := rest / 100000, rest % 100000 / 1000;
      var s := ListenParts(r, If(lakh > 0, TwoDigits(lakh) + " " + Word(LAKH))
                              + If(thousand > 0, TwoDigits(thousand) + " " + Word(THOUSAND))
                              + If(rest % 1000 > 0, ThreeDigits(rest % 1000)));
      s.rupees == r.rupees && s.total + s.current == r.total + rest
  {
    hide Word, Listen, TwoDigits, ThreeDigits, If, ListenParts;
    var lakh, thousand := rest / 100000, rest % 100000 / 1000;
    var a := If(lakh > 0, TwoDigits(lakh) + " " + Word(LAKH));
    var b := If(thousand > 0, TwoDigits(thousand) + " " + Word(THOUSAND));
    var c := If(rest % 1000 > 0, ThreeDigits(rest % 1000));
    ListenPartsConcat(r, a + b, c);
    ListenPartsConcat(r, a, b);
    ListenGroup(r, lakh, LAKH);
    var s := r.(total := r.total + lakh * 100000);
    ListenGroup(s, thousand, THOUSAND);
    ListenRest(s.(total := s.total + thousand * 1000), rest % 1000);
    assert rest == lakh * 100000 + thousand * 1000 + rest % 1000;
  }

  /** A number of any size is heard as itself, crores of crores included. */
  lemma {:induction false} ListenInteger(r: Reading, n: nat)
    requires r.total == 0 && r.current == 0
    ensures var s := Listen(r, IntegerWords(n)); s.rupees == r.rupees && s.total + s.current == n
    decreases n, 0
  {
    hide Word, Listen, TwoDigits, ThreeDigits, ListenParts, JoinWith, If;
    if n == 0 {
      ListenWord(r, 0);
    } else {
      var crore, rest := n / CRORE_UNIT, n % CRORE_UNIT;
      var head := if crore > 0 then [IntegerWords(crore) + " " + Word(CRORE)] else [];
      var a := If(rest / 100000 > 0, TwoDigits(rest / 100000) + " " + Word(LAKH));
      var b := If(rest % 100000 / 1000 > 0, TwoDigits(rest % 100000 / 1000) + " " + Word(THOUSAND));
      var c := If(rest % 1000 > 0, ThreeDigits(rest % 1000));
      assert Parts(n) == head + (a + b + c);
      ListenPartsConcat(r, head, a + b + c);
      CroreHeard(r, crore, head);
      ListenBelowCrore(ListenParts(r, head), rest);
      ListenJoined(r, Parts(n));
    }
  }

  lemma {:induction false} CroreHeard(r: Reading, crore: nat, head: seq<string>)
    requires r.total == 0 && r.current == 0
    requires head == if crore > 0 then [IntegerWords(crore) + " " + Word(CRORE)] else []
    ensures ListenParts(r, head) == Reading(r.rupees, crore * CRORE_UNIT, 0)
    decreases crore, 1
  {
    hide Word, Listen, IntegerWords;
    if crore > 0 {
      ListenSpaced(r, IntegerWords(crore), Word(CRORE));
      ListenInteger(r, crore);
      ListenWord(Listen(r, IntegerWords(crore)), CRORE);
    }
  }

  /** Reading the words of an amount gives back its exact paise. */
  lemma WordsHeard(paise: nat)
    ensures Evaluate(WordsOf(paise)) == paise
  {
    hide Word, Listen, IntegerWords, TwoDigits;
    var figure := IntegerWords(paise / 100);
    var rupees := Word(RUPEES) + " " + figure;
    ListenSpaced(SILENCE, Word(RUPEES), figure);
    ListenWord(SILENCE, RUPEES);
    ListenInteger(SILENCE, paise / 100);
    var s := Listen(SILENCE, rupees);
    if paise % 100 == 0 {
      ListenSpaced(SILENCE, rupees, Word(ONLY));
      ListenWord(s, ONLY);
    } else {
      ListenSpaced(SILENCE, rupees, Word(AND));
      ListenWord(s, AND);
      PaiseHeard(SILENCE, rupees + " " + Word(AND), paise % 100);
    }
  }

  lemma PaiseHeard(r: Reading, before: string, n: nat)
    requires n < 100
    ensures var s := Listen(r, before);
      Listen(r, before + " " + Word(PAISE) + " " + TwoDigits(n) + " " + Word(ONLY))
        == Reading(Some(s.total + s.current), 0, n)
  {
    hide Word, Listen, TwoDigits;
    var s := Listen(r, before);
    ListenSpaced(r, before, Word(PAISE));
    ListenWord(s, PAISE);
    var t := Hear(s, Meant(PAISE));
    ListenSpaced(r, before + " " + Word(PAISE), TwoDigits(n));
    ListenTwo(t, n);
    ListenSpaced(r, before + " " + Word(PAISE) + " " + TwoDigits(n), Word(ONLY));
    ListenWord(t.(current := n), ONLY);
  }

  /** What is printed states exactly the amount given, so two amounts print alike only if they are one amount. */
  lemma InWordsInverts(amount: string)
    requires InWords(amount).Some?
    ensures Some(Evaluate(InWords(amount).value)) == UnsignedPaise(Trim(amount))
  {
    hide Evaluate, WordsOf;
    WordsHeard(UnsignedPaise(Trim(amount)).value);
  }

  lemma InWordsInjective(a: string, b: string)
    requires InWords(a).Some? && InWords(a) == InWords(b)
    ensures UnsignedPaise(Trim(a)) == UnsignedPaise(Trim(b))
  {
    hide Evaluate, WordsOf;
    InWordsInverts(a);
    InWordsInverts(b);
  }

  // ---- the sentence ------------------------------------------------------------------------------------

  /** Every amount's sentence opens with "Rupees" and closes with "Only"; paise, where there are any, come between. */
  lemma SentenceWording(paise: nat)
    ensures paise % 100 == 0 ==> WordsOf(paise) == "Rupees " + IntegerWords(paise / 100) + " Only"
    ensures paise % 100 != 0 ==>
      WordsOf(paise) == "Rupees " + IntegerWords(paise / 100) + " and Paise " + TwoDigits(paise % 100) + " Only"
  {
    hide IntegerWords, TwoDigits;
    assert Word(RUPEES) == "Rupees" && Word(ONLY) == "Only" && Word(AND) == "and" && Word(PAISE) == "Paise";
    var n := IntegerWords(paise / 100);
    assert "Rupees" + " " + n == "Rupees " + n;
    assert "Rupees " + n + " " + "Only" == "Rupees " + n + " Only";
    var p := TwoDigits(paise % 100);
    assert "Rupees " + n + " " + "and" + " " + "Paise" + " " + p + " " + "Only"
        == "Rupees " + n + " and Paise " + p + " Only";
  }

  /** Tens and units are joined by a hyphen. */
  lemma TensWording()
    ensures TwoDigits(19) == "Nineteen" && TwoDigits(90) == "Ninety"
    ensures TwoDigits(23) == "Twenty-Three" && TwoDigits(45) == "Forty-Five" && TwoDigits(78) == "Seventy-Eight"
  {
  }

  /** A hundred and its rest are set apart by a blank alone. */
  lemma HundredsWording()
    ensures ThreeDigits(600) == "Six Hundred" && ThreeDigits(678) == "Six Hundred Seventy-Eight"
    ensures ThreeDigits(1) == "One"
  {
    hide TwoDigits;
    TensWording();
    assert TwoDigits(1) == "One" by { OneWording(); }
    assert "Six" + " " + "Hundred" + " " + "Seventy-Eight" == "Six Hundred Seventy-Eight";
  }

  lemma OneWording()
    ensures TwoDigits(1) == "One"
  {
  }

  lemma FourParts(n: nat, lakh: nat, thousand: nat, rest: nat)
    requires n == CRORE_UNIT + lakh * 100000 + thousand * 1000 + rest
    requires 0 < lakh < 100 && 0 < thousand < 100 && 0 < rest < 1000
    ensures Parts(n) ==
      [IntegerWords(1) + " " + "Crore", TwoDigits(lakh) + " " + "Lakh", TwoDigits(thousand) + " " + "Thousand",
       ThreeDigits(rest)]
  {
    hide IntegerWords, TwoDigits, ThreeDigits;
    assert n / CRORE_UNIT == 1 && n % CRORE_UNIT == lakh * 100000 + thousand * 1000 + rest;
    assert Word(CRORE) == "Crore" && Word(LAKH) == "Lakh" && Word(THOUSAND) == "Thousand";
  }

  /** 1,23,45,678 in words. */
  lemma GroupsWording()
    ensures IntegerWords(12345678) == "One Crore Twenty-Three Lakh Forty-Five Thousand Six Hundred Seventy-Eight"
  {
    hide TwoDigits, ThreeDigits, Word, Parts, IntegerWords;
    TensWording();
    HundredsWording();
    OneInWords();
    FourParts(12345678, 23, 45, 678);
    NonZeroWords(12345678);
    FourJoined("One Crore", "Twenty-Three Lakh", "Forty-Five Thousand", "Six Hundred Seventy-Eight");
    assert "One" + " " + "Crore" == "One Crore" && "Twenty-Three" + " " + "Lakh" == "Twenty-Three Lakh";
    assert "Forty-Five" + " " + "Thousand" == "Forty-Five Thousand";
    Sentence();
  }

  lemma Sentence()
    ensures "One Crore" + " " + "Twenty-Three Lakh" + " " + "Forty-Five Thousand" + " " + "Six Hundred Seventy-Eight"
         == "One Crore Twenty-Three Lakh Forty-Five Thousand Six Hundred Seventy-Eight"
  {
    FirstWords();
    NextWords();
    LastWords();
  }

  lemma FirstWords()
    ensures "One Crore" + " " + "Twenty-Three Lakh" == "One Crore Twenty-Three Lakh"
  {
  }

  lemma NextWords()
    ensures "One Crore Twenty-Three Lakh" + " " + "Forty-Five Thousand"
         == "One Crore Twenty-Three Lakh Forty-Five Thousand"
  {
  }

  lemma LastWords()
    ensures "One Crore Twenty-Three Lakh Forty-Five Thousand" + " " + "Six Hundred Seventy-Eight"
         == "One Crore Twenty-Three Lakh Forty-Five Thousand Six Hundred Seventy-Eight"
  {
  }

  lemma NonZeroWords(n: nat)
    requires n > 0
    ensures IntegerWords(n) == JoinWith(Parts(n), " ")
  {
    hide Parts;
  }

  lemma OneInWords()
    ensures IntegerWords(1) == "One"
  {
    hide ThreeDigits;
    HundredsWording();
    assert Parts(1) == [ThreeDigits(1)];
  }

  lemma FourJoined(a: string, b: string, c: string, d: string)
    ensures JoinWith([a, b, c, d], " ") == a + " " + b + " " + c + " " + d
  {
    assert [a, b, c, d][1..] == [b, c, d] && [b, c, d][1..] == [c, d] && [c, d][1..] == [d];
    assert JoinWith([c, d], " ") == c + " " + d;
    assert JoinWith([b, c, d], " ") == b + " " + (c + " " + d);
    assert a + " " + (b + " " + (c + " " + d)) == a + " " + b + " " + c + " " + d;
  }
}
