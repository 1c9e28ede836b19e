/** The dashboard's amount text: the printer of wXRP base units, the parser, and the keystroke
    sanitizer of the deposit field. */
module Amount {
  import opened Results
  import opened Decimal

  const UNITS: nat := 1_000_000
  const MAX_DEPOSIT_WXRP: nat := 1_000_000

  // ------------------------------------------------------------ text

  /** `replace(/[^..]/g, "")`: the characters that satisfy `p`, in order. */
  function Keep(s: string, p: char -> bool): string {
    if s == "" then "" else (if p(s[0]) then [s[0]] else "") + Keep(s[1..], p)
  }

  /** White space as a JavaScript regular expression understands it. */
  predicate IsSpace(c: char) {
    var n := c as int;
    9 <= n <= 13 || n == 32 || n == 0xA0 || n == 0x1680 || 0x2000 <= n <= 0x200A
    || n == 0x2028 || n == 0x2029 || n == 0x202F || n == 0x205F || n == 0x3000 || n == 0xFEFF
  }

  predicate NoSeparator(c: char) {
    c != ',' && !IsSpace(c)
  }

  predicate DigitOrDot(c: char) {
    IsDigit(c) || c == '.'
  }

  predicate NotDot(c: char) {
    c != '.'
  }

  predicate HasDot(s: string) {
    exists i :: 0 <= i < |s| && s[i] == '.'
  }

  /** The part before the first dot, or everything. */
  function UpToDot(s: string): string {
    if s == "" || s[0] == '.' then "" else [s[0]] + UpToDot(s[1..])
  }

  /** The part after the first dot, or nothing. */
  function AfterDot(s: string): string {
    if s == "" then "" else if s[0] == '.' then s[1..] else AfterDot(s[1..])
  }

  /** The second part of `split(".")`, empty when there is none. */
  function SecondPart(s: string): string {
    UpToDot(AfterDot(s))
  }

  function FirstSix(s: string): (t: string)
    ensures |t| <= 6
  {
    if |s| <= 6 then s else s[..6]
  }

  /** `(frac + "000000").slice(0, 6)` */
  function PadSix(frac: string): (t: string)
    ensures |t| == 6
  {
    (frac + Zeros(6))[..6]
  }

  // ------------------------------------------------------------ parser and printer

  /** What follows a second dot is ignored; a missing whole part is refused. */
  function ParseAmount(raw: string): Option<nat> {
    var stripped := Keep(raw, NoSeparator);
    if stripped == "" then None
    else
      var whole, frac := UpToDot(stripped), SecondPart(stripped);
      if whole == "" || !AllDigits(whole) || !AllDigits(frac) then None
      else
        PadSixDigits(frac);
        Some(Value(whole) * UNITS + Value(PadSix(frac)))
  }

  lemma PadSixDigits(frac: string)
    requires AllDigits(frac)
    ensures AllDigits(PadSix(frac))
  {
  }

  /** `toLocaleString("en-US")` on a natural number. */
  function Grouped(n: nat): string
    decreases n
  {
    if n < 1000 then Print(n) else Grouped(n / 1000) + "," + PadStart(Print(n % 1000), 3)
  }

  /** `replace(/0+$/, "")` */
  function TrimZeros(s: string): string {
    if s != "" && s[|s| - 1] == '0' then TrimZeros(s[..|s| - 1]) else s
  }

  function FormatWxrp(base: nat): string {
    var whole, frac := base / UNITS, base % UNITS;
    if frac == 0 then Grouped(whole)
    else Grouped(whole) + "." + TrimZeros(PadStart(Print(frac), 6))
  }

  // ------------------------------------------------------------ lemmas about text

  lemma {:induction false} KeepConcat(a: string, b: string, p: char -> bool)
    ensures Keep(a + b, p) == Keep(a, p) + Keep(b, p)
  {
    if a == "" {
      assert a + b == b;
    } else {
      hide Keep;
      var ab := a + b;
      assert ab[0] == a[0] && ab[1..] == a[1..] + b;
      KeepConcat(a[1..], b, p);
      KeepStep(a, p);
      KeepStep(ab, p);
      Regroup(if p(a[0]) then [a[0]] else "", Keep(a[1..], p), Keep(b, p));
    }
  }

  lemma Regroup(x: string, y: string, z: string)
    ensures x + (y + z) == (x + y) + z
  {
  }

  lemma KeepStep(s: string, p: char -> bool)
    requires s != ""
    ensures Keep(s, p) == (if p(s[0]) then [s[0]] else "") + Keep(s[1..], p)
  {
  }

  lemma {:induction false} KeepAll(s: string, p: char -> bool)
    requires forall i :: 0 <= i < |s| ==> p(s[i])
    ensures Keep(s, p) == s
  {
    if s != "" {
      KeepAll(s[1..], p);
    }
  }

  lemma {:induction false} SplitAtDot(a: string, b: string)
    requires AllDigits(a)
    ensures UpToDot(a + "." + b) == a && AfterDot(a + "." + b) == b && HasDot(a + "." + b)
    ensures UpToDot(a) == a && AfterDot(a) == "" && !HasDot(a)
  {
    var s := a + "." + b;
    assert s[|a|] == '.';
    if a != "" {
      assert s[1..] == a[1..] + "." + b;
      SplitAtDot(a[1..], b);
    }
  }

  lemma {:induction false} UpToDotIsPrefix(s: string)
    ensures UpToDot(s) == s || UpToDot(s) + "." + AfterDot(s) == s
    ensures !HasDot(UpToDot(s))
    ensures HasDot(s) <==> UpToDot(s) + "." + AfterDot(s) == s
  {
    if s == "" {
      assert !HasDot(s);
    } else {
      DotAfterFirst(s);
      if s[0] != '.' {
        UpToDotIsPrefix(s[1..]);
        DotAfterFirst(UpToDot(s));
        assert UpToDot(s)[1..] == UpToDot(s[1..]);
        hide HasDot;
        assert s == [s[0]] + s[1..];
        assert UpToDot(s) + "." + AfterDot(s) == [s[0]] + (UpToDot(s[1..]) + "." + AfterDot(s[1..]));
      } else {
        assert !HasDot("");
        assert s == "" + "." + s[1..];
      }
    }
  }

  lemma DotAfterFirst(s: string)
    requires s != ""
    ensures HasDot(s) <==> s[0] == '.' || HasDot(s[1..])
  {
    if HasDot(s) && s[0] != '.' {
      var i :| 0 <= i < |s| && s[i] == '.';
      assert s[1..][i - 1] == '.';
    }
    if HasDot(s[1..]) {
      var i :| 0 <= i < |s[1..]| && s[1..][i] == '.';
      assert s[i + 1] == '.';
    }
  }

  // ------------------------------------------------------------ the parser undoes the printer

  lemma {:induction false} GroupingIsOnlyCommas(n: nat)
    ensures Keep(Grouped(n), NoSeparator) == Print(n)
    decreases n
  {
    if n < 1000 {
      KeepAll(Print(n), NoSeparator);
      assert Grouped(n) == Print(n);
    } else {
      GroupingIsOnlyCommas(n / 1000);
      OneMoreGroup(n);
    }
  }

  lemma OneMoreGroup(n: nat)
    requires n >= 1000 && Keep(Grouped(n / 1000), NoSeparator) == Print(n / 1000)
    ensures Keep(Grouped(n), NoSeparator) == Print(n)
  {
    hide Print, PadStart, Keep;
    PadStartValue(Print(n % 1000), 3);
    KeepThrough(Grouped(n / 1000), ',', PadStart(Print(n % 1000), 3));
    PrintInGroups(n);
  }

  /** Keeping digits after a possible separator. */
  lemma KeepThrough(front: string, c: char, digits: string)
    requires AllDigits(digits)
    ensures Keep(front + [c] + digits, NoSeparator)
         == Keep(front, NoSeparator) + (if NoSeparator(c) then [c] else "") + digits
  {
    assert forall i :: 0 <= i < |digits| ==> NoSeparator(digits[i]);
    hide Keep, NoSeparator;
    KeepConcat(front + [c], digits, NoSeparator);
    KeepConcat(front, [c], NoSeparator);
    KeepAll(digits, NoSeparator);
    KeepOne(c, NoSeparator);
  }

  lemma KeepOne(c: char, p: char -> bool)
    ensures Keep([c], p) == if p(c) then [c] else ""
  {
    assert [c][1..] == "";
  }

  lemma SmallPrint(n: nat)
    requires n < 1000
    ensures |Print(n)| <= 3
  {
    if n >= 10 {
      assert Print(n) == Print(n / 10) + [DigitChar(n % 10)];
      if n / 10 >= 10 {
        assert Print(n / 10) == Print(n / 10 / 10) + [DigitChar(n / 10 % 10)];
      }
    }
  }

  /** Printing in groups of three digits prints the number. */
  lemma PrintInGroups(n: nat)
    requires n >= 1000
    ensures Print(n) == Print(n / 1000) + PadStart(Print(n % 1000), 3)
  {
    SmallPrint(n % 1000);
    var a := Print(n / 10 / 10 / 10);
    var b := [DigitChar(n / 10 / 10 % 10)] + [DigitChar(n / 10 % 10)] + [DigitChar(n % 10)];
    assert n / 10 / 10 / 10 == n / 1000;
    assert Print(n / 10 / 10) == a + [DigitChar(n / 10 / 10 % 10)];
    assert Print(n / 10) == Print(n / 10 / 10) + [DigitChar(n / 10 % 10)];
    assert Print(n) == a + b;
    ThreeDigits(n / 10 / 10 % 10, n / 10 % 10, n % 10);
    PadStartValue(Print(n % 1000), 3);
    SameLengthSameValue(b, PadStart(Print(n % 1000), 3));
  }

  lemma ThreeDigits(x: nat, y: nat, z: nat)
    requires x < 10 && y < 10 && z < 10
    ensures var b := [DigitChar(x)] + [DigitChar(y)] + [DigitChar(z)];
            AllDigits(b) && Value(b) == 100 * x + 10 * y + z
  {
    var b := [DigitChar(x)] + [DigitChar(y)] + [DigitChar(z)];
    assert b[..2] == [DigitChar(x)] + [DigitChar(y)];
    assert b[..2][..1] == [DigitChar(x)] && [DigitChar(x)][..0] == "";
    assert Value(b[..2]) == 10 * Value(b[..2][..1]) + y;
  }

  lemma {:induction false} TrimmedThenPadded(s: string)
    requires AllDigits(s) && |s| <= 6
    ensures AllDigits(TrimZeros(s)) && |TrimZeros(s)| <= |s|
    ensures (TrimZeros(s) + Zeros(6))[..|s|] == s
  {
    if s != "" && s[|s| - 1] == '0' {
      var front := s[..|s| - 1];
      TrimmedThenPadded(front);
      var t := TrimZeros(front) + Zeros(6);
      assert t[..|s|] == t[..|s| - 1] + [t[|s| - 1]];
      assert t[|s| - 1] == '0';
    } else {
      assert (s + Zeros(6))[..|s|] == s;
    }
  }

  lemma SixDigits(n: nat)
    requires n < UNITS
    ensures |Print(n)| <= 6
  {
    if n >= 1000 {
      PrintInGroups(n);
      SmallPrint(n / 1000);
      SmallPrint(n % 1000);
    } else {
      SmallPrint(n);
    }
  }

  /** The parser undoes the printer on every natural number of base units. */
  lemma ParseUndoesFormat(base: nat)
    ensures ParseAmount(FormatWxrp(base)) == Some(base)
  {
    hide ParseAmount, Grouped, TrimZeros, PadStart, Print, Keep, Value;
    var whole, frac := base / UNITS, base % UNITS;
    GroupingIsOnlyCommas(whole);
    if frac == 0 {
      ParseWhole(Grouped(whole), whole);
    } else {
      TrimmedFraction(frac);
      ParseWithFraction(Grouped(whole), whole, TrimZeros(PadStart(Print(frac), 6)));
    }
  }

  lemma TrimmedFraction(frac: nat)
    requires frac < UNITS
    ensures var t := TrimZeros(PadStart(Print(frac), 6));
            AllDigits(t) && AllDigits(PadSix(t)) && Value(PadSix(t)) == frac
  {
    hide Print, TrimZeros;
    var padded := PadStart(Print(frac), 6);
    SixDigits(frac);
    PadStartValue(Print(frac), 6);
    TrimmedThenPadded(padded);
  }

  lemma ParseWhole(text: string, whole: nat)
    requires Keep(text, NoSeparator) == Print(whole)
    ensures ParseAmount(text) == Some(whole * UNITS)
  {
    hide Print, Keep, PadSix;
    SplitAtDot(Print(whole), "");
    NoFraction();
  }

  lemma NoFraction()
    ensures AllDigits(PadSix("")) && Value(PadSix("")) == 0
  {
    assert PadSix("") == Zeros(6);
    ValueZeros(6);
  }

  lemma ParseWithFraction(text: string, whole: nat, frac: string)
    requires Keep(text, NoSeparator) == Print(whole) && AllDigits(frac)
    ensures AllDigits(PadSix(frac))
    ensures ParseAmount(text + "." + frac) == Some(whole * UNITS + Value(PadSix(frac)))
  {
    hide Print, Keep, PadSix;
    KeepThrough(text, '.', frac);
    SplitAtDot(Print(whole), frac);
    SplitAtDot(frac, "");
    PadSixDigits(frac);
  }

  // ------------------------------------------------------------ the printed text

  function FromRight(g: string, k: nat): char
    requires k < |g|
  {
    g[|g| - 1 - k]
  }

  ghost predicate InThrees(g: string) {
    && g != "" && |g| % 4 != 0
    && forall k :: 0 <= k < |g| ==> if k % 4 == 3 then FromRight(g, k) == ',' else IsDigit(FromRight(g, k))
  }

  /** Counted from the right, every fourth character is a comma, every other one a digit, and the
      text does not begin with a comma. */
  lemma {:induction false} GroupsOfThree(n: nat)
    ensures InThrees(Grouped(n))
    decreases n
  {
    if n < 1000 {
      SmallPrint(n);
      assert Grouped(n) == Print(n);
    } else {
      GroupsOfThree(n / 1000);
      SmallPrint(n % 1000);
      PadStartValue(Print(n % 1000), 3);
      OneMoreThree(Grouped(n / 1000), PadStart(Print(n % 1000), 3));
    }
  }

  lemma OneMoreThree(front: string, digits: string)
    requires InThrees(front) && |digits| == 3 && AllDigits(digits)
    ensures InThrees(front + "," + digits)
  {
    var g := front + "," + digits;
    forall k | 0 <= k < |g|
      ensures if k % 4 == 3 then FromRight(g, k) == ',' else IsDigit(FromRight(g, k))
    {
      if k >= 4 {
        assert FromRight(g, k) == FromRight(front, k - 4);
      } else if k < 3 {
        assert FromRight(g, k) == digits[2 - k];
      }
    }
  }

  /** Exactly the zeros at the end go. */
  lemma {:induction false} OnlyZerosGo(s: string)
    ensures var t := TrimZeros(s);
            |t| <= |s| && s == t + Zeros(|s| - |t|) && (t == "" || t[|t| - 1] != '0')
  {
    if s != "" && s[|s| - 1] == '0' {
      var front := s[..|s| - 1];
      OnlyZerosGo(front);
      var t := TrimZeros(front);
      assert TrimZeros(s) == t;
      hide TrimZeros;
      assert s == front + ['0'];
      OneMoreZero(|front| - |t|);
      Regroup(t, Zeros(|front| - |t|), ['0']);
    } else {
      assert s == s + Zeros(0);
    }
  }

  lemma OneMoreZero(k: nat)
    ensures Zeros(k + 1) == Zeros(k) + ['0']
  {
  }

  /** The printed amount is the grouped whole part, and after a dot the fraction without zeros at
      its end, if there is one. */
  lemma PrintedText(base: nat)
    ensures base % UNITS == 0 ==> FormatWxrp(base) == Grouped(base / UNITS)
    ensures base % UNITS != 0 ==>
      var digits := PadStart(Print(base % UNITS), 6);
      var t := TrimZeros(digits);
      && FormatWxrp(base) == Grouped(base / UNITS) + "." + t
      && |digits| == 6 && 1 <= |t| <= 6 && t[|t| - 1] != '0' && digits == t + Zeros(6 - |t|)
  {
    var frac := base % UNITS;
    if frac != 0 {
      SixDigits(frac);
      var digits := PadStart(Print(frac), 6);
      PadStartValue(Print(frac), 6);
      OnlyZerosGo(digits);
      if TrimZeros(digits) == "" {
        assert digits == Zeros(6);
        ValueZeros(6);
        assert false;
      }
    }
  }

  // ------------------------------------------------------------ what parses

  /** Digits, and maybe a dot and digits, and then maybe another dot and anything. */
  predicate IsAmount(s: string, whole: string, frac: string, rest: string) {
    && whole != "" && AllDigits(whole) && AllDigits(frac)
    && ((s == whole && frac == "") || s == whole + "." + frac || s == whole + "." + frac + "." + rest)
  }

  ghost predicate IsAmountText(s: string) {
    exists whole, frac, rest :: IsAmount(s, whole, frac, rest)
  }

  /** Separators dropped, exactly the text of that form parses, to its whole part and six digits of
      its fraction. */
  lemma ParsesExactly(raw: string)
    ensures ParseAmount(raw).Some? <==> IsAmountText(Keep(raw, NoSeparator))
    ensures forall whole, frac, rest :: IsAmount(Keep(raw, NoSeparator), whole, frac, rest) ==>
              AllDigits(PadSix(frac))
              && ParseAmount(raw) == Some(Value(whole) * UNITS + Value(PadSix(frac)))
  {
    var s := Keep(raw, NoSeparator);
    forall whole, frac, rest | IsAmount(s, whole, frac, rest)
      ensures AllDigits(PadSix(frac)) && ParseAmount(raw) == Some(Value(whole) * UNITS + Value(PadSix(frac)))
    {
      AmountParses(raw, whole, frac, rest);
    }
    if ParseAmount(raw).Some? {
      AmountOfParts(s);
      assert IsAmount(s, UpToDot(s), SecondPart(s), AfterDot(AfterDot(s)));
    }
    if IsAmountText(s) {
      var whole, frac, rest :| IsAmount(s, whole, frac, rest);
      AmountParses(raw, whole, frac, rest);
      assert ParseAmount(raw).Some?;
    }
  }

  lemma AmountParses(raw: string, whole: string, frac: string, rest: string)
    requires IsAmount(Keep(raw, NoSeparator), whole, frac, rest)
    ensures AllDigits(PadSix(frac))
    ensures ParseAmount(raw) == Some(Value(whole) * UNITS + Value(PadSix(frac)))
  {
    PadSixDigits(frac);
    PartsOfAmount(Keep(raw, NoSeparator), whole, frac, rest);
  }

  lemma PartsOfAmount(s: string, whole: string, frac: string, rest: string)
    requires IsAmount(s, whole, frac, rest)
    ensures s != "" && UpToDot(s) == whole && SecondPart(s) == frac
  {
    if s == whole {
      SplitAtDot(whole, "");
    } else if s == whole + "." + frac {
      SplitAtDot(whole, frac);
      SplitAtDot(frac, "");
    } else {
      assert s == whole + "." + (frac + "." + rest);
      SplitAtDot(whole, frac + "." + rest);
      SplitAtDot(frac, rest);
    }
  }

  lemma AmountOfParts(s: string)
    requires UpToDot(s) != "" && AllDigits(UpToDot(s)) && AllDigits(SecondPart(s))
    ensures IsAmount(s, UpToDot(s), SecondPart(s), AfterDot(AfterDot(s)))
  {
    var after := AfterDot(s);
    UpToDotIsPrefix(s);
    UpToDotIsPrefix(after);
    if UpToDot(s) == s {
      SplitAtDot(s, "");
    } else if UpToDot(after) != after {
      assert s == UpToDot(s) + "." + (UpToDot(after) + "." + AfterDot(after));
      assert s == UpToDot(s) + "." + UpToDot(after) + "." + AfterDot(after);
    }
  }

  // ------------------------------------------------------------ the sanitizer

  function Pow2(k: nat): (p: nat)
    ensures p > 0
  {
    if k == 0 then 1 else 2 * Pow2(k - 1)
  }

  /** The least integer that rounds to infinity as a double: 2^970 * (2^54 - 1). */
  const DOUBLE_OVERFLOW: nat := Pow2(970) * 0x3F_FFFF_FFFF_FFFF

  /** Everything but digits and the first dot dropped. */
  function OneDot(raw: string): string {
    var cleaned := Keep(raw, DigitOrDot);
    if HasDot(cleaned) then UpToDot(cleaned) + "." + Keep(AfterDot(cleaned), NotDot) else cleaned
  }

  /** The comparisons with the ceiling are exact on doubles: rounding is monotone and keeps
      every integer up to the ceiling. */
  function SanitizeAmountInput(raw: string): string {
    var oneDot := OneDot(raw);
    var whole, frac := UpToDot(oneDot), SecondPart(oneDot);
    OneDotParts(raw);
    var wholeNum := Value(whole);
    if wholeNum >= DOUBLE_OVERFLOW then ""
    else if wholeNum >= MAX_DEPOSIT_WXRP then Print(MAX_DEPOSIT_WXRP)
    else if HasDot(Keep(raw, DigitOrDot)) then Print(wholeNum) + "." + FirstSix(frac)
    else Print(wholeNum)
  }

  /** The digits typed before the first dot, and all digits typed after it. */
  function TypedWhole(raw: string): string {
    UpToDot(Keep(raw, DigitOrDot))
  }

  function TypedFrac(raw: string): string {
    Keep(AfterDot(Keep(raw, DigitOrDot)), NotDot)
  }

  lemma {:induction false} KeptSatisfy(s: string, p: char -> bool)
    ensures forall i :: 0 <= i < |Keep(s, p)| ==> p(Keep(s, p)[i])
  {
    if s != "" {
      KeptSatisfy(s[1..], p);
    }
  }

  lemma {:induction false} AfterDotSatisfies(s: string, p: char -> bool)
    requires forall i :: 0 <= i < |s| ==> p(s[i])
    ensures forall i :: 0 <= i < |AfterDot(s)| ==> p(AfterDot(s)[i])
    ensures forall i :: 0 <= i < |UpToDot(s)| ==> p(UpToDot(s)[i]) && UpToDot(s)[i] != '.'
  {
    if s != "" && s[0] != '.' {
      AfterDotSatisfies(s[1..], p);
    }
  }

  lemma {:induction false} KeepSatisfies(s: string, p: char -> bool, q: char -> bool)
    requires forall i :: 0 <= i < |s| ==> q(s[i])
    ensures forall i :: 0 <= i < |Keep(s, p)| ==> q(Keep(s, p)[i]) && p(Keep(s, p)[i])
  {
    if s != "" {
      KeepSatisfies(s[1..], p, q);
    }
  }

  lemma OneDotParts(raw: string)
    ensures AllDigits(TypedWhole(raw)) && AllDigits(TypedFrac(raw))
    ensures UpToDot(OneDot(raw)) == TypedWhole(raw) && SecondPart(OneDot(raw)) == TypedFrac(raw)
  {
    var cleaned := Keep(raw, DigitOrDot);
    KeptSatisfy(raw, DigitOrDot);
    AfterDotSatisfies(cleaned, DigitOrDot);
    KeepSatisfies(AfterDot(cleaned), NotDot, DigitOrDot);
    UpToDotIsPrefix(cleaned);
    SplitAtDot(TypedWhole(raw), TypedFrac(raw));
    SplitAtDot(TypedFrac(raw), "");
    if !HasDot(cleaned) {
      assert cleaned == TypedWhole(raw);
    }
  }

  /** The typed decimal number in base units, truncated: N.F with F read on all its digits. */
  function TypedUnits(raw: string): nat {
    OneDotParts(raw);
    Value(TypedWhole(raw)) * UNITS + Millionths(Value(TypedFrac(raw)), Pow10(|TypedFrac(raw)|))
  }

  /** The fraction n / p in whole millionths. */
  function Millionths(n: nat, p: nat): nat
    requires p > 0
  {
    n * UNITS / p
  }

  function Min(a: nat, b: nat): nat {
    if a <= b then a else b
  }

  lemma Pow10Six()
    ensures Pow10(6) == UNITS
  {
    assert Pow10(3) == 1000;
    assert Pow10(4) == 10 * Pow10(3) && Pow10(5) == 10 * Pow10(4) && Pow10(6) == 10 * Pow10(5);
  }

  lemma {:induction false} Pow10Sum(a: nat, b: nat)
    ensures Pow10(a + b) == Pow10(a) * Pow10(b)
  {
    if a > 0 {
      Pow10Sum(a - 1, b);
      assert Pow10(a + b) == 10 * (Pow10(a - 1) * Pow10(b)) == (10 * Pow10(a - 1)) * Pow10(b);
    }
  }

  lemma DivideExact(q: nat, d: nat, r: nat)
    requires r < d
    ensures (q * d + r) / d == q
  {
    var n := q * d + r;
    var k := n / d;
    assert n == k * d + n % d;
    if k < q {
      Monotone(k + 1, q, d);
    } else if k > q {
      Monotone(q + 1, k, d);
    }
  }

  lemma Monotone(a: nat, b: nat, d: nat)
    requires a <= b
    ensures a * d <= b * d
  {
  }

  /** Cutting and padding to six digits is truncation to millionths. */
  lemma SixDigitsTruncate(f: string)
    requires AllDigits(f)
    ensures AllDigits(PadSix(FirstSix(f)))
    ensures Value(PadSix(FirstSix(f))) == Millionths(Value(f), Pow10(|f|)) < UNITS
  {
    Pow10Six();
    if |f| <= 6 {
      PadShort(f);
    } else {
      CutLong(f);
    }
  }

  lemma PadShort(f: string)
    requires AllDigits(f) && |f| <= 6
    ensures AllDigits(PadSix(f)) && Value(PadSix(f)) == Millionths(Value(f), Pow10(|f|))
  {
    hide Value, Pow10, PadSix, Millionths, Zeros;
    var zeros := 6 - |f|;
    PadSixAppends(f);
    ValueConcat(f, Zeros(zeros));
    ValueZeros(zeros);
    Pow10Sum(zeros, |f|);
    Pow10Six();
    WholeMillionths(Value(f), Pow10(zeros), Pow10(|f|));
  }

  lemma WholeMillionths(v: nat, a: nat, b: nat)
    requires b > 0 && a * b == UNITS
    ensures Millionths(v, b) == v * a + 0
  {
    ScaledUp(v, a, b, UNITS);
  }

  lemma PadSixAppends(f: string)
    requires |f| <= 6
    ensures PadSix(f) == f + Zeros(6 - |f|)
  {
  }

  lemma CutLong(f: string)
    requires AllDigits(f) && |f| > 6
    ensures AllDigits(PadSix(FirstSix(f))) && Value(PadSix(FirstSix(f))) == Millionths(Value(f), Pow10(|f|))
  {
    hide Value, Pow10, PadSix;
    var p, rest := f[..6], f[6..];
    PadSixAppends(p);
    assert p + Zeros(0) == p && f == p + rest;
    ValueConcat(p, rest);
    Pow10Sum(6, |rest|);
    Pow10Six();
    ScaledDown(Value(p), Value(rest), Pow10(|rest|), Value(f), Pow10(|f|));
  }

  lemma ScaledUp(v: nat, a: nat, b: nat, u: nat)
    requires b > 0 && a * b == u
    ensures v * u / b == v * a
  {
    assert v * u == v * (a * b) == (v * a) * b + 0;
    DivideExact(v * a, b, 0);
  }

  lemma ScaledDown(v: nat, r: nat, d: nat, n: nat, p: nat)
    requires r < d && n == v * d + r && p == UNITS * d
    ensures n * UNITS / p == v
  {
    assert n * UNITS == v * p + r * UNITS;
    DivideExact(v, p, r * UNITS);
  }

  /** The parser on text of the sanitizer's form. */
  lemma ParseClean(whole: nat, frac: string)
    requires AllDigits(frac)
    ensures AllDigits(PadSix(frac))
    ensures ParseAmount(Print(whole) + "." + frac) == Some(whole * UNITS + Value(PadSix(frac)))
    ensures ParseAmount(Print(whole)) == Some(whole * UNITS)
  {
    KeepAll(Print(whole), NoSeparator);
    ParseWhole(Print(whole), whole);
    ParseWithFraction(Print(whole), whole, frac);
  }

  /** Exactly the inputs whose integer part is finite as a double are sanitized into text that
      parses, and then the value is the typed decimal truncated to six places and capped. */
  lemma SanitizedParses(raw: string)
    ensures AllDigits(TypedWhole(raw))
    ensures ParseAmount(SanitizeAmountInput(raw)).Some? <==> Value(TypedWhole(raw)) < DOUBLE_OVERFLOW
    ensures Value(TypedWhole(raw)) < DOUBLE_OVERFLOW ==>
      ParseAmount(SanitizeAmountInput(raw)) == Some(Min(TypedUnits(raw), MAX_DEPOSIT_WXRP * UNITS))
  {
    SanitizerCases(raw);
    hide SanitizeAmountInput, Print, PadSix, ParseAmount, Value;
    if Value(TypedWhole(raw)) >= DOUBLE_OVERFLOW {
      NothingParsesAsNothing();
    } else if Value(TypedWhole(raw)) >= MAX_DEPOSIT_WXRP {
      ParseClean(MAX_DEPOSIT_WXRP, "");
    } else {
      BelowCeiling(raw);
    }
  }

  lemma BelowCeiling(raw: string)
    requires AllDigits(TypedWhole(raw)) && AllDigits(TypedFrac(raw)) && Value(TypedWhole(raw)) < MAX_DEPOSIT_WXRP
    ensures var whole := Value(TypedWhole(raw));
      && TypedUnits(raw) < MAX_DEPOSIT_WXRP * UNITS
      && ParseAmount(Print(whole) + "." + FirstSix(TypedFrac(raw))) == Some(TypedUnits(raw))
      && (!HasDot(Keep(raw, DigitOrDot)) ==> ParseAmount(Print(whole)) == Some(TypedUnits(raw)))
  {
    hide Print, ParseAmount, PadSix;
    SixDigitsTruncate(TypedFrac(raw));
    ParseClean(Value(TypedWhole(raw)), FirstSix(TypedFrac(raw)));
    if !HasDot(Keep(raw, DigitOrDot)) {
      NoDotNoFraction(raw);
    }
  }

  lemma NothingParsesAsNothing()
    ensures ParseAmount("") == None
  {
  }

  /** The sanitizer in terms of what was typed. */
  lemma SanitizerCases(raw: string)
    ensures AllDigits(TypedWhole(raw)) && AllDigits(TypedFrac(raw))
    ensures var whole := Value(TypedWhole(raw));
      SanitizeAmountInput(raw) ==
        if whole >= DOUBLE_OVERFLOW then ""
        else if whole >= MAX_DEPOSIT_WXRP then Print(MAX_DEPOSIT_WXRP)
        else if HasDot(Keep(raw, DigitOrDot)) then Print(whole) + "." + FirstSix(TypedFrac(raw))
        else Print(whole)
  {
    OneDotParts(raw);
  }

  lemma NoDotNoFraction(raw: string)
    requires !HasDot(Keep(raw, DigitOrDot))
    ensures TypedFrac(raw) == "" && Value("") == 0
  {
    var cleaned := Keep(raw, DigitOrDot);
    KeptSatisfy(raw, DigitOrDot);
    assert forall i :: 0 <= i < |cleaned| ==> cleaned[i] != '.';
    SplitAtDot(cleaned, "");
  }

  /** Text of the sanitizer's form is left as it is. */
  lemma CleanIsFixed(whole: nat, frac: string)
    requires whole < MAX_DEPOSIT_WXRP && AllDigits(frac) && |frac| <= 6
    ensures SanitizeAmountInput(Print(whole) + "." + frac) == Print(whole) + "." + frac
    ensures SanitizeAmountInput(Print(whole)) == Print(whole)
  {
    DottedIsFixed(whole, frac);
    DigitsAreFixed(whole);
  }

  lemma DottedIsFixed(whole: nat, frac: string)
    requires whole < MAX_DEPOSIT_WXRP && AllDigits(frac) && |frac| <= 6
    ensures SanitizeAmountInput(Print(whole) + "." + frac) == Print(whole) + "." + frac
  {
    hide Print;
    var s := Print(whole) + "." + frac;
    KeepAll(s, DigitOrDot);
    SplitAtDot(Print(whole), frac);
    KeepAll(frac, NotDot);
    OneDotParts(s);
  }

  lemma DigitsAreFixed(whole: nat)
    requires whole < MAX_DEPOSIT_WXRP
    ensures SanitizeAmountInput(Print(whole)) == Print(whole)
  {
    hide Print;
    KeepAll(Print(whole), DigitOrDot);
    SplitAtDot(Print(whole), "");
    OneDotParts(Print(whole));
  }

  /** The sanitizer's output is a fixed point of it exactly for the same inputs. */
  lemma SanitizedIsFixed(raw: string)
    ensures AllDigits(TypedWhole(raw))
    ensures SanitizeAmountInput(SanitizeAmountInput(raw)) == SanitizeAmountInput(raw)
       <==> Value(TypedWhole(raw)) < DOUBLE_OVERFLOW
  {
    OneDotParts(raw);
    var whole, frac := Value(TypedWhole(raw)), TypedFrac(raw);
    if whole >= DOUBLE_OVERFLOW {
      OneDotParts("");
    } else if whole >= MAX_DEPOSIT_WXRP {
      CeilingIsFixed();
    } else {
      CleanIsFixed(whole, FirstSix(frac));
    }
  }

  lemma CeilingIsFixed()
    ensures SanitizeAmountInput(Print(MAX_DEPOSIT_WXRP)) == Print(MAX_DEPOSIT_WXRP)
  {
    var s := Print(MAX_DEPOSIT_WXRP);
    KeepAll(s, DigitOrDot);
    SplitAtDot(s, "");
    OneDotParts(s);
  }

  lemma DigitsAreWhole(s: string)
    requires AllDigits(s)
    ensures TypedWhole(s) == s
  {
    KeepAll(s, DigitOrDot);
    SplitAtDot(s, "");
  }

  /** The digits of any number that is not finite as a double, the least one being
      DOUBLE_OVERFLOW, clear the field: nothing parses, and sanitizing again gives zero. */
  lemma LongNumberIsLost(n: nat)
    requires n >= DOUBLE_OVERFLOW
    ensures SanitizeAmountInput(Print(n)) == "" && ParseAmount("") == None
    ensures SanitizeAmountInput("") == "0"
  {
    hide Print, SanitizeAmountInput, DOUBLE_OVERFLOW;
    DigitsAreWhole(Print(n));
    SanitizerCases(Print(n));
    NothingParsesAsNothing();
    SanitizedNothing();
  }

  lemma SanitizedNothing()
    ensures SanitizeAmountInput("") == "0"
  {
    OneDotParts("");
    assert Print(0) == "0";
  }
}
