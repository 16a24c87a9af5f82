/**
 Money as text: the SimpleFIN parser (internal/simplefin/client.go), the vendor
 parsers (internal/connectors/billeriq, internal/connectors/columbiagaspa,
 which are the same code) and the printer (internal/handlers/view.go). Printing
 is exact decimal printing; arithmetic is that of int64.
 */
module Money {
  import opened Basics
  import opened Text

  // ----- the parsers as functions -----

  /** Where the first dot is, or the length. */
  function DotAt(s: string): (k: nat)
    ensures k <= |s|
    ensures forall i :: 0 <= i < k ==> s[i] != '.'
    ensures k < |s| ==> s[k] == '.'
  {
    if s == "" || s[0] == '.' then 0 else 1 + DotAt(s[1..])
  }

  /** The two digits of cents that a fractional part is cut or filled up to. */
  function CentsPart(frac: Option<string>): string {
    match frac
    case None => "00"
    case Some(f) => if |f| == 1 then f + "0" else if |f| > 2 then f[..2] else f
  }

  function Total(negative: bool, whole: int, frac: int): int {
    var total := Wrap(Wrap(whole * 100) + frac);
    if negative then Wrap(-total) else total
  }

  function WholePart(s: string): string {
    if DotAt(s) == 0 then "0" else s[..DotAt(s)]
  }

  function FracPart(s: string): Option<string> {
    if DotAt(s) == |s| then None else Some(s[DotAt(s) + 1..])
  }

  /** What both parsers do with the text after its sign. */
  function Unsigned(negative: bool, s: string): Option<int> {
    match (ParseInt(WholePart(s)), ParseInt(CentsPart(FracPart(s))))
    case (Some(w), Some(f)) => Some(Total(negative, w, f))
    case _ => None
  }

  /** `parseMoneyToCents`; `None` is an error. */
  function MoneyToCents(s: string): Option<int> {
    var t := TrimSpace(s);
    if t == "" then None
    else if t[0] == '-' then Unsigned(true, t[1..])
    else if t[0] == '+' then Unsigned(false, t[1..])
    else Unsigned(false, t)
  }

  predicate Numeric(c: char) {
    IsDigit(c) || c == '.' || c == '-'
  }

  /** The regular expression that drops everything but digits, dots and minus signs. */
  function Strip(s: string): string {
    if s == "" then "" else if Numeric(s[0]) then [s[0]] + Strip(s[1..]) else Strip(s[1..])
  }

  /** `parseDollarsToCents`. */
  function DollarsToCents(s: string): Option<int> {
    var t := Strip(s);
    if t == "" then None
    else if t[0] == '-' then Unsigned(true, t[1..])
    else Unsigned(false, t)
  }

  // ----- the parsers as written -----

  /** Cuts or fills the fractional part to two digits. */
  method FillCents(hasFrac: bool, f: string) returns (frac: string)
    ensures frac == CentsPart(if hasFrac then Some(f) else None)
  {
    frac := f;
    if !hasFrac {
      frac := "00";
    } else if |frac| == 1 {
      frac := frac + "0";
    } else if |frac| > 2 {
      frac := frac[..2];
    }
  }

  /** The common tail of the parsers, with the locals it reassigns. */
  method ParseTail(negative: bool, s: string) returns (r: Option<int>)
    ensures r == Unsigned(negative, s)
  {
    var k := DotAt(s);
    var hasFrac := k < |s|;
    var whole, frac := s[..k], if hasFrac then s[k + 1..] else "";
    if whole == "" {
      whole := "0";
    }
    frac := FillCents(hasFrac, frac);
    var wholeCents := ParseInt(whole);
    if wholeCents.None? {
      return None;
    }
    var fracCents := ParseInt(frac);
    if fracCents.None? {
      return None;
    }
    var total := AddCents(negative, wholeCents.value, fracCents.value);
    r := Some(total);
  }

  /** Its arithmetic, in int64. */
  method AddCents(negative: bool, whole: int, frac: int) returns (total: int)
    ensures total == Total(negative, whole, frac)
  {
    total := Wrap(Wrap(whole * 100) + frac);
    if negative {
      total := Wrap(-total);
    }
  }

  method ParseMoneyToCents(s: string) returns (r: Option<int>)
    ensures r == MoneyToCents(s)
    ensures forall a :: IsAmount(a) && Written(a) == s ==> r == Expected(a, Hundredths(a))
  {
    NumeralsAreExact(s);
    var t := TrimSpace(s);
    if t == "" {
      return None;
    }
    var negative := false;
    if t[0] == '-' {
      negative := true;
      t := t[1..];
    } else if t[0] == '+' {
      t := t[1..];
    }
    r := ParseTail(negative, t);
  }

  method ParseDollarsToCents(s: string) returns (r: Option<int>)
    ensures r == DollarsToCents(s)
    ensures forall a :: IsAmount(a) && Written(a) == s ==> r == Expected(a, Hundredths(a))
  {
    NumeralsAreExact(s);
    var stripped := Strip(s);
    if stripped == "" {
      return None;
    }
    var negative := stripped[0] == '-';
    if negative {
      stripped := stripped[1..];
    }
    r := ParseTail(negative, stripped);
  }

  // ----- what an amount is -----

  /** A decimal numeral: sign, digits, and digits after a dot if there is one. */
  datatype Amount = Amount(negative: bool, whole: string, frac: Option<string>)

  predicate IsAmount(a: Amount) {
    && AllDigits(a.whole) && (a.frac.Some? ==> AllDigits(a.frac.value))
    && (a.whole != "" || (a.frac.Some? && a.frac.value != ""))
  }

  function Written(a: Amount): string {
    (if a.negative then "-" else "") + a.whole + (if a.frac.Some? then "." + a.frac.value else "")
  }

  function FracDigits(a: Amount): string {
    if a.frac.Some? then a.frac.value else ""
  }

  /** A hundred times the value, cut toward zero: the digits as one number, over a power of ten. */
  function Hundredths(a: Amount): int
    requires IsAmount(a)
  {
    ValueOfConcat(a.whole, FracDigits(a));
    var magnitude := 100 * Value(a.whole + FracDigits(a)) / Pow10(|FracDigits(a)|);
    if a.negative then -magnitude else magnitude
  }

  // ----- arithmetic -----

  lemma DivideSum(a: nat, b: nat, p: nat)
    requires p > 0
    ensures (a * p + b) / p == a + b / p
  {
    var q := b / p;
    assert a * p + b == (a + q) * p + b % p;
    QuotientIsUnique(a * p + b, p, a + q, b % p);
  }

  lemma QuotientIsUnique(n: nat, p: nat, q: nat, r: nat)
    requires p > 0 && n == q * p + r && r < p
    ensures n / p == q
  {
    var q', r' := n / p, n % p;
    assert (q - q') * p == r' - r;
    assert q - q' >= 1 ==> (q - q') * p >= p;
    assert q' - q >= 1 ==> (q' - q) * p >= p;
  }

  lemma ScaledSum(w: nat, x: nat, p: nat)
    requires p > 0
    ensures 100 * (w * p + x) / p == 100 * w + 100 * x / p
  {
    assert 100 * (w * p + x) == (100 * w) * p + 100 * x;
    DivideSum(100 * w, 100 * x, p);
  }

  lemma HeadOfScaled(h: nat, t: nat, q: nat)
    requires t < q
    ensures 100 * (h * q + t) / (100 * q) == h
  {
    assert 100 * (h * q + t) == h * (100 * q) + 100 * t;
    QuotientIsUnique(100 * (h * q + t), 100 * q, h, 100 * t);
  }

  lemma LongFraction(f: string)
    requires AllDigits(f) && |f| > 2
    ensures 100 * Value(f) / Pow10(|f|) == Value(f[..2])
  {
    var head, tail := f[..2], f[2..];
    assert f == head + tail;
    ValueOfConcat(head, tail);
    ValueBound(tail);
    HundredTimes(|f| - 2);
    HeadOfScaled(Value(head), Value(tail), Pow10(|tail|));
  }

  lemma HundredTimes(n: nat)
    ensures Pow10(n + 2) == 100 * Pow10(n)
  {
    assert Pow10(n + 2) == 10 * Pow10(n + 1);
  }

  lemma SmallPowers()
    ensures Pow10(0) == 1 && Pow10(1) == 10 && Pow10(2) == 100
  {
    assert Pow10(1) == 10 * Pow10(0);
    assert Pow10(2) == 10 * Pow10(1);
  }

  lemma PaddedDigit(f: string)
    requires AllDigits(f)
    ensures AllDigits(f + "0") && Value(f + "0") == 10 * Value(f)
  {
    assert (f + "0")[..|f|] == f;
  }

  lemma Tenfold(n: nat)
    ensures 100 * n / 10 == 10 * n && 100 * n / 100 == n
  {}

  lemma ShortFraction(f: string)
    requires AllDigits(f) && 1 <= |f| <= 2
    ensures AllDigits(CentsPart(Some(f))) && Value(CentsPart(Some(f))) == 100 * Value(f) / Pow10(|f|)
  {
    SmallPowers();
    Tenfold(Value(f));
    if |f| == 1 {
      PaddedDigit(f);
      assert Pow10(|f|) == 10;
    } else {
      assert Pow10(|f|) == 100;
    }
  }

  /** The cents the parsers read are those of the fraction. */
  lemma CentsOfFraction(f: string)
    requires AllDigits(f) && f != ""
    ensures CentsPart(Some(f)) != "" && AllDigits(CentsPart(Some(f)))
    ensures Value(CentsPart(Some(f))) == 100 * Value(f) / Pow10(|f|)
    ensures Value(CentsPart(Some(f))) < 100
  {
    if |f| <= 2 {
      ShortFraction(f);
    } else {
      LongFraction(f);
    }
    TwoDigitsBelowHundred(CentsPart(Some(f)));
  }

  lemma TwoDigitsBelowHundred(s: string)
    requires AllDigits(s) && |s| == 2
    ensures Value(s) < 100
  {
    ValueBound(s);
    SmallPowers();
  }

  /** The cents of a fraction, cut off. */
  function FracCents(f: string): int
    requires AllDigits(f)
  {
    100 * Value(f) / Pow10(|f|)
  }

  lemma FracCentsIsNat(f: string)
    requires AllDigits(f)
    ensures FracCents(f) >= 0
  {
    SmallPowers();
    if f != "" {
      CentsOfFraction(f);
    }
  }

  function Signed(negative: bool, n: int): int {
    if negative then -n else n
  }

  lemma HundredthsSplit(a: Amount)
    requires IsAmount(a)
    ensures Hundredths(a) == Signed(a.negative, 100 * Value(a.whole) + FracCents(FracDigits(a)))
  {
    var f := FracDigits(a);
    ValueOfConcat(a.whole, f);
    ScaledSum(Value(a.whole), Value(f), Pow10(|f|));
  }

  lemma WrapOnce(x: int, y: int)
    ensures Wrap(Wrap(x) + y) == Wrap(x + y) && Wrap(-Wrap(x)) == Wrap(-x)
  {
    var m := 0x1_0000_0000_0000_0000;
    var k := (x - MIN_INT64) / m;
    assert Wrap(x) == x - k * m;
    WrapShift(x + y, k);
    WrapShift(-x, -k);
  }

  lemma WrapShift(x: int, k: int)
    ensures Wrap(x - k * 0x1_0000_0000_0000_0000) == Wrap(x)
  {
    var y := x - MIN_INT64;
    var q := y / 0x1_0000_0000_0000_0000;
    Remainder(y, q, y % 0x1_0000_0000_0000_0000);
    Remainder(y - k * 0x1_0000_0000_0000_0000, q - k, y % 0x1_0000_0000_0000_0000);
  }

  lemma Remainder(n: int, q: int, r: int)
    requires n == q * 0x1_0000_0000_0000_0000 + r && 0 <= r < 0x1_0000_0000_0000_0000
    ensures n % 0x1_0000_0000_0000_0000 == r
  {}

  // ----- exactness -----

  lemma {:induction false} DotAfterDigits(w: string, f: string)
    requires AllDigits(w)
    ensures DotAt(w) == |w| && DotAt(w + "." + f) == |w|
    decreases |w|
  {
    if w == "" {
    } else {
      DotAfterDigits(w[1..], f);
      assert (w + "." + f)[1..] == w[1..] + "." + f;
    }
  }

  lemma TotalIsWrapped(negative: bool, whole: int, frac: int)
    ensures Total(negative, whole, frac) == Wrap(Signed(negative, 100 * whole + frac))
  {
    WrapOnce(whole * 100, frac);
    WrapOnce(whole * 100 + frac, 0);
  }

  lemma WholeParses(w: string)
    requires AllDigits(w)
    ensures ParseInt(if w == "" then "0" else w) == if Value(w) > MAX_INT64 then None else Some(Value(w))
  {
    assert Value("0") == 0 by { assert "0"[..0] == ""; }
    ParseDigits(if w == "" then "0" else w);
  }

  lemma CentsParse(frac: Option<string>)
    requires frac.Some? ==> AllDigits(frac.value)
    ensures var f := if frac.Some? then frac.value else "";
            ParseInt(CentsPart(frac)) == if frac == Some("") then None else Some(FracCents(f))
  {
    SmallPowers();
    if frac.None? {
      assert Value("00") == 0 by { assert "00"[..1] == "0" && "0"[..0] == ""; }
      ParseDigits("00");
    } else if frac.value != "" {
      CentsOfFraction(frac.value);
      ParseDigits(CentsPart(frac));
    }
  }

  lemma CutAtDot(a: Amount)
    requires IsAmount(a)
    ensures var s := Written(a.(negative := false));
            WholePart(s) == (if a.whole == "" then "0" else a.whole) && FracPart(s) == a.frac
  {
    var s := Written(a.(negative := false));
    DotAfterDigits(a.whole, FracDigits(a));
    if a.frac.Some? {
      assert s == a.whole + "." + a.frac.value;
      assert s[..|a.whole|] == a.whole && s[|a.whole| + 1..] == a.frac.value;
    } else {
      assert s == a.whole && s[..|s|] == s;
    }
  }

  /** The parsers on the text after the sign, given what its two parts parse to. */
  lemma UnsignedFromParts(a: Amount, whole: Option<int>, cents: Option<int>)
    requires IsAmount(a)
    requires ParseInt(if a.whole == "" then "0" else a.whole) == whole && ParseInt(CentsPart(a.frac)) == cents
    ensures Unsigned(a.negative, Written(a.(negative := false))) ==
              if whole.None? || cents.None? then None else Some(Total(a.negative, whole.value, cents.value))
  {
    CutAtDot(a);
  }

  /** What the parsers make of a numeral of so many hundredths. */
  function Expected(a: Amount, hundredths: int): Option<int>
    requires IsAmount(a)
  {
    if a.frac == Some("") || Value(a.whole) > MAX_INT64 then None else Some(Wrap(hundredths))
  }

  lemma UnsignedIsExact(a: Amount, w: int, c: int)
    requires IsAmount(a) && w == Value(a.whole)
    requires ParseInt(if a.whole == "" then "0" else a.whole) == if w > MAX_INT64 then None else Some(w)
    requires ParseInt(CentsPart(a.frac)) == if a.frac == Some("") then None else Some(c)
    ensures Unsigned(a.negative, Written(a.(negative := false))) == Expected(a, Signed(a.negative, 100 * w + c))
  {
    UnsignedFromParts(a, if w > MAX_INT64 then None else Some(w), if a.frac == Some("") then None else Some(c));
    TotalIsWrapped(a.negative, w, c);
  }

  lemma WrittenIsClean(a: Amount)
    requires IsAmount(a)
    ensures TrimSpace(Written(a)) == Written(a) && Strip(Written(a)) == Written(a) && Written(a) != ""
    ensures !a.negative ==> Written(a)[0] != '-' && Written(a)[0] != '+'
    ensures a.negative ==> Written(a)[0] == '-' && Written(a)[1..] == Written(a.(negative := false))
  {
    var s := Written(a);
    WrittenIsNumeric(a);
    TrimNothing(s);
    StripNothing(s);
    if a.negative {
      assert s[1..] == Written(a.(negative := false));
    }
  }

  lemma WrittenIsNumeric(a: Amount)
    requires IsAmount(a)
    ensures forall i :: 0 <= i < |Written(a)| ==> Numeric(Written(a)[i]) && !IsSpace(Written(a)[i])
  {}

  lemma {:induction false} StripNothing(s: string)
    requires forall i :: 0 <= i < |s| ==> Numeric(s[i])
    ensures Strip(s) == s
  {
    if s == "" {
    } else {
      StripNothing(s[1..]);
    }
  }

  /**
   Both parsers, on every decimal numeral: an error if it ends in a dot or its
   whole part exceeds int64, and otherwise a hundred times its value, cut toward
   zero, modulo the range of int64.
   */
  lemma ParsersAreExact(a: Amount)
    requires IsAmount(a)
    ensures MoneyToCents(Written(a)) == DollarsToCents(Written(a)) == Expected(a, Hundredths(a))
  {
    var w, c := PartsOf(a);
    UnsignedIsExact(a, w, c);
    ParsersShareTail(a);
  }

  /** The parser of bank balances also takes a plus sign, and blanks around the numeral. */
  lemma SignAndBlanks(a: Amount, before: string, plus: bool, after: string)
    requires IsAmount(a) && AllBlank(before) && AllBlank(after) && !(plus && a.negative)
    ensures MoneyToCents(before + ((if plus then "+" else "") + Written(a)) + after) == Expected(a, Hundredths(a))
  {
    var t := (if plus then "+" else "") + Written(a);
    NumeralEnds(a);
    assert t[|t| - 1] == Written(a)[|Written(a)| - 1];
    TrimmedIsTrimSpace(before + t + after, before, t, after);
    ParsersAreExact(a);
    if plus {
      PlusIsDropped(a, before + t + after);
    } else {
      assert t == Written(a);
      WrittenIsClean(a);
    }
  }

  lemma PlusIsDropped(a: Amount, s: string)
    requires IsAmount(a) && !a.negative && TrimSpace(s) == "+" + Written(a)
    ensures MoneyToCents(s) == MoneyToCents(Written(a))
  {
    WrittenIsClean(a);
    assert ("+" + Written(a))[0] == '+' && ("+" + Written(a))[1..] == Written(a);
  }

  /** A numeral neither starts nor ends with a blank. */
  lemma NumeralEnds(a: Amount)
    requires IsAmount(a)
    ensures var s := Written(a); s != "" && !IsSpace(s[0]) && !IsSpace(s[|s| - 1])
  {
    WrittenIsNumeric(a);
    WrittenIsClean(a);
  }

  lemma NumeralsAreExact(s: string)
    ensures forall a :: IsAmount(a) && Written(a) == s ==>
              MoneyToCents(s) == DollarsToCents(s) == Expected(a, Hundredths(a))
  {
    forall a | IsAmount(a) && Written(a) == s
      ensures MoneyToCents(s) == DollarsToCents(s) == Expected(a, Hundredths(a))
    {
      ParsersAreExact(a);
    }
  }

  /** What the two parts parse to, and how they make up the value. */
  lemma PartsOf(a: Amount) returns (w: int, c: int)
    requires IsAmount(a)
    ensures w == Value(a.whole) && c >= 0
    ensures ParseInt(if a.whole == "" then "0" else a.whole) == if w > MAX_INT64 then None else Some(w)
    ensures ParseInt(CentsPart(a.frac)) == if a.frac == Some("") then None else Some(c)
    ensures Hundredths(a) == Signed(a.negative, 100 * w + c)
  {
    w, c := Value(a.whole), FracCents(FracDigits(a));
    HundredthsSplit(a);
    WholeParses(a.whole);
    CentsParse(a.frac);
    FracCentsIsNat(FracDigits(a));
  }

  lemma ParsersShareTail(a: Amount)
    requires IsAmount(a)
    ensures MoneyToCents(Written(a)) == DollarsToCents(Written(a))
            == Unsigned(a.negative, Written(a.(negative := false)))
  {
    WrittenIsClean(a);
    if !a.negative {
      assert a.(negative := false) == a;
    }
  }

  /** So a numeral whose cents fit int64 is parsed to them if and only if it does not end in a dot. */
  lemma ParsesIffNoTrailingDot(a: Amount)
    requires IsAmount(a) && FitsInt64(Hundredths(a))
    ensures MoneyToCents(Written(a)) == Some(Hundredths(a)) <==> a.frac != Some("")
    ensures DollarsToCents(Written(a)) == Some(Hundredths(a)) <==> a.frac != Some("")
  {
    ParsersAreExact(a);
    WholeFits(a);
  }

  lemma WholeFits(a: Amount)
    requires IsAmount(a) && FitsInt64(Hundredths(a))
    ensures Value(a.whole) <= MAX_INT64
  {
    var w, c := PartsOf(a);
    SignedBound(a.negative, w, c);
  }

  lemma SignedBound(negative: bool, w: nat, c: nat)
    requires FitsInt64(Signed(negative, 100 * w + c))
    ensures w <= MAX_INT64
  {}

  // ----- printing and reading back -----

  /** `formatCentsPlain`. */
  function FormatPlain(cents: int): string {
    Written(AsAmount(cents))
  }

  /** `formatCents`. */
  function FormatCents(cents: int): string {
    "$" + FormatPlain(cents)
  }

  function AsAmount(cents: int): (a: Amount)
    ensures IsAmount(a)
  {
    var n := if cents < 0 then -cents else cents;
    Amount(cents < 0, Print(n / 100), Some([DigitChar(n / 10 % 10), DigitChar(n % 10)]))
  }

  lemma TwoDigits(n: nat)
    ensures Value([DigitChar(n / 10 % 10), DigitChar(n % 10)]) == n % 100
  {
    var f := [DigitChar(n / 10 % 10), DigitChar(n % 10)];
    assert f[..1] == [f[0]] && [f[0]][..0] == "";
    assert Value([f[0]]) == Digit(f[0]);
    LastTwo(n);
  }

  lemma LastTwo(n: nat)
    ensures 10 * (n / 10 % 10) + n % 10 == n % 100
  {
    assert n / 10 % 10 == n / 10 - 10 * (n / 100);
  }

  /** The two digits after the dot are the cents. */
  lemma PrintedCents(n: nat)
    ensures FracCents([DigitChar(n / 10 % 10), DigitChar(n % 10)]) == n % 100
  {
    var f := [DigitChar(n / 10 % 10), DigitChar(n % 10)];
    SmallPowers();
    TwoDigits(n);
    assert Pow10(|f|) == 100;
    Tenfold(n % 100);
  }

  lemma PrintedValue(cents: int)
    ensures Hundredths(AsAmount(cents)) == cents
  {
    var a := AsAmount(cents);
    var n: nat := if cents < 0 then -cents else cents;
    HundredthsSplit(a);
    ValueOfPrint(n / 100);
    PrintedCents(n);
    Parts(n);
  }

  lemma Parts(n: nat)
    ensures 100 * (n / 100) + n % 100 == n
  {}

  /** `t` is `s` with characters put in that are neither digits, dots nor minus signs. */
  predicate Decorates(t: string, s: string) {
    if t == "" then s == ""
    else if Numeric(t[0]) then s != "" && s[0] == t[0] && Decorates(t[1..], s[1..])
    else Decorates(t[1..], s)
  }

  lemma {:induction false} DecorationIsStripped(t: string, s: string)
    requires Decorates(t, s)
    ensures Strip(t) == s
    decreases |t|
  {
    if t == "" {
    } else {
      if Numeric(t[0]) {
        DecorationIsStripped(t[1..], s[1..]);
      } else {
        DecorationIsStripped(t[1..], s);
      }
    }
  }

  lemma {:induction false} NumericDecoratesItself(s: string)
    requires forall i :: 0 <= i < |s| ==> Numeric(s[i])
    ensures Decorates(s, s)
  {
    if s == "" {
    } else {
      NumericDecoratesItself(s[1..]);
    }
  }

  /**
   Reading back what was printed, however it is decorated with dollar signs,
   thousands separators, spaces or other text. The printing here is exact; that
   of the program goes through float64, which is exact for every amount of the
   INTEGER column and beyond, up to 2^53 cents.
   */
  lemma ReadsBackPrinted(cents: int, t: string)
    requires FitsInt64(cents) && Decorates(t, FormatPlain(cents))
    ensures DollarsToCents(t) == Some(cents)
    ensures DollarsToCents(FormatCents(cents)) == Some(cents)
  {
    var a := AsAmount(cents);
    PrintedValue(cents);
    ParsesIffNoTrailingDot(a);
    WrittenIsClean(a);
    DecorationIsStripped(t, FormatPlain(cents));
    PrintedIsDecorated(cents);
    DecorationIsStripped(FormatCents(cents), FormatPlain(cents));
  }

  /** A whole number as `%d` and `%.2f` print it: no leading zero but zero itself. */
  predicate IsPlainWhole(s: string) {
    s != "" && AllDigits(s) && (s[0] == '0' ==> s == "0")
  }

  lemma {:induction false} PrintIsPlain(n: nat)
    ensures IsPlainWhole(Print(n)) && (n > 0 ==> Print(n)[0] != '0')
  {
    if n < 10 {
    } else {
      PrintIsPlain(n / 10);
      assert Print(n)[0] == Print(n / 10)[0];
    }
  }

  /**
   What `formatCents` prints: a dollar sign, a minus sign exactly for a negative
   amount, the whole part without leading zeros, a dot and two digits; and the
   number they denote is the amount.
   */
  lemma PrintedForm(cents: int) returns (whole: string, frac: string)
    ensures FormatCents(cents) == "$" + (if cents < 0 then "-" else "") + whole + "." + frac
    ensures IsPlainWhole(whole) && |frac| == 2 && AllDigits(frac)
    ensures 100 * Value(whole) + Value(frac) == if cents < 0 then -cents else cents
  {
    var a := AsAmount(cents);
    var n: nat := if cents < 0 then -cents else cents;
    whole, frac := a.whole, a.frac.value;
    PrintIsPlain(n / 100);
    ValueOfPrint(n / 100);
    TwoDigits(n);
    Parts(n);
    assert FormatCents(cents) == "$" + (if cents < 0 then "-" else "") + whole + "." + frac;
  }

  lemma PrintedIsDecorated(cents: int)
    ensures Decorates(FormatCents(cents), FormatPlain(cents))
  {
    var s := FormatPlain(cents);
    assert forall i :: 0 <= i < |s| ==> Numeric(s[i]);
    NumericDecoratesItself(s);
    assert FormatCents(cents)[1..] == s;
  }
}
