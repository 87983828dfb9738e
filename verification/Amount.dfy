/** Stellar amounts in stroops: construction, decimal text, checked arithmetic and fees. */
module Amounts {
  import opened Wrappers

  const MAX_STROOPS: nat := 9_223_372_036_854_775_807
  const STROOP_DECIMALS: nat := 7
  const STROOPS_PER_XLM: nat := 10_000_000

  datatype AmountError =
    Zero | Overflow | ArithmeticOverflow | NegativeResult | DivisionByZero | LossOfPrecision | NotRepresentable

  /** A strictly positive number of stroops that fits a signed 64-bit integer. */
  type Amount = n: nat | 1 <= n <= MAX_STROOPS witness 1

  type Money = Result<Amount, AmountError>

  function New(stroops: nat): Money {
    if stroops == 0 then Err(Zero)
    else if stroops > MAX_STROOPS then Err(Overflow)
    else Ok(stroops)
  }

  function CheckedMul(a: nat, b: nat): Option<nat> {
    if a * b > U64_MAX then None else Some(a * b)
  }

  function CheckedPlus(a: nat, b: nat): Option<nat> {
    if a + b > U64_MAX then None else Some(a + b)
  }

  function FromXlm(xlm: nat): Money {
    match CheckedMul(xlm, STROOPS_PER_XLM)
    case None => Err(Overflow)
    case Some(stroops) => New(stroops)
  }

  // ---------------------------------------------------------------------------
  // Text; one character per byte
  // ---------------------------------------------------------------------------

  predicate IsDigit(c: char) {
    '0' <= c <= '9'
  }

  predicate AllDigits(s: string) {
    forall i :: 0 <= i < |s| ==> IsDigit(s[i])
  }

  function Digit(c: char): nat
    requires IsDigit(c)
  {
    (c - '0') as nat
  }

  /** The number a string of digits denotes, leading zeros allowed; 0 for the empty string. */
  function Number(s: string): nat
    requires AllDigits(s)
  {
    if s == "" then 0 else 10 * Number(s[..|s| - 1]) + Digit(s[|s| - 1])
  }

  /** `str::parse::<u64>`: an optional plus sign and at least one digit. */
  function ParseU64(s: string): Option<nat> {
    var digits := if s != "" && s[0] == '+' then s[1..] else s;
    if digits == "" || !AllDigits(digits) || Number(digits) > U64_MAX then None else Some(Number(digits))
  }

  /** `str::split('.')`. */
  function Split(s: string): seq<string> {
    if s == "" then [""]
    else
      var rest := Split(s[1..]);
      if s[0] == '.' then [""] + rest
      else if rest == [] then [[s[0]]]
      else [[s[0]] + rest[0]] + rest[1..]
  }

  function Zeros(n: nat): (z: string)
    ensures |z| == n && AllDigits(z)
  {
    if n == 0 then "" else Zeros(n - 1) + "0"
  }

  function Combine(whole: nat, frac: nat): Money {
    match CheckedMul(whole, STROOPS_PER_XLM)
    case None => Err(Overflow)
    case Some(product) =>
      match CheckedPlus(product, frac)
      case None => Err(Overflow)
      case Some(stroops) => New(stroops)
  }

  /** `from_xlm_decimal`. */
  function Parse(s: string): Money {
    var parts := Split(s);
    if |parts| == 1 then
      match ParseU64(parts[0])
      case None => Err(NotRepresentable)
      case Some(whole) => FromXlm(whole)
    else if |parts| == 2 then ParseParts(if parts[0] == "" then "0" else parts[0], parts[1])
    else Err(NotRepresentable)
  }

  function ParseParts(whole: string, frac: string): Money {
    if |frac| > STROOP_DECIMALS then Err(LossOfPrecision)
    else Join(ParseU64(whole), ParseU64(frac + Zeros(STROOP_DECIMALS - |frac|)))
  }

  function Join(whole: Option<nat>, frac: Option<nat>): Money {
    if whole.None? || frac.None? then Err(NotRepresentable) else Combine(whole.value, frac.value)
  }

  function Shown(d: nat): (s: string)
    requires d < 10
    ensures |s| == 1 && IsDigit(s[0]) && Digit(s[0]) == d
  {
    [('0' as int + d) as char]
  }

  /** Decimal text without leading zeros. */
  function Decimal(n: nat): (s: string)
    ensures s != "" && AllDigits(s)
  {
    if n < 10 then Shown(n) else Decimal(n / 10) + Shown(n % 10)
  }

  /** The k low decimal digits of n. */
  function Fixed(n: nat, k: nat): (s: string)
    ensures |s| == k && AllDigits(s)
  {
    if k == 0 then "" else Fixed(n / 10, k - 1) + Shown(n % 10)
  }

  /** `to_xlm_string`. */
  function Print(a: Amount): string {
    Decimal(a / STROOPS_PER_XLM) + "." + Fixed(a % STROOPS_PER_XLM, STROOP_DECIMALS)
  }

  // ---------------------------------------------------------------------------
  // Reading digits back
  // ---------------------------------------------------------------------------

  function Pow10(n: nat): (p: nat)
    ensures p > 0
  {
    if n == 0 then 1 else 10 * Pow10(n - 1)
  }

  lemma {:induction false} NumberOfDecimal(n: nat)
    ensures Number(Decimal(n)) == n
  {
    if n >= 10 {
      NumberOfDecimal(n / 10);
      var s := Decimal(n);
      assert s[..|s| - 1] == Decimal(n / 10);
    } else {
      assert Shown(n)[..0] == "";
    }
  }

  lemma TenthBelow(n: nat, p: nat)
    requires n < 10 * p
    ensures n / 10 < p
  {}

  lemma {:induction false} NumberOfFixed(n: nat, k: nat)
    requires n < Pow10(k)
    ensures Number(Fixed(n, k)) == n
  {
    if k > 0 {
      TenthBelow(n, Pow10(k - 1));
      NumberOfFixed(n / 10, k - 1);
      var s := Fixed(n, k);
      assert s[..|s| - 1] == Fixed(n / 10, k - 1);
    }
  }

  lemma {:induction false} NumberPadded(s: string, n: nat)
    requires AllDigits(s)
    ensures AllDigits(s + Zeros(n)) && Number(s + Zeros(n)) == Number(s) * Pow10(n)
  {
    if n == 0 {
      assert s + Zeros(0) == s;
    } else {
      NumberPadded(s, n - 1);
      var t := s + Zeros(n);
      assert t[..|t| - 1] == s + Zeros(n - 1) && t[|t| - 1] == '0';
      assert Number(t) == 10 * Number(s + Zeros(n - 1));
      TenTimes(Number(s), Pow10(n - 1));
    }
  }

  lemma TenTimes(a: nat, p: nat)
    ensures 10 * (a * p) == a * (10 * p)
  {}

  lemma {:induction false} NumberBound(s: string)
    requires AllDigits(s)
    ensures Number(s) < Pow10(|s|)
  {
    if s != "" {
      NumberBound(s[..|s| - 1]);
    }
  }

  lemma SevenDecimals()
    ensures Pow10(7) == STROOPS_PER_XLM
  {
    assert Pow10(4) == 10000;
  }

  lemma {:induction false} SplitPlain(s: string)
    requires '.' !in s
    ensures Split(s) == [s]
  {
    if s != "" {
      SplitPlain(s[1..]);
      assert s == [s[0]] + s[1..];
    }
  }

  lemma {:induction false} SplitAtDot(w: string, f: string)
    requires '.' !in w && '.' !in f
    ensures Split(w + "." + f) == [w, f]
  {
    var s := w + "." + f;
    if w == "" {
      SplitPlain(f);
      assert s[0] == '.' && s[1..] == f;
    } else {
      SplitAtDot(w[1..], f);
      assert s[0] == w[0] && s[1..] == w[1..] + "." + f;
      assert w == [w[0]] + w[1..];
    }
  }

  lemma DigitsHaveNoDot(s: string)
    requires AllDigits(s)
    ensures '.' !in s && '+' !in s
  {}

  // ---------------------------------------------------------------------------
  // What an accepted text denotes
  // ---------------------------------------------------------------------------

  /** The stroops of a whole part and at most seven decimals. */
  function Stroops(w: string, f: string): nat
    requires AllDigits(w) && AllDigits(f) && |f| <= STROOP_DECIMALS
  {
    Number(w) * STROOPS_PER_XLM + Number(f) * Pow10(STROOP_DECIMALS - |f|)
  }

  /** The decimal number w.f, in XLM. */
  function Denoted(w: string, f: string): real
    requires AllDigits(w) && AllDigits(f)
  {
    Number(w) as real + Number(f) as real / Pow10(|f|) as real
  }

  lemma ParseDigits(s: string)
    requires AllDigits(s) && s != ""
    ensures ParseU64(s) == (if Number(s) > U64_MAX then None else Some(Number(s)))
    ensures ParseU64("+" + s) == ParseU64(s)
  {
    assert IsDigit(s[0]);
    assert ("+" + s)[1..] == s;
  }

  lemma ParsePaddedTo(f: string, k: nat, m: nat)
    requires AllDigits(f) && |f| + k == m && m > 0 && Pow10(m) <= U64_MAX
    ensures Number(f) * Pow10(k) < Pow10(m)
    ensures ParseU64(f + Zeros(k)) == Some(Number(f) * Pow10(k))
  {
    var p := f + Zeros(k);
    NumberPadded(f, k);
    NumberBound(p);
    ParseDigits(p);
  }

  lemma ParsePadded(f: string, k: nat)
    requires AllDigits(f) && |f| + k == STROOP_DECIMALS
    ensures Number(f) * Pow10(k) < STROOPS_PER_XLM
    ensures ParseU64(f + Zeros(k)) == Some(Number(f) * Pow10(k))
  {
    SevenDecimals();
    ParsePaddedTo(f, k, STROOP_DECIMALS);
  }

  /** A text with one point is parsed in two parts. */
  lemma ParseDotted(w: string, f: string)
    requires '.' !in w && '.' !in f
    ensures Parse(w + "." + f) == ParseParts(if w == "" then "0" else w, f)
  {
    SplitAtDot(w, f);
  }

  lemma PartsJoined(whole: string, frac: string, k: nat)
    requires |frac| + k == STROOP_DECIMALS
    ensures ParseParts(whole, frac) == Join(ParseU64(whole), ParseU64(frac + Zeros(k)))
  {
    assert k == STROOP_DECIMALS - |frac|;
  }

  lemma JoinIsNew(whole: Option<nat>, n: nat, m: nat)
    requires m < STROOPS_PER_XLM && whole == if n > U64_MAX then None else Some(n)
    ensures Join(whole, Some(m)) == if n > U64_MAX then Err(NotRepresentable) else New(n * STROOPS_PER_XLM + m)
  {
    CombineIsNew(n, m);
  }

  lemma DigitParts(w: string, f: string, n: nat, m: nat, total: nat, k: nat)
    requires total == n * STROOPS_PER_XLM + m
    requires |f| + k == STROOP_DECIMALS && m < STROOPS_PER_XLM
    requires ParseU64(if w == "" then "0" else w) == if n > U64_MAX then None else Some(n)
    requires ParseU64(f + Zeros(k)) == Some(m)
    ensures ParseParts(if w == "" then "0" else w, f) ==
      if n > U64_MAX then Err(NotRepresentable) else New(total)
  {
    var whole := if w == "" then "0" else w;
    PartsJoined(whole, f, k);
    JoinIsNew(ParseU64(whole), n, m);
  }

  lemma WholePart(w: string)
    requires AllDigits(w)
    ensures ParseU64(if w == "" then "0" else w) == if Number(w) > U64_MAX then None else Some(Number(w))
  {
    var whole := if w == "" then "0" else w;
    assert "0"[..0] == "";
    assert Number("0") == 0;
    ParseDigits(whole);
  }

  lemma CombineIsNew(whole: nat, frac: nat)
    requires frac < STROOPS_PER_XLM
    ensures Combine(whole, frac) == New(whole * STROOPS_PER_XLM + frac)
  {}

  /** No rounding: the stroops are the denoted number of XLM exactly. */
  lemma StroopsExact(w: string, f: string)
    requires AllDigits(w) && AllDigits(f) && |f| <= STROOP_DECIMALS
    ensures Stroops(w, f) as real / STROOPS_PER_XLM as real == Denoted(w, f)
  {
    var n, k := Number(f), STROOP_DECIMALS - |f|;
    PowSplit(|f|, k);
    SevenDecimals();
    var p, q := Pow10(|f|), Pow10(k);
    Scale(Number(w), n, p, q);
  }

  lemma {:induction false} PowSplit(m: nat, n: nat)
    ensures Pow10(m + n) == Pow10(m) * Pow10(n)
  {
    if n > 0 {
      PowSplit(m, n - 1);
    }
  }

  lemma Scale(w: nat, n: nat, p: nat, q: nat)
    requires p > 0 && q > 0
    ensures (w * (p * q) + n * q) as real / (p * q) as real == w as real + n as real / p as real
  {
    var pr, qr, wr, nr := p as real, q as real, w as real, n as real;
    assert (w * (p * q) + n * q) as real == wr * (pr * qr) + nr * qr;
    assert wr * (pr * qr) + nr * qr == (wr + nr / pr) * (pr * qr) by {
      assert (nr / pr) * (pr * qr) == ((nr / pr) * pr) * qr;
    }
  }

  // ---------------------------------------------------------------------------
  // The result for every text
  // ---------------------------------------------------------------------------

  /** A numeral without the plus sign it may start with. */
  function Unsigned(s: string): string {
    if s != "" && s[0] == '+' then s[1..] else s
  }

  /** A fraction is padded and read as an integer of its own, so a plus sign at its start stands for a zero digit. */
  function FractionDigits(f: string): (d: string)
    ensures |d| == |f|
  {
    if f != "" && f[0] == '+' then "0" + f[1..] else f
  }

  /** One or more digits, after an optional plus sign. */
  predicate IsNumeral(s: string) {
    Unsigned(s) != "" && AllDigits(Unsigned(s))
  }

  lemma ParseNumeral(s: string)
    ensures ParseU64(s) == if IsNumeral(s) && Number(Unsigned(s)) <= U64_MAX then Some(Number(Unsigned(s))) else None
  {}

  /** The result for every text without a point. */
  lemma PlainTextResult(s: string)
    requires '.' !in s
    ensures Parse(s) ==
      if !IsNumeral(s) || Number(Unsigned(s)) > U64_MAX then Err(NotRepresentable)
      else New(Number(Unsigned(s)) * STROOPS_PER_XLM)
  {
    SplitPlain(s);
    ParseNumeral(s);
  }

  /** Text that is not a numeral stays so under padding, and a numeral is padded like its digits. */
  lemma PaddedFraction(f: string, k: nat)
    requires |f| + k == STROOP_DECIMALS
    ensures !AllDigits(FractionDigits(f)) ==> ParseU64(f + Zeros(k)) == None
    ensures AllDigits(FractionDigits(f)) ==> ParseU64(f + Zeros(k)) == Some(Number(FractionDigits(f)) * Pow10(k))
  {
    var p := f + Zeros(k);
    if AllDigits(FractionDigits(f)) {
      ParsePadded(FractionDigits(f), k);
      if f != "" && f[0] == '+' {
        SignedFraction(f[1..], k);
        assert f == "+" + f[1..];
      }
    } else {
      BadDigitStays(f, k);
      ParseNumeral(p);
    }
  }

  lemma BadDigitStays(f: string, k: nat)
    requires !AllDigits(FractionDigits(f))
    ensures !AllDigits(Unsigned(f + Zeros(k)))
  {
    var d, p := FractionDigits(f), f + Zeros(k);
    var i :| 0 <= i < |d| && !IsDigit(d[i]);
    if f[0] == '+' {
      assert i > 0 && Unsigned(p)[i - 1] == d[i];
    } else {
      assert Unsigned(p)[i] == d[i];
    }
  }

  lemma SignedFraction(f: string, k: nat)
    requires AllDigits("0" + f) && |f| + k == STROOP_DECIMALS - 1
    ensures ParseU64(("+" + f) + Zeros(k)) == ParseU64(("0" + f) + Zeros(k))
  {
    assert forall i :: 0 <= i < |f| ==> f[i] == ("0" + f)[i + 1];
    var p := f + Zeros(k);
    assert ("+" + f) + Zeros(k) == "+" + p && ("0" + f) + Zeros(k) == "0" + p;
    LeadingZero(p);
    ParseDigits(p);
    ParseDigits("0" + p);
  }

  lemma {:induction false} LeadingZero(s: string)
    requires AllDigits(s)
    ensures AllDigits("0" + s) && Number("0" + s) == Number(s)
  {
    var t := "0" + s;
    if s == "" {
      assert t[..0] == "";
    } else {
      LeadingZero(s[..|s| - 1]);
      assert t[..|t| - 1] == "0" + s[..|s| - 1];
    }
  }

  /** The whole part may be missing when there is a point. */
  predicate IsWholePart(w: string) {
    w == "" || IsNumeral(w)
  }

  lemma WholePartOrNone(w: string)
    ensures ParseU64(if w == "" then "0" else w)
      == if IsWholePart(w) && Number(Unsigned(w)) <= U64_MAX then Some(Number(Unsigned(w))) else None
  {
    if w == "" {
      WholePart("");
    } else {
      ParseNumeral(w);
    }
  }

  /**
   * The result for every text with one point: which texts are refused and why,
   * and the exact number of stroops of all others.
   */
  lemma PointedTextResult(w: string, f: string)
    requires '.' !in w && '.' !in f
    ensures Parse(w + "." + f) ==
      if |f| > STROOP_DECIMALS then Err(LossOfPrecision)
      else if !IsWholePart(w) || !AllDigits(FractionDigits(f)) || Number(Unsigned(w)) > U64_MAX then Err(NotRepresentable)
      else New(Stroops(Unsigned(w), FractionDigits(f)))
  {
    ParseDotted(w, f);
    if |f| <= STROOP_DECIMALS {
      var k := STROOP_DECIMALS - |f|;
      WholePartOrNone(w);
      PaddedFraction(f, k);
      PartsJoined(if w == "" then "0" else w, f, k);
      if IsWholePart(w) && AllDigits(FractionDigits(f)) {
        var m := Number(FractionDigits(f)) * Pow10(k);
        ParsePadded(FractionDigits(f), k);
        assert Stroops(Unsigned(w), FractionDigits(f)) == Number(Unsigned(w)) * STROOPS_PER_XLM + m;
        DigitParts(w, f, Number(Unsigned(w)), m, Stroops(Unsigned(w), FractionDigits(f)), k);
      }
    }
  }

  /**
   * For digits with one point: more than seven decimals are refused, whole
   * parts of more than 64 bits are refused, and otherwise the amount is the
   * exact number of stroops.
   */
  lemma DigitsDenoteStroops(w: string, f: string)
    requires AllDigits(w) && AllDigits(f)
    ensures Parse(w + "." + f) ==
      if |f| > STROOP_DECIMALS then Err(LossOfPrecision)
      else if Number(w) > U64_MAX then Err(NotRepresentable)
      else New(Stroops(w, f))
  {
    DigitsHaveNoDot(w);
    DigitsHaveNoDot(f);
    PointedTextResult(w, f);
  }

  /** Without a point the digits must be there, and they denote whole XLM. */
  lemma WholeDenotesStroops(w: string)
    requires AllDigits(w)
    ensures Parse(w) ==
      if w == "" || Number(w) > U64_MAX then Err(NotRepresentable) else New(Number(w) * STROOPS_PER_XLM)
  {
    DigitsHaveNoDot(w);
    PlainTextResult(w);
  }

  /** A plus sign at the start of the fraction is read as a zero digit. */
  lemma SignInFraction(w: string, f: string)
    requires AllDigits(w) && AllDigits(f) && |f| < STROOP_DECIMALS
    ensures Parse(w + "." + ("+" + f)) == Parse(w + "." + ("0" + f))
  {
    DigitsHaveNoDot(w);
    DigitsHaveNoDot(f);
    PointedTextResult(w, "+" + f);
    PointedTextResult(w, "0" + f);
    assert ("+" + f)[1..] == f;
  }

  /** A plus sign at the start of a whole part is ignored. */
  lemma SignInWhole(w: string, f: string)
    requires AllDigits(w) && AllDigits(f) && w != ""
    ensures Parse(("+" + w) + "." + f) == Parse(w + "." + f)
  {
    DigitsHaveNoDot(w);
    DigitsHaveNoDot(f);
    PointedTextResult("+" + w, f);
    PointedTextResult(w, f);
    assert ("+" + w)[1..] == w;
  }

  /** Printing an amount and parsing the text gives the amount back, for every amount. */
  lemma RoundTrip(a: Amount)
    ensures Parse(Print(a)) == Ok(a)
  {
    var w, f := Decimal(a / STROOPS_PER_XLM), Fixed(a % STROOPS_PER_XLM, STROOP_DECIMALS);
    SevenDecimals();
    NumberOfDecimal(a / STROOPS_PER_XLM);
    NumberOfFixed(a % STROOPS_PER_XLM, STROOP_DECIMALS);
    DigitsDenoteStroops(w, f);
    assert Pow10(0) == 1;
    assert Stroops(w, f) == a;
  }

  lemma {:induction false} SplitPieces(w: string, rest: string)
    requires '.' !in w
    ensures Split(w + "." + rest) == [w] + Split(rest)
  {
    var s := w + "." + rest;
    if w == "" {
      assert s[0] == '.' && s[1..] == rest;
    } else {
      SplitPieces(w[1..], rest);
      assert s[0] == w[0] && s[1..] == w[1..] + "." + rest;
      assert w == [w[0]] + w[1..];
    }
  }

  lemma {:induction false} SplitNonEmpty(s: string)
    ensures Split(s) != []
  {
    if s != "" {
      SplitNonEmpty(s[1..]);
    }
  }

  lemma {:induction false} SplitTwo(s: string)
    requires '.' in s
    ensures |Split(s)| >= 2
  {
    if s[0] == '.' {
      SplitNonEmpty(s[1..]);
    } else {
      assert s == [s[0]] + s[1..];
      SplitTwo(s[1..]);
    }
  }

  /** The result for every text with more than one point. */
  lemma ManyPointsResult(w: string, rest: string)
    requires '.' !in w && '.' in rest
    ensures Parse(w + "." + rest) == Err(NotRepresentable)
  {
    SplitPieces(w, rest);
    SplitTwo(rest);
  }

  /** The position of the first point, or the length. */
  function FirstPoint(s: string): (i: nat)
    ensures i <= |s| && '.' !in s[..i]
    ensures i < |s| ==> s[i] == '.'
  {
    if s == "" || s[0] == '.' then 0
    else
      var i := 1 + FirstPoint(s[1..]);
      assert s[..i] == [s[0]] + s[1..][..i - 1];
      i
  }

  /** The stroops an accepted text denotes; none for a text that is not an amount. */
  function Meaning(s: string): Option<nat> {
    var i := FirstPoint(s);
    if i == |s| then
      if IsNumeral(s) then Some(Number(Unsigned(s)) * STROOPS_PER_XLM) else None
    else PointedMeaning(s[..i], s[i + 1..])
  }

  function PointedMeaning(w: string, f: string): Option<nat> {
    if IsWholePart(w) && |f| <= STROOP_DECIMALS && AllDigits(FractionDigits(f)) then
      Some(Stroops(Unsigned(w), FractionDigits(f)))
    else None
  }

  predicate InRange(meaning: Option<nat>) {
    meaning.Some? && 1 <= meaning.value <= MAX_STROOPS
  }

  /** A whole part too long for 64 bits is out of range in any case. */
  lemma LongWholeOutOfRange(w: string, f: string)
    requires AllDigits(w) && AllDigits(f) && |f| <= STROOP_DECIMALS && Number(w) > U64_MAX
    ensures Stroops(w, f) > MAX_STROOPS
  {
    LongWhole(Number(w), Number(f) * Pow10(STROOP_DECIMALS - |f|));
  }

  lemma LongWhole(n: nat, m: nat)
    requires n > U64_MAX
    ensures n * STROOPS_PER_XLM + m > MAX_STROOPS
  {}

  lemma PointedAcceptedIff(w: string, f: string)
    requires '.' !in w
    ensures Parse(w + "." + f).Ok? <==> InRange(PointedMeaning(w, f))
    ensures Parse(w + "." + f).Ok? ==> Parse(w + "." + f) == Ok(PointedMeaning(w, f).value)
  {
    if '.' in f {
      ManyPointsResult(w, f);
      PointIsNoDigit(f);
    } else {
      PointedTextResult(w, f);
      if PointedMeaning(w, f).Some? && Number(Unsigned(w)) > U64_MAX {
        LongWholeOutOfRange(Unsigned(w), FractionDigits(f));
      }
    }
  }

  lemma CutAt(s: string, i: nat)
    requires i < |s| && s[i] == '.'
    ensures s == s[..i] + "." + s[i + 1..]
  {}

  /**
   * The accepted texts, exactly: an optional plus sign and digits, possibly
   * none before a point, and after the point at most seven characters, again
   * an optional plus sign and digits, which denote a number of stroops in range.
   */
  lemma AcceptedIff(s: string)
    ensures Parse(s).Ok? <==> InRange(Meaning(s))
    ensures Parse(s).Ok? ==> Parse(s) == Ok(Meaning(s).value)
  {
    if FirstPoint(s) == |s| {
      assert s[..FirstPoint(s)] == s;
      PlainTextResult(s);
    } else {
      CutAt(s, FirstPoint(s));
      PointedAcceptedIff(s[..FirstPoint(s)], s[FirstPoint(s) + 1..]);
    }
  }

  lemma PointIsNoDigit(f: string)
    requires '.' in f
    ensures !AllDigits(FractionDigits(f))
  {
    var j :| 0 <= j < |f| && f[j] == '.';
    assert FractionDigits(f)[j] == '.';
  }

  /** A number in the usual notation: digits, with at most one point. */
  predicate IsPlainDecimal(s: string) {
    var i := FirstPoint(s);
    AllDigits(s[..i]) && (i < |s| ==> AllDigits(s[i + 1..]))
  }

  /** An accepted text is a plain decimal exactly when it holds no plus sign. */
  lemma AcceptedPlainIff(s: string)
    requires Parse(s).Ok?
    ensures IsPlainDecimal(s) <==> '+' !in s
  {
    AcceptedIff(s);
    var i := FirstPoint(s);
    if '+' in s {
      var j :| 0 <= j < |s| && s[j] == '+';
      if j < i {
        assert s[..i][j] == '+';
      } else {
        assert s[i + 1..][j - i - 1] == '+';
      }
    } else if i == |s| {
      assert s[..i] == s;
    }
  }

  lemma OneDigit(c: char)
    requires IsDigit(c)
    ensures Number([c]) == Digit(c)
  {
    assert [c][..0] == "";
  }

  lemma SmallAmounts()
    ensures Stroops("1", "05") == 10_500_000
    ensures Stroops("1", "5") == 15_000_000
  {
    OneDigit('0');
    OneDigit('1');
    OneDigit('5');
    assert "05"[..1] == "0";
    assert Number("05") == 5;
    assert Pow10(5) == 100_000;
    assert Pow10(6) == 1_000_000;
  }

  lemma SignInFractionAccepted()
    ensures Parse("1.+5") == Ok(10_500_000)
  {
    SmallAmounts();
    PointedTextResult("1", "+5");
    OneDigit('1');
    assert "0" + "+5"[1..] == "05";
    assert "1" + "." + "+5" == "1.+5";
  }

  lemma SignInWholeAccepted()
    ensures Parse("+1.5") == Ok(15_000_000)
  {
    SmallAmounts();
    PointedTextResult("+1", "5");
    OneDigit('1');
    assert "+1"[1..] == "1";
    assert "+1" + "." + "5" == "+1.5";
  }

  // ---------------------------------------------------------------------------
  // Arithmetic
  // ---------------------------------------------------------------------------

  function CheckedAdd(a: Amount, b: Amount): Money {
    match CheckedPlus(a, b)
    case None => Err(ArithmeticOverflow)
    case Some(sum) => New(sum)
  }

  function CheckedSub(a: Amount, b: Amount): Money {
    if a < b then Err(NegativeResult) else New(a - b)
  }

  /** Deducting what was added restores the balance, whenever the addition is accepted. */
  lemma AddThenSub(a: Amount, b: Amount)
    ensures CheckedAdd(a, b) == if a + b <= MAX_STROOPS then Ok(a + b) else Err(Overflow)
    ensures CheckedAdd(a, b).Ok? ==> CheckedSub(CheckedAdd(a, b).value, b) == Ok(a)
  {}

  /** Adding what was deducted restores the balance, and deduction fails exactly when nothing would be left. */
  lemma SubThenAdd(a: Amount, b: Amount)
    ensures CheckedSub(a, b).Ok? <==> a > b
    ensures CheckedSub(a, b).Ok? ==> CheckedAdd(CheckedSub(a, b).value, b) == Ok(a)
  {}

  function BasisPointFee(a: Amount, bps: nat): Money {
    if bps == 0 then Err(Zero)
    else if bps > 10_000 then Err(Overflow)
    else
      var fee := a * bps / 10_000;
      if fee > MAX_STROOPS then Err(Overflow) else New(fee)
  }

  function PercentageFee(a: Amount, percent: nat): Money {
    if percent == 0 then Err(Zero)
    else if percent > 100 then Err(Overflow)
    else
      var fee := a * percent / 100;
      if fee > MAX_STROOPS then Err(Overflow) else New(fee)
  }

  lemma DivBounds(x: nat, m: nat)
    requires m > 0
    ensures x / m * m <= x < (x / m + 1) * m
  {
    assert x == x / m * m + x % m;
  }

  lemma DivUnique(x: nat, m: nat, q: nat)
    requires m > 0 && q * m <= x < (q + 1) * m
    ensures x / m == q
  {
    DivBounds(x, m);
    if x / m < q {
      MulMonotone(x / m + 1, q, m);
    } else if x / m > q {
      MulMonotone(q + 1, x / m, m);
    }
  }

  lemma MulMonotone(a: nat, b: nat, m: nat)
    requires a <= b
    ensures a * m <= b * m
  {}

  /** A percentage is the same fee as a hundred times as many basis points, errors included. */
  lemma PercentIsBasisPoints(a: Amount, percent: nat)
    ensures PercentageFee(a, percent) == BasisPointFee(a, 100 * percent)
  {
    var x := a * percent;
    DivBounds(x, 100);
    assert a * (100 * percent) == 100 * x;
    DivUnique(100 * x, 10_000, x / 100);
  }

  lemma ProductBound(a: nat, bps: nat)
    requires bps <= 10_000
    ensures a * bps <= a * 10_000
  {}

  lemma QuotientBounds(x: nat, a: nat)
    requires x <= a * 10_000
    ensures var q := x / 10_000; q <= a && (q > 0 <==> x >= 10_000) && q * 10_000 <= x < (q + 1) * 10_000
  {}

  /** A fee within range is the product rounded down: never zero, never more than the amount. */
  lemma FeeIff(a: Amount, bps: nat)
    requires 1 <= bps <= 10_000
    ensures BasisPointFee(a, bps).Ok? <==> a * bps >= 10_000
    ensures BasisPointFee(a, bps).Err? ==> BasisPointFee(a, bps).error == Zero
    ensures BasisPointFee(a, bps).Ok? ==>
      var fee := BasisPointFee(a, bps).value; fee <= a && fee * 10_000 <= a * bps < (fee + 1) * 10_000
  {
    ProductBound(a, bps);
    QuotientBounds(a * bps, a);
  }

  /** Charging two amounts together costs what charging them apart costs, or one stroop more. */
  lemma FeesSplit(a: Amount, b: Amount, bps: nat)
    requires 1 <= bps <= 10_000 && a + b <= MAX_STROOPS
    requires BasisPointFee(a, bps).Ok? && BasisPointFee(b, bps).Ok?
    ensures BasisPointFee(a + b, bps).Ok?
    ensures var apart := BasisPointFee(a, bps).value + BasisPointFee(b, bps).value;
      apart <= BasisPointFee(a + b, bps).value <= apart + 1
  {
    FeeIff(a, bps);
    FeeIff(b, bps);
    assert (a + b) * bps == a * bps + b * bps;
    FeeIff(a + b, bps);
  }

  /** A rate of zero or above the whole is refused, for either kind of rate. */
  lemma RatesRefused(a: Amount, rate: nat)
    ensures BasisPointFee(a, 0) == PercentageFee(a, 0) == Err(Zero)
    ensures rate > 10_000 ==> BasisPointFee(a, rate) == Err(Overflow)
    ensures rate > 100 ==> PercentageFee(a, rate) == Err(Overflow)
  {}

  /** Why a subtraction is refused. */
  lemma SubRefused(a: Amount, b: Amount)
    ensures CheckedSub(a, b) == Err(NegativeResult) <==> a < b
    ensures CheckedSub(a, b) == Err(Zero) <==> a == b
  {}

  /** What is printed: the whole part without leading zeros, a point, and seven digits. */
  lemma PrintedShape(a: Amount)
    ensures var s, i := Print(a), |Print(a)| - 8;
      && i >= 1 && AllDigits(s[..i]) && s[i] == '.' && AllDigits(s[i + 1..])
      && (s[0] == '0' ==> i == 1)
      && Number(s[..i]) == a / 10_000_000 && Number(s[i + 1..]) == a % 10_000_000
  {
    var whole, frac := Decimal(a / 10_000_000), Fixed(a % 10_000_000, 7);
    var s := Print(a);
    assert s[..|whole|] == whole && s[|whole| + 1..] == frac;
    NumberOfDecimal(a / 10_000_000);
    NoLeadingZero(a / 10_000_000);
    SevenDigits();
    NumberOfFixed(a % 10_000_000, 7);
  }

  lemma SevenDigits()
    ensures Pow10(7) == 10_000_000
  {
    assert Pow10(4) == 10_000;
  }

  lemma {:induction false} NoLeadingZero(n: nat)
    ensures Decimal(n)[0] == '0' ==> |Decimal(n)| == 1
    ensures n > 0 ==> Decimal(n)[0] != '0'
  {
    if n >= 10 {
      NoLeadingZero(n / 10);
    }
  }
}
