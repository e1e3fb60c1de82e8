/**
 * The Python string built-ins the two scripts lean on, written out exactly enough for the
 * properties of the model: `str.isspace`/`str.strip`, `str.startswith` (Dafny's prefix
 * `<=`), `str.split(sep)` and its inverse `sep.join`, `str(int)`, `int(str)`, `float(str)`
 * for decimal notation, and `str(float)` for the two kinds of float the scripts print.
 */
module PyText {
  import opened Wrappers

  // ---------------------------------------------------------------- whitespace and strip

  /** The characters Python's `str.isspace()` accepts; `strip()`, `int()` and `float()` drop them at the ends. */
  predicate IsSpace(c: char) {
    c == ' ' || ('\t' <= c <= '\r') || ('\U{1C}' <= c <= '\U{1F}') || c == '\U{85}' || c == '\U{A0}'
    || c == '\U{1680}' || ('\U{2000}' <= c <= '\U{200A}') || c == '\U{2028}' || c == '\U{2029}'
    || c == '\U{202F}' || c == '\U{205F}' || c == '\U{3000}'
  }

  /** The first position at or after `i` that does not hold whitespace, or the end of `s`. */
  function SkipSpaceForward(s: string, i: nat): (e: nat)
    requires i <= |s|
    ensures i <= e <= |s|
    ensures forall k :: i <= k < e ==> IsSpace(s[k])
    ensures e < |s| ==> !IsSpace(s[e])
    decreases |s| - i
  {
    if i == |s| || !IsSpace(s[i]) then i else SkipSpaceForward(s, i + 1)
  }

  /** The position just after the last character before `j` (and not before `lo`) that is not whitespace. */
  function SkipSpaceBackward(s: string, lo: nat, j: nat): (e: nat)
    requires lo <= j <= |s|
    ensures lo <= e <= j
    ensures forall k :: e <= k < j ==> IsSpace(s[k])
    ensures e > lo ==> !IsSpace(s[e - 1])
  {
    if j == lo || !IsSpace(s[j - 1]) then j else SkipSpaceBackward(s, lo, j - 1)
  }

  /** `r` is `s` with only whitespace taken off its two ends. */
  ghost predicate IsPaddingOf(r: string, s: string) {
    exists i, j :: 0 <= i <= j <= |s| && r == s[i..j]
      && (forall k :: 0 <= k < i ==> IsSpace(s[k])) && (forall k :: j <= k < |s| ==> IsSpace(s[k]))
  }

  /** `str.strip()`: the longest infix with no whitespace at either end. */
  function Strip(s: string): (r: string)
    ensures IsPaddingOf(r, s)
    ensures r == [] || (!IsSpace(r[0]) && !IsSpace(r[|r| - 1]))
  {
    var i := SkipSpaceForward(s, 0);
    var j := SkipSpaceBackward(s, i, |s|);
    assert j > i ==> s[i..j][0] == s[i] && s[i..j][j - i - 1] == s[j - 1];
    s[i..j]
  }

  /** A string with no whitespace at its ends is its own strip. */
  lemma StripUnpadded(s: string)
    requires s == [] || (!IsSpace(s[0]) && !IsSpace(s[|s| - 1]))
    ensures Strip(s) == s
  {
    assert SkipSpaceForward(s, 0) == 0;
    assert s != [] ==> SkipSpaceBackward(s, 0, |s|) == |s|;
    assert s[0..|s|] == s;
  }

  // ---------------------------------------------------------------- search, split, join

  /** The first position of `c` in `s`, as `str.index`. */
  function IndexOf(s: string, c: char): (i: nat)
    requires c in s
    ensures i < |s| && s[i] == c
    ensures forall k :: 0 <= k < i ==> s[k] != c
  {
    if s[0] == c then 0 else 1 + IndexOf(s[1..], c)
  }

  /** `sep.join(parts)`. */
  function Join(parts: seq<string>, sep: char): string {
    if parts == [] then ""
    else if |parts| == 1 then parts[0]
    else parts[0] + [sep] + Join(parts[1..], sep)
  }

  /**
   * `s.split(sep)` with an explicit one-character separator: every separator cuts, so two
   * adjacent separators give an empty piece and the empty string gives `[""]`.
   */
  function Split(s: string, sep: char): (r: seq<string>)
    ensures |r| >= 1
    ensures forall i :: 0 <= i < |r| ==> sep !in r[i]
    ensures Join(r, sep) == s
    decreases |s|
  {
    if sep !in s then [s]
    else
      var i := IndexOf(s, sep);
      var rest := Split(s[i + 1..], sep);
      assert s == s[..i] + [sep] + s[i + 1..];
      [s[..i]] + rest
  }

  /** IndexOf finds the first occurrence. */
  lemma IndexOfAt(s: string, c: char, j: nat)
    requires j < |s| && s[j] == c
    requires forall k :: 0 <= k < j ==> s[k] != c
    ensures IndexOf(s, c) == j
  {
  }

  /** Split undoes Join whenever no piece holds the separator: the two are inverses. */
  lemma {:induction false} SplitJoin(parts: seq<string>, sep: char)
    requires |parts| >= 1
    requires forall i :: 0 <= i < |parts| ==> sep !in parts[i]
    ensures Split(Join(parts, sep), sep) == parts
  {
    if |parts| > 1 {
      var p0, tail := parts[0], Join(parts[1..], sep);
      var s := p0 + [sep] + tail;
      assert s[..|p0|] == p0;
      IndexOfAt(s, sep, |p0|);
      assert s[|p0| + 1..] == tail;
      SplitJoin(parts[1..], sep);
    }
  }

  /** A string without the separator splits into itself alone. */
  lemma SplitWithoutSeparator(s: string, sep: char)
    requires sep !in s
    ensures Split(s, sep) == [s]
  {
  }

  // ---------------------------------------------------------------- digits and str(int)

  predicate IsDigit(c: char) {
    '0' <= c <= '9'
  }

  predicate AllDigits(s: string) {
    forall k :: 0 <= k < |s| ==> IsDigit(s[k])
  }

  function DigitValue(c: char): nat
    requires IsDigit(c)
  {
    c as int - '0' as int
  }

  function DigitChar(d: nat): (c: char)
    requires d < 10
    ensures IsDigit(c) && DigitValue(c) == d
  {
    ('0' as int + d) as char
  }

  /** The number a run of decimal digits spells, most significant first. */
  function DigitsValue(s: string): nat
    requires AllDigits(s)
  {
    if s == [] then 0 else 10 * DigitsValue(s[..|s| - 1]) + DigitValue(s[|s| - 1])
  }

  function Pow10(n: nat): (p: nat)
    ensures p >= 1
  {
    if n == 0 then 1 else 10 * Pow10(n - 1)
  }

  /** A run of `n` digits spells less than 10^n. */
  lemma {:induction false} DigitsBelowPow10(s: string)
    requires AllDigits(s)
    ensures DigitsValue(s) < Pow10(|s|)
  {
    if s != [] {
      DigitsBelowPow10(s[..|s| - 1]);
    }
  }

  /** `str(n)` for a non-negative int: canonical decimal digits that spell `n`. */
  function NatToString(n: nat): (r: string)
    ensures |r| >= 1 && AllDigits(r)
    ensures DigitsValue(r) == n
    ensures r == "0" || r[0] != '0'
  {
    if n < 10 then [DigitChar(n)]
    else
      var r := NatToString(n / 10) + [DigitChar(n % 10)];
      assert r[..|r| - 1] == NatToString(n / 10);
      r
  }

  /** `str(i)` for any int. */
  function IntToString(i: int): (r: string)
    ensures |r| >= 1 && IsDigit(r[|r| - 1])
    ensures (r[0] == '-') == (i < 0)
  {
    if i < 0 then "-" + NatToString(-i) else NatToString(i)
  }

  // ---------------------------------------------------------------- int(str)

  /** The optional sign `int()` and `float()` accept in front of the digits. */
  function SplitSign(t: string): (r: (bool, string))
    ensures r.1 == t || (|t| > 0 && r.1 == t[1..])
  {
    if |t| > 0 && (t[0] == '-' || t[0] == '+') then (t[0] == '-', t[1..]) else (false, t)
  }

  /**
   * `int(s)` on a string: surrounding whitespace, an optional sign, one or more ASCII digits;
   * anything else is the ValueError, here None.
   */
  function ParseInt(s: string): (r: Option<int>)
    ensures r.Some? ==> Strip(s) != [] && IsDigit(Strip(s)[|Strip(s)| - 1])
  {
    var (negative, body) := SplitSign(Strip(s));
    if |body| > 0 && AllDigits(body) then
      Some(if negative then -(DigitsValue(body) as int) else DigitsValue(body))
    else None
  }

  /** `str(i)` is its own strip, and its sign splits off as the sign of `i`. */
  lemma IntToStringSign(i: int)
    ensures SplitSign(Strip(IntToString(i))) == (i < 0, NatToString(if i < 0 then -i else i))
  {
    var s := IntToString(i);
    var body := NatToString(if i < 0 then -i else i);
    assert IsDigit(body[0]);
    StripUnpadded(s);
    if i < 0 {
      assert s[0] == '-' && s[1..] == body;
    } else {
      assert s == body;
    }
  }

  /** `int(str(i)) == i`: the text the SVG stage writes into an id parses back to its number. */
  lemma ParseIntOfString(i: int)
    ensures ParseInt(IntToString(i)) == Some(i)
  {
    IntToStringSign(i);
  }

  /** `str` is one-to-one on ints, since `int` undoes it. */
  lemma IntToStringInjective(i: int, j: int)
    requires IntToString(i) == IntToString(j)
    ensures i == j
  {
    ParseIntOfString(i);
    ParseIntOfString(j);
  }

  // ---------------------------------------------------------------- float(str)

  /** A number in decimal notation: sign, integer digits and fraction digits. */
  datatype Decimal = Decimal(negative: bool, whole: string, frac: string)

  predicate WellFormed(d: Decimal) {
    AllDigits(d.whole) && AllDigits(d.frac) && |d.whole| + |d.frac| >= 1
  }

  /** A float as `float()` produces it from decimal text. */
  type Float = d: Decimal | WellFormed(d) witness Decimal(false, "0", "")

  function Magnitude(d: Decimal): real
    requires WellFormed(d)
  {
    DigitsValue(d.whole) as real + DigitsValue(d.frac) as real / Pow10(|d.frac|) as real
  }

  /** The exact value the decimal text denotes. */
  function Value(d: Decimal): real
    requires WellFormed(d)
  {
    if d.negative then -Magnitude(d) else Magnitude(d)
  }

  /** `int(x)` of the float: its integer digits with its sign. */
  function Truncate(d: Decimal): int
    requires WellFormed(d)
  {
    if d.negative then -(DigitsValue(d.whole) as int) else DigitsValue(d.whole)
  }

  /**
   * `float(s)` for decimal notation: surrounding whitespace, an optional sign, digits with at
   * most one point and at least one digit; anything else is the ValueError, here None.
   */
  function ParseFloat(s: string): (r: Option<Float>)
  {
    var (negative, body) := SplitSign(Strip(s));
    DecimalOf(negative, body)
  }

  /** The unsigned part of `float()`'s decimal notation. */
  function DecimalOf(negative: bool, body: string): (r: Option<Float>)
  {
    if '.' in body then
      var i := IndexOf(body, '.');
      var whole, frac := body[..i], body[i + 1..];
      if AllDigits(whole) && AllDigits(frac) && |whole| + |frac| >= 1 then Some(Decimal(negative, whole, frac))
      else None
    else if |body| >= 1 && AllDigits(body) then Some(Decimal(negative, body, ""))
    else None
  }

  /** A quotient of naturals below its divisor is a fraction in [0, 1). */
  lemma FractionBelowOne(f: nat, p: nat)
    requires f < p
    ensures 0.0 <= f as real / p as real < 1.0
  {
    var q := f as real / p as real;
    assert q * p as real == f as real;
  }

  /** Truncate rounds toward zero, as `int()` of a float does. */
  lemma TruncateTowardZero(d: Decimal)
    requires WellFormed(d)
    ensures Value(d) >= 0.0 ==> Truncate(d) as real <= Value(d) < Truncate(d) as real + 1.0
    ensures Value(d) < 0.0 ==> Truncate(d) as real - 1.0 < Value(d) <= Truncate(d) as real
  {
    DigitsBelowPow10(d.frac);
    FractionBelowOne(DigitsValue(d.frac), Pow10(|d.frac|));
  }

  /** Digits never contain the decimal point. */
  lemma NoPointInDigits(w: string)
    requires AllDigits(w)
    ensures '.' !in w
  {
    assert forall k :: 0 <= k < |w| ==> w[k] != '.' by {
      forall k | 0 <= k < |w| ensures w[k] != '.' {
        assert IsDigit(w[k]);
      }
    }
  }

  /** A sign followed by text that starts and ends with a digit is read back as that sign and text. */
  lemma SignedText(negative: bool, body: string)
    requires |body| >= 1 && IsDigit(body[0]) && IsDigit(body[|body| - 1])
    ensures var s := (if negative then "-" else "") + body; SplitSign(Strip(s)) == (negative, body)
  {
    var s := (if negative then "-" else "") + body;
    assert s[|s| - 1] == body[|body| - 1];
    assert s[0] == (if negative then '-' else body[0]);
    StripUnpadded(s);
    if negative {
      assert s[1..] == body;
    }
  }

  /** The unsigned decimal `digits.digits` is read back into its two runs of digits. */
  lemma DecimalOfParts(negative: bool, w: string, f: string)
    requires AllDigits(w) && AllDigits(f) && |w| >= 1 && |f| >= 1
    ensures DecimalOf(negative, w + "." + f) == Some(Decimal(negative, w, f))
  {
    var body := w + "." + f;
    assert body[|w|] == '.';
    assert forall k :: 0 <= k < |w| ==> body[k] == w[k];
    IndexOfAt(body, '.', |w|);
    assert body[..|w|] == w;
    assert body[|w| + 1..] == f;
  }

  /** `float()` reads `[-]digits.digits` back into exactly those parts. */
  lemma ParseFloatOfParts(negative: bool, w: string, f: string)
    requires AllDigits(w) && AllDigits(f) && |w| >= 1 && |f| >= 1
    ensures ParseFloat((if negative then "-" else "") + w + "." + f) == Some(Decimal(negative, w, f))
  {
    var body := w + "." + f;
    var s := (if negative then "-" else "") + w + "." + f;
    assert s == (if negative then "-" else "") + body;
    assert IsDigit(body[0]) && IsDigit(body[|body| - 1]);
    SignedText(negative, body);
    DecimalOfParts(negative, w, f);
    assert SplitSign(Strip(s)) == (negative, body);
    assert ParseFloat(s) == DecimalOf(negative, body);
  }

  /** `int(float(str(i))) == i`. */
  lemma ParseFloatOfIntString(i: int)
    ensures ParseFloat(IntToString(i)).Some?
    ensures Truncate(ParseFloat(IntToString(i)).value) == i
  {
    IntToStringSign(i);
    var body := NatToString(if i < 0 then -i else i);
    NoPointInDigits(body);
    assert ParseFloat(IntToString(i)) == Some(Decimal(i < 0, body, ""));
  }

  // ---------------------------------------------------------------- str(float)

  function QuarterDigits(r: nat): string
    requires r < 4
  {
    if r == 0 then "0" else if r == 1 then "25" else if r == 2 then "5" else "75"
  }

  /** `str(q / 4)` for the float q/4, in Python's positional form: "35.0", "-0.25". */
  function QuarterString(q: int): string {
    var a := if q < 0 then -q else q;
    (if q < 0 then "-" else "") + NatToString(a / 4) + "." + QuarterDigits(a % 4)
  }

  /** The fraction digits of a quarter spell its remainder in quarters. */
  lemma QuarterDigitsValue(r: nat)
    requires r < 4
    ensures AllDigits(QuarterDigits(r)) && |QuarterDigits(r)| >= 1
    ensures DigitsValue(QuarterDigits(r)) as real / Pow10(|QuarterDigits(r)|) as real == r as real / 4.0
  {
    var f := QuarterDigits(r);
    assert Pow10(1) == 10 && Pow10(2) == 100;
    if r == 1 {
      assert "25"[..1] == "2" && "2"[..0] == "";
      assert DigitsValue("25") == 25;
    } else if r == 3 {
      assert "75"[..1] == "7" && "7"[..0] == "";
      assert DigitsValue("75") == 75;
    } else {
      assert f[..0] == "";
    }
  }

  /** Reading a quarter's text back with `float()` gives exactly q/4. */
  lemma QuarterStringValue(q: int)
    ensures ParseFloat(QuarterString(q)).Some?
    ensures 4.0 * Value(ParseFloat(QuarterString(q)).value) == q as real
  {
    var a: nat := if q < 0 then -q else q;
    var w, f := NatToString(a / 4), QuarterDigits(a % 4);
    QuarterDigitsValue(a % 4);
    ParseFloatOfParts(q < 0, w, f);
    assert QuarterString(q) == (if q < 0 then "-" else "") + w + "." + f;
    var d := Decimal(q < 0, w, f);
    assert Magnitude(d) == (a / 4) as real + (a % 4) as real / 4.0;
    assert 4.0 * Magnitude(d) == a as real;
  }

  /** The fraction digits without their trailing zeros. */
  function TrimZeros(f: string): (t: string)
    ensures |t| <= |f| && t == f[..|t|]
    ensures t == [] || t[|t| - 1] != '0'
  {
    if f != [] && f[|f| - 1] == '0' then TrimZeros(f[..|f| - 1]) else f
  }

  /** Trailing zeros scale a run of digits by a power of ten. */
  lemma {:induction false} TrimZerosValue(f: string)
    requires AllDigits(f)
    ensures DigitsValue(f) == DigitsValue(TrimZeros(f)) * Pow10(|f| - |TrimZeros(f)|)
  {
    if f != [] && f[|f| - 1] == '0' {
      var g := f[..|f| - 1];
      TrimZerosValue(g);
      var t, n := TrimZeros(g), |g| - |TrimZeros(g)|;
      assert TrimZeros(f) == t && |f| - |t| == n + 1;
      var a, b := DigitsValue(t), Pow10(n);
      assert DigitsValue(f) == 10 * DigitsValue(g);
      ScaleByTen(a, b);
    }
  }

  lemma ScaleByTen(a: nat, b: nat)
    ensures 10 * (a * b) == a * (10 * b)
  {
  }

  lemma {:induction false} Pow10Add(m: nat, n: nat)
    ensures Pow10(m + n) == Pow10(m) * Pow10(n)
  {
    if n > 0 {
      Pow10Add(m, n - 1);
      assert Pow10(m) * (10 * Pow10(n - 1)) == 10 * (Pow10(m) * Pow10(n - 1));
    }
  }

  /** Scaling numerator and denominator alike leaves a quotient unchanged. */
  lemma RatioCancel(a: nat, b: nat, c: nat)
    requires b > 0 && c > 0
    ensures (a * c) as real / (b * c) as real == a as real / b as real
  {
    var x := a as real / b as real;
    assert x * b as real == a as real;
    assert (a * c) as real == a as real * c as real;
    assert (b * c) as real == b as real * c as real;
    assert x * (b * c) as real == (a * c) as real;
  }

  /**
   * `str(float(s))` for a parsed decimal in Python's positional form: integer part without
   * leading zeros, a point, the fraction without trailing zeros (at least one digit).
   */
  function FloatRepr(d: Decimal): string
    requires WellFormed(d)
  {
    var t := TrimZeros(d.frac);
    (if d.negative then "-" else "") + NatToString(DigitsValue(d.whole)) + "." + (if t == [] then "0" else t)
  }

  /** The printed fraction digits denote the same fraction as the parsed ones. */
  lemma TrimmedFraction(frac: string)
    requires AllDigits(frac)
    ensures var t := TrimZeros(frac); var f := if t == [] then "0" else t;
      AllDigits(f) && |f| >= 1
      && DigitsValue(frac) as real / Pow10(|frac|) as real == DigitsValue(f) as real / Pow10(|f|) as real
  {
    var t := TrimZeros(frac);
    assert AllDigits(t) by {
      forall k | 0 <= k < |t| ensures IsDigit(t[k]) {
        assert t[k] == frac[k];
      }
    }
    TrimZerosValue(frac);
    var n := |frac| - |t|;
    Pow10Add(|t|, n);
    if t == [] {
      assert "0"[..0] == "";
      assert DigitsValue(frac) == 0;
    } else {
      RatioCancel(DigitsValue(t), Pow10(|t|), Pow10(n));
    }
  }

  /** Reading the printed float back with `float()` gives the same number. */
  lemma FloatReprValue(d: Decimal)
    requires WellFormed(d)
    ensures ParseFloat(FloatRepr(d)).Some?
    ensures Value(ParseFloat(FloatRepr(d)).value) == Value(d)
  {
    var t := TrimZeros(d.frac);
    var w, f := NatToString(DigitsValue(d.whole)), if t == [] then "0" else t;
    TrimmedFraction(d.frac);
    ParseFloatOfParts(d.negative, w, f);
    assert FloatRepr(d) == (if d.negative then "-" else "") + w + "." + f;
    var e := Decimal(d.negative, w, f);
    assert Magnitude(e) == Magnitude(d);
  }
}
