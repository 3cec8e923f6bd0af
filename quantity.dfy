/**
 * The tiered quantity codec (`parse_quantity` / `format_quantity`).
 * Amounts are exact reals counted in base units "qi"; "sx" is 1000 qi and
 * "sp" is 1000000 qi.
 *
 * `float()` is modelled on a restricted decimal grammar: surrounding
 * whitespace, an optional sign, digits, and optionally a point followed by
 * more digits, with at least one digit in all. The exponent form (`1e3`),
 * `inf`/`nan`, digit-group underscores (`1_000`) and non-ASCII digits, which
 * Python also accepts, are rejected by this model.
 */
module Quantity {
  import opened Wrappers
  import opened Text

  /** The three denominations of SUFFIX_MAP. */
  datatype Denomination = Qi | Sx | Sp

  function Suffix(d: Denomination): string {
    match d
    case Qi => "qi"
    case Sx => "sx"
    case Sp => "sp"
  }

  /** `v` units of denomination `d`, in qi. */
  function InQi(v: real, d: Denomination): real {
    match d
    case Qi => v
    case Sx => v * 1000.0
    case Sp => v * 1000000.0
  }

  // ---------------------------------------------------------------- parsing

  /** An unsigned decimal: digits, optionally `.` and more digits, at least one digit. */
  function ParseUnsigned(t: string): Option<real> {
    var k := IndexOf(t, '.');
    var whole := t[..k];
    var frac := if k < |t| then t[k + 1..] else [];
    if AllDigits(whole) && AllDigits(frac) && |whole| + |frac| > 0 then
      Some(DecimalValue(whole, frac))
    else None
  }

  /** The value of the decimal `whole.frac`. */
  function DecimalValue(whole: string, frac: string): real
    requires AllDigits(whole) && AllDigits(frac)
  {
    DigitsValue(whole) as real + FractionValue(frac)
  }

  /** The value of the digits after a decimal point. */
  function FractionValue(frac: string): real
    requires AllDigits(frac)
  {
    if frac == [] then 0.0 else (DigitValue(frac[0]) as real + FractionValue(frac[1..])) / 10.0
  }

  /** `float(s)` on the restricted grammar; `None` stands for `ValueError`. */
  function ParseFloat(s: string): Option<real> {
    var t := Strip(s);
    if t != [] && (t[0] == '+' || t[0] == '-') then
      match ParseUnsigned(t[1..])
      case None => None
      case Some(v) => Some(if t[0] == '-' then -v else v)
    else ParseUnsigned(t)
  }

  function Scale(v: Option<real>, mul: real): Option<real> {
    match v
    case None => None
    case Some(x) => Some(x * mul)
  }

  /** `parse_quantity(text)`; `None` stands for the `ValueError` it raises.
      The SUFFIX_MAP entries are tried in their order: qi, sx, sp. */
  function Parse(text: string): Option<real> {
    ParseNormalised(Lower(Strip(text)))
  }

  /** The suffix search of `parse_quantity` on the stripped, lower-cased text. */
  function ParseNormalised(q: string): Option<real> {
    if EndsWith(q, "qi") then Scale(ParseFloat(q[..|q| - 2]), 1.0)
    else if EndsWith(q, "sx") then Scale(ParseFloat(q[..|q| - 2]), 1000.0)
    else if EndsWith(q, "sp") then Scale(ParseFloat(q[..|q| - 2]), 1000000.0)
    else ParseFloat(q)
  }

  // ------------------------------------------------------------- formatting

  predicate IsInteger(v: real) { v.Floor as real == v }

  /** Rounding to the nearest integer, ties to even, as `.3f` does on exact ties. */
  function RoundHalfEven(v: real): (n: int)
    ensures v - 0.5 <= n as real <= v + 0.5
    ensures n as real == v <==> IsInteger(v)
    ensures (n as real == v - 0.5 || n as real == v + 0.5) ==> n % 2 == 0
  {
    var f := v.Floor;
    var diff := v - f as real;
    if diff < 0.5 then f else if diff > 0.5 then f + 1 else if f % 2 == 0 then f else f + 1
  }

  /** `v` counted in thousandths, rounded ties to even. */
  function Thousandths(v: real): int {
    RoundHalfEven(v * 1000.0)
  }

  /** `v` rounded to three fractional digits, ties to even. */
  function Rounded3(v: real): real {
    Thousandths(v) as real / 1000.0
  }

  /** Three digits, zero-padded. */
  function Pad3(n: nat): (s: string)
    requires n < 1000
    ensures |s| == 3 && AllDigits(s)
  {
    [DigitChar(n / 100), DigitChar(n / 10 % 10), DigitChar(n % 10)]
  }

  /** `f"{v:.3f}".rstrip("0").rstrip(".")` for a non-negative value. */
  function Fixed3(v: real): string
    requires v >= 0.0
  {
    MilliText(Thousandths(v))
  }

  /** The stripped three-decimal rendering of `m / 1000`. */
  function MilliText(m: nat): string {
    RStrip(RStrip(NatToString(m / 1000) + "." + Pad3(m % 1000), '0'), '.')
  }

  /** `f"{units}"` in the fallback branch. Python prints the shortest repr of
      the float; the model prints integral values as `N.0` and others as Fixed3. */
  function ReprApprox(units: real): string {
    if units < 0.0 then "-" + ReprMagnitude(Abs(units)) else ReprMagnitude(units)
  }

  function Abs(v: real): (a: real)
    ensures a >= 0.0 && (a == v || a == -v)
  {
    if v < 0.0 then -v else v
  }

  /** ReprApprox of a non-negative value. */
  function ReprMagnitude(a: real): string
    requires a >= 0.0
  {
    if IsInteger(a) then NatToString(a.Floor as nat) + ".0" else Fixed3(a)
  }

  /** One denomination's rendering once its quotient `val` has reached 1. */
  function Render(val: real, d: Denomination): string
    requires val >= 1.0
  {
    if IsInteger(val) then NatToString(val.Floor as nat) + Suffix(d) else Fixed3(val) + Suffix(d)
  }

  /** `format_quantity(units)`: sp, then sx, then qi, then the fallback. */
  function Format(units: real): string {
    if units / 1000000.0 >= 1.0 then Render(units / 1000000.0, Sp)
    else if units / 1000.0 >= 1.0 then Render(units / 1000.0, Sx)
    else if units / 1.0 >= 1.0 then Render(units / 1.0, Qi)
    else ReprApprox(units) + "qi"
  }

  /** The denomination `format_quantity` picks for `x`: the largest one
      whose quotient reaches 1, and qi when none does. */
  function TierOf(x: real): Denomination {
    if x >= 1000000.0 then Sp else if x >= 1000.0 then Sx else Qi
  }

  /** The quotient `format_quantity` renders for `x` in its denomination. */
  function Quotient(x: real): (q: real)
    ensures InQi(q, TierOf(x)) == x
  {
    match TierOf(x)
    case Sp => x / 1000000.0
    case Sx => x / 1000.0
    case Qi => x
  }

  /** At most three fractional digits. */
  predicate HasMilliPrecision(v: real) { IsInteger(v * 1000.0) }

  // ----------------------------------------------------- round-trip proof

  /** Characters that occur in a rendered number. */
  predicate Plain(s: string) {
    forall i :: 0 <= i < |s| ==> IsDigit(s[i]) || s[i] == '.' || s[i] == '-'
  }

  lemma IndexOfPoint(w: string, f: string)
    requires AllDigits(w)
    ensures IndexOf(w + "." + f, '.') == |w|
  {
    var s := w + "." + f;
    var k := IndexOf(s, '.');
    assert s[|w|] == '.';
  }

  lemma ParseUnsignedPointed(w: string, f: string)
    requires AllDigits(w) && AllDigits(f) && w != []
    ensures ParseUnsigned(w + "." + f) == Some(DecimalValue(w, f))
  {
    var s := w + "." + f;
    IndexOfPoint(w, f);
    var k := IndexOf(s, '.');
    assert k < |s|;
    assert s[..k] == w;
    assert s[k + 1..] == f;
    assert AllDigits(s[..k]) && AllDigits(s[k + 1..]);
  }

  lemma ParseUnsignedDigits(w: string)
    requires AllDigits(w) && w != []
    ensures ParseUnsigned(w) == Some(DigitsValue(w) as real)
  {
    var k := IndexOf(w, '.');
    assert w[..k] == w;
  }

  lemma FractionOne(a: char)
    requires IsDigit(a)
    ensures FractionValue([a]) == DigitValue(a) as real / 10.0
  {
    assert [a][1..] == [];
  }

  lemma FractionTwo(a: char, b: char)
    requires IsDigit(a) && IsDigit(b)
    ensures FractionValue([a, b]) == (10 * DigitValue(a) + DigitValue(b)) as real / 100.0
  {
    assert [a, b][1..] == [b];
    FractionOne(b);
  }

  lemma FractionThree(a: char, b: char, c: char)
    requires IsDigit(a) && IsDigit(b) && IsDigit(c)
    ensures FractionValue([a, b, c]) ==
      (100 * DigitValue(a) + 10 * DigitValue(b) + DigitValue(c)) as real / 1000.0
  {
    assert [a, b, c][1..] == [b, c];
    FractionTwo(b, c);
  }

  lemma StripKeepsThree(w: string, a: char, b: char, c: char)
    requires w != [] && AllDigits(w) && IsDigit(c) && c != '0'
    ensures RStrip(RStrip(w + "." + [a, b, c], '0'), '.') == w + "." + [a, b, c]
  {
    var raw := w + "." + [a, b, c];
    RStripStops(raw, '0');
    RStripStops(raw, '.');
  }

  lemma StripKeepsTwo(w: string, a: char, b: char)
    requires w != [] && AllDigits(w) && IsDigit(b) && b != '0'
    ensures RStrip(RStrip(w + "." + [a, b, '0'], '0'), '.') == w + "." + [a, b]
  {
    var u := w + "." + [a, b];
    assert w + "." + [a, b, '0'] == u + ['0'];
    RStripSnoc(u, '0');
    RStripStops(u, '0');
    RStripStops(u, '.');
  }

  lemma StripKeepsOne(w: string, a: char)
    requires w != [] && AllDigits(w) && IsDigit(a) && a != '0'
    ensures RStrip(RStrip(w + "." + [a, '0', '0'], '0'), '.') == w + "." + [a]
  {
    var u := w + "." + [a];
    assert w + "." + [a, '0', '0'] == u + ['0'] + ['0'];
    RStripSnoc(u + ['0'], '0');
    RStripSnoc(u, '0');
    RStripStops(u, '0');
    RStripStops(u, '.');
  }

  lemma StripKeepsNone(w: string)
    requires w != [] && AllDigits(w)
    ensures RStrip(RStrip(w + "." + ['0', '0', '0'], '0'), '.') == w
  {
    var u := w + ['.'];
    assert w + "." + ['0', '0', '0'] == u + ['0'] + ['0'] + ['0'];
    RStripSnoc(u + ['0'] + ['0'], '0');
    RStripSnoc(u + ['0'], '0');
    RStripSnoc(u, '0');
    RStripStops(u, '0');
    RStripSnoc(w, '.');
    RStripStops(w, '.');
  }

  /** An unsigned decimal that starts and ends with a digit and has value `v`. */
  predicate UnsignedText(t: string, v: real) {
    t != [] && Plain(t) && IsDigit(t[0]) && IsDigit(t[|t| - 1]) && ParseUnsigned(t) == Some(v)
  }

  /** Digits, a point and more digits form an unsigned decimal. */
  lemma PointedText(w: string, f: string)
    requires w != [] && AllDigits(w) && f != [] && AllDigits(f)
    ensures UnsignedText(w + "." + f, DecimalValue(w, f))
  {
    ParseUnsignedPointed(w, f);
    var t := w + "." + f;
    assert forall i :: 0 <= i < |w| ==> t[i] == w[i];
    assert forall i :: 0 <= i < |f| ==> t[|w| + 1 + i] == f[i];
  }

  /** A digit string is an unsigned decimal. */
  lemma DigitsText(w: string)
    requires w != [] && AllDigits(w)
    ensures UnsignedText(w, DigitsValue(w) as real)
  {
    ParseUnsignedDigits(w);
  }

  /** Digit-delimited unsigned decimal of value `q + r / 1000`. */
  predicate MilliParse(t: string, q: nat, r: nat) {
    UnsignedText(t, q as real + r as real / 1000.0)
  }

  /** `w.abc` with trailing zeros and then the point stripped is an unsigned
      decimal of value `w + abc / 1000`. */
  lemma StrippedValue(t: string, w: string, a: char, b: char, c: char)
    requires w != [] && AllDigits(w) && IsDigit(a) && IsDigit(b) && IsDigit(c)
    requires t == RStrip(RStrip(w + "." + [a, b, c], '0'), '.')
    ensures MilliParse(t, DigitsValue(w), 100 * DigitValue(a) + 10 * DigitValue(b) + DigitValue(c))
  {
    if c != '0' {
      StrippedThree(t, w, a, b, c);
    } else if b != '0' {
      StrippedTwo(t, w, a, b, c);
    } else if a != '0' {
      StrippedOne(t, w, a, b, c);
    } else {
      StrippedNone(t, w, a, b, c);
    }
  }

  lemma StrippedThree(t: string, w: string, a: char, b: char, c: char)
    requires w != [] && AllDigits(w) && IsDigit(a) && IsDigit(b) && IsDigit(c) && c != '0'
    requires t == RStrip(RStrip(w + "." + [a, b, c], '0'), '.')
    ensures MilliParse(t, DigitsValue(w), 100 * DigitValue(a) + 10 * DigitValue(b) + DigitValue(c))
  {
    StripKeepsThree(w, a, b, c);
    ValueThree(w, a, b, c);
  }

  lemma StrippedTwo(t: string, w: string, a: char, b: char, c: char)
    requires w != [] && AllDigits(w) && IsDigit(a) && IsDigit(b) && b != '0' && c == '0'
    requires t == RStrip(RStrip(w + "." + [a, b, c], '0'), '.')
    ensures MilliParse(t, DigitsValue(w), 100 * DigitValue(a) + 10 * DigitValue(b) + DigitValue(c))
  {
    StripKeepsTwo(w, a, b);
    ValueTwo(w, a, b);
    MilliSame(t, w + "." + [a, b], DigitsValue(w), 100 * DigitValue(a) + 10 * DigitValue(b),
              100 * DigitValue(a) + 10 * DigitValue(b) + DigitValue(c));
  }

  lemma StrippedOne(t: string, w: string, a: char, b: char, c: char)
    requires w != [] && AllDigits(w) && IsDigit(a) && a != '0' && b == '0' && c == '0'
    requires t == RStrip(RStrip(w + "." + [a, b, c], '0'), '.')
    ensures MilliParse(t, DigitsValue(w), 100 * DigitValue(a) + 10 * DigitValue(b) + DigitValue(c))
  {
    StripKeepsOne(w, a);
    ValueOne(w, a);
    MilliSame(t, w + "." + [a], DigitsValue(w), 100 * DigitValue(a),
              100 * DigitValue(a) + 10 * DigitValue(b) + DigitValue(c));
  }

  lemma MilliSame(t: string, u: string, q: nat, r1: nat, r2: nat)
    requires t == u && r1 == r2 && MilliParse(u, q, r1)
    ensures MilliParse(t, q, r2)
  {
  }

  lemma StrippedNone(t: string, w: string, a: char, b: char, c: char)
    requires w != [] && AllDigits(w) && a == '0' && b == '0' && c == '0'
    requires t == RStrip(RStrip(w + "." + [a, b, c], '0'), '.')
    ensures MilliParse(t, DigitsValue(w), 100 * DigitValue(a) + 10 * DigitValue(b) + DigitValue(c))
  {
    StripKeepsNone(w);
    DigitsText(w);
  }

  // The four lemmas below state their predicate as an equation, which keeps
  // the verifier from checking it conjunct by conjunct.
  lemma ValueThree(w: string, a: char, b: char, c: char)
    requires w != [] && AllDigits(w) && IsDigit(a) && IsDigit(b) && IsDigit(c)
    ensures MilliParse(w + "." + [a, b, c], DigitsValue(w),
                       100 * DigitValue(a) + 10 * DigitValue(b) + DigitValue(c)) == true
  {
    FractionThree(a, b, c);
    ValueOf(w, [a, b, c], 100 * DigitValue(a) + 10 * DigitValue(b) + DigitValue(c));
  }

  lemma ValueTwo(w: string, a: char, b: char)
    requires w != [] && AllDigits(w) && IsDigit(a) && IsDigit(b)
    ensures MilliParse(w + "." + [a, b], DigitsValue(w), 100 * DigitValue(a) + 10 * DigitValue(b)) == true
  {
    FractionTwo(a, b);
    ValueOf(w, [a, b], 100 * DigitValue(a) + 10 * DigitValue(b));
  }

  lemma ValueOne(w: string, a: char)
    requires w != [] && AllDigits(w) && IsDigit(a)
    ensures MilliParse(w + "." + [a], DigitsValue(w), 100 * DigitValue(a)) == true
  {
    FractionOne(a);
    ValueOf(w, [a], 100 * DigitValue(a));
  }

  /** `w.f` whose fraction is `r` thousandths. */
  lemma ValueOf(w: string, f: string, r: nat)
    requires w != [] && AllDigits(w) && f != [] && AllDigits(f)
    requires FractionValue(f) == r as real / 1000.0
    ensures MilliParse(w + "." + f, DigitsValue(w), r) == true
  {
    PointedText(w, f);
    MilliOf(w + "." + f, DecimalValue(w, f), DigitsValue(w), r);
  }

  lemma MilliOf(t: string, u: real, q: nat, r: nat)
    requires UnsignedText(t, u) == true && u == q as real + r as real / 1000.0
    ensures MilliParse(t, q, r) == true
  {
  }

  /** The text of MilliText is an unsigned decimal whose value is `m / 1000`. */
  lemma MilliTextValue(m: nat)
    ensures MilliParse(MilliText(m), m / 1000, m % 1000)
  {
    var w := NatToString(m / 1000);
    var p := Pad3(m % 1000);
    assert p == [p[0], p[1], p[2]];
    PadDigits(m % 1000);
    StrippedValue(MilliText(m), w, p[0], p[1], p[2]);
  }

  lemma PadDigits(r: nat)
    requires r < 1000
    ensures var p := Pad3(r); 100 * DigitValue(p[0]) + 10 * DigitValue(p[1]) + DigitValue(p[2]) == r
  {
    var p := Pad3(r);
    assert DigitValue(p[0]) == r / 100;
    assert DigitValue(p[1]) == r / 10 % 10;
    assert DigitValue(p[2]) == r % 10;
    assert r == 100 * (r / 100) + 10 * (r / 10 % 10) + r % 10;
  }

  lemma MilliSplit(m: nat)
    ensures (m / 1000) as real + (m % 1000) as real / 1000.0 == m as real / 1000.0
  {
  }

  /** The text of Fixed3 is an unsigned decimal whose value is `v` rounded to
      three fractional digits. */
  lemma Fixed3Value(v: real)
    requires v >= 0.0
    ensures UnsignedText(Fixed3(v), Rounded3(v))
  {
    var m: nat := Thousandths(v);
    MilliTextValue(m);
    MilliValue(MilliText(m), m);
  }

  lemma MilliValue(t: string, m: nat)
    requires MilliParse(t, m / 1000, m % 1000) == true
    ensures UnsignedText(t, m as real / 1000.0) == true
  {
    MilliSplit(m);
  }

  /** The number part of every rendering Format produces parses back
      (by `float()`) to the value it stands for: an unsigned decimal ... */
  lemma ParseFloatUnsigned(t: string, v: real)
    requires UnsignedText(t, v) == true
    ensures ParseFloat(t) == Some(v)
  {
    StripNoSpace(t);
  }

  /** ... and a minus sign followed by one. */
  lemma ParseFloatNegated(body: string, v: real)
    requires body != [] && Plain(body) && IsDigit(body[|body| - 1])
    requires ParseUnsigned(body) == Some(v)
    ensures ParseFloat("-" + body) == Some(-v)
  {
    NegatedPlain(body);
    StripNoSpace("-" + body);
  }

  /** Rendered text is left alone by `strip()` and `lower()`. */
  lemma Normalised(body: string, d: Denomination)
    requires body != [] && Plain(body)
    ensures Lower(Strip(body + Suffix(d))) == body + Suffix(d)
  {
    var text := body + Suffix(d);
    StripNoSpace(text);
    LowerNoUpper(text);
  }

  lemma ParseSp(body: string, v: real)
    requires ParseFloat(body) == Some(v)
    ensures ParseNormalised(body + "sp") == Some(v * 1000000.0)
  {
    var text := body + "sp";
    assert text[..|text| - 2] == body;
    assert text[|text| - 2..] == "sp";
  }

  lemma ParseSx(body: string, v: real)
    requires ParseFloat(body) == Some(v)
    ensures ParseNormalised(body + "sx") == Some(v * 1000.0)
  {
    var text := body + "sx";
    assert text[..|text| - 2] == body;
    assert text[|text| - 2..] == "sx";
  }

  lemma ParseQi(body: string, v: real)
    requires ParseFloat(body) == Some(v)
    ensures ParseNormalised(body + "qi") == Some(v)
  {
    var text := body + "qi";
    assert text[..|text| - 2] == body;
    assert text[|text| - 2..] == "qi";
  }

  /** The suffix search finds the suffix a rendering carries. */
  lemma ParseSuffixed(body: string, d: Denomination, v: real)
    requires ParseFloat(body) == Some(v)
    ensures ParseNormalised(body + Suffix(d)) == Some(InQi(v, d))
  {
    match d
    case Sp => ParseSp(body, v);
    case Sx => ParseSx(body, v);
    case Qi => ParseQi(body, v);
  }

  /** On normalised text, `parse_quantity` is the suffix search alone. */
  lemma NormalisedParse(text: string, x: Option<real>)
    requires Lower(Strip(text)) == text
    requires ParseNormalised(text) == x
    ensures Parse(text) == x
  {
  }

  /** A rendered number followed by a suffix parses to the number times the suffix's factor. */
  lemma ParseRendered(body: string, d: Denomination, v: real)
    requires body != [] && Plain(body)
    requires ParseFloat(body) == Some(v)
    ensures Parse(body + Suffix(d)) == Some(InQi(v, d))
  {
    Normalised(body, d);
    ParseSuffixed(body, d, v);
    NormalisedParse(body + Suffix(d), Some(InQi(v, d)));
  }

  /** The quotient survives Render-then-Parse exactly when it has at most three
      fractional digits. */
  lemma RenderRoundTrip(val: real, d: Denomination)
    requires val >= 1.0
    ensures Parse(Render(val, d)) == Some(InQi(val, d)) <==> HasMilliPrecision(val)
  {
    if IsInteger(val) {
      RenderIntegral(val, d);
    } else {
      RenderFractional(val, d);
      RoundedMatches(Parse(Render(val, d)), val, d);
    }
  }

  /** The parsed-back rounding equals the quotient exactly when nothing was rounded away. */
  lemma RoundedMatches(p: Option<real>, val: real, d: Denomination)
    requires p == Some(InQi(Rounded3(val), d))
    ensures p == Some(InQi(val, d)) <==> HasMilliPrecision(val)
  {
    InQiInjective(Rounded3(val), val, d);
    RoundedExact(val);
  }

  /** Rounding to thousandths changes nothing exactly when there is nothing to round away. */
  lemma RoundedExact(v: real)
    ensures Rounded3(v) == v <==> HasMilliPrecision(v)
  {
    var m := Thousandths(v);
    assert m as real / 1000.0 == v <==> m as real == v * 1000.0;
  }

  lemma RenderIntegral(val: real, d: Denomination)
    requires val >= 1.0 && IsInteger(val)
    ensures Parse(Render(val, d)) == Some(InQi(val, d)) && HasMilliPrecision(val)
  {
    var w := NatToString(val.Floor as nat);
    DigitsText(w);
    ParseFloatUnsigned(w, val);
    ParseRendered(w, d, val);
    assert Render(val, d) == w + Suffix(d);
    assert (val * 1000.0).Floor == val.Floor * 1000;
  }

  lemma RenderFractional(val: real, d: Denomination)
    requires val >= 1.0 && !IsInteger(val)
    ensures Parse(Render(val, d)) == Some(InQi(Rounded3(val), d))
  {
    Fixed3Value(val);
    FixedRendered(val, d, Rounded3(val));
  }

  lemma FixedRendered(val: real, d: Denomination, v: real)
    requires val >= 1.0 && !IsInteger(val)
    requires UnsignedText(Fixed3(val), v) == true
    ensures Parse(Render(val, d)) == Some(InQi(v, d))
  {
    var t := Fixed3(val);
    UnsignedRendered(t, d, v);
    assert Render(val, d) == t + Suffix(d);
  }

  /** An unsigned decimal followed by a suffix parses to its value times the suffix's factor. */
  lemma UnsignedRendered(t: string, d: Denomination, v: real)
    requires UnsignedText(t, v) == true
    ensures Parse(t + Suffix(d)) == Some(InQi(v, d))
  {
    ParseFloatUnsigned(t, v);
    ParseRendered(t, d, v);
  }

  /** Converting to qi is injective. */
  lemma InQiInjective(a: real, b: real, d: Denomination)
    ensures InQi(a, d) == InQi(b, d) <==> a == b
  {
  }

  lemma ReprIntegral(a: real)
    requires a >= 0.0 && IsInteger(a)
    ensures UnsignedText(ReprMagnitude(a), a) && HasMilliPrecision(a)
  {
    var n: nat := a.Floor as nat;
    assert ReprMagnitude(a) == NatToString(n) + "." + ['0'];
    PointZero(n);
    IntegerMilli(a);
  }

  /** "N.0" is an unsigned decimal of value N. */
  lemma PointZero(n: nat)
    ensures UnsignedText(NatToString(n) + "." + ['0'], n as real)
  {
    FractionOne('0');
    PointedText(NatToString(n), ['0']);
  }

  lemma IntegerMilli(a: real)
    requires IsInteger(a)
    ensures HasMilliPrecision(a)
  {
    var m := a.Floor * 1000;
    assert m as real == a * 1000.0;
    assert (m as real).Floor == m;
  }

  lemma ReprFractional(a: real)
    requires a >= 0.0 && !IsInteger(a)
    ensures UnsignedText(ReprMagnitude(a), Rounded3(a))
  {
    Fixed3Value(a);
  }

  /** Digit-delimited text that `float()` reads as an unsigned decimal, which
      is `a` exactly when `a` has at most three fractional digits. */
  predicate MagnitudeText(t: string, a: real) {
    && t != [] && Plain(t) && IsDigit(t[0]) && IsDigit(t[|t| - 1]) && ParseUnsigned(t).Some?
    && (ParseUnsigned(t) == Some(a) <==> HasMilliPrecision(a))
  }

  /** The magnitude text parses back to the magnitude exactly when it has at
      most three fractional digits. */
  lemma ReprMagnitudeValue(a: real)
    requires a >= 0.0
    ensures MagnitudeText(ReprMagnitude(a), a)
  {
    if IsInteger(a) {
      ReprIntegral(a);
    } else {
      ReprFractional(a);
      RoundedExact(a);
    }
  }

  /** Non-empty rendered text that `float()` reads back as `x` exactly when
      `x` has at most three fractional digits. */
  predicate FloatText(t: string, x: real) {
    t != [] && Plain(t) && (ParseFloat(t) == Some(x) <==> HasMilliPrecision(x))
  }

  lemma ReprApproxValue(x: real)
    ensures FloatText(ReprApprox(x), x)
  {
    if x < 0.0 {
      ReprNegative(x);
    } else {
      ReprNonNegative(x);
    }
  }

  // The two branches below state their predicate as an equation, for the
  // same reason as `ValueThree`.
  lemma ReprNegative(x: real)
    requires x < 0.0
    ensures FloatText(ReprApprox(x), x) == true
  {
    NegatedMagnitude(x, Abs(x));
  }

  lemma ReprNonNegative(x: real)
    requires x >= 0.0
    ensures FloatText(ReprApprox(x), x) == true
  {
    ReprMagnitudeValue(x);
    PlainMagnitude(ReprMagnitude(x), x);
  }

  lemma PlainMagnitude(t: string, a: real)
    requires MagnitudeText(t, a) == true
    ensures FloatText(t, a)
  {
    ParseFloatUnsigned(t, ParseUnsigned(t).value);
  }

  /** The magnitude `a` is a separate parameter so that no negated term
      appears inside a function argument. */
  lemma NegatedMagnitude(x: real, a: real)
    requires a >= 0.0 && x == -a
    ensures FloatText("-" + ReprMagnitude(a), x) == true
  {
    ReprMagnitudeValue(a);
    NegativeFromMagnitude(x, a, ReprMagnitude(a));
  }

  /** The requirement is stated as an equation so that the verifier matches
      it against `ReprMagnitudeValue` as a whole. */
  lemma NegativeFromMagnitude(x: real, a: real, body: string)
    requires x == -a
    requires MagnitudeText(body, a) == true
    ensures FloatText("-" + body, x) == true
  {
    var q := ParseUnsigned(body);
    MagnitudeUnsigned(body, a);
    NegatedText(body, q.value);
    NegatedMatches(ParseFloat("-" + body), q, x, a);
  }

  lemma MagnitudeUnsigned(t: string, a: real)
    requires MagnitudeText(t, a) == true
    ensures ParseUnsigned(t).Some? && UnsignedText(t, ParseUnsigned(t).value) == true
  {
  }

  lemma NegatedText(body: string, v: real)
    requires UnsignedText(body, v) == true
    ensures var t := "-" + body; Plain(t) && ParseFloat(t) == Some(-v)
  {
    NegatedPlain(body);
    ParseFloatNegated(body, v);
  }

  lemma NegatedPlain(body: string)
    requires body != [] && Plain(body) && IsDigit(body[|body| - 1])
    ensures var t := "-" + body; t[0] == '-' && t[1..] == body
    ensures var t := "-" + body; Plain(t) && IsDigit(t[|t| - 1])
  {
    var t := "-" + body;
    assert t[1..] == body;
    assert t[|t| - 1] == body[|body| - 1];
    assert forall i :: 1 <= i < |t| ==> t[i] == body[i - 1];
  }

  lemma NegatedMatches(p: Option<real>, q: Option<real>, x: real, a: real)
    requires x == -a
    requires q.Some? && p == Some(-q.value)
    requires q == Some(a) <==> HasMilliPrecision(a)
    ensures p == Some(x) <==> HasMilliPrecision(x)
  {
    assert a * 1000.0 == -(x * 1000.0);
    NegatedInteger(x * 1000.0);
  }

  lemma ParseNormalisedQi(body: string)
    ensures ParseNormalised(body + "qi") == ParseFloat(body)
  {
    var text := body + "qi";
    assert text[..|text| - 2] == body;
    assert text[|text| - 2..] == "qi";
  }

  lemma NegatedInteger(y: real)
    ensures IsInteger(-y) <==> IsInteger(y)
  {
    if IsInteger(y) { assert (-y).Floor == -(y.Floor); }
    if IsInteger(-y) { assert y.Floor == -((-y).Floor); }
  }

  /** A value survives format-then-parse exactly when its quotient by the
      chosen denomination has at most three fractional digits. */
  lemma RoundTrip(x: real)
    ensures Parse(Format(x)) == Some(x) <==> HasMilliPrecision(Quotient(x))
  {
    if x >= 1.0 {
      FormatRenders(x);
      RenderRoundTrip(Quotient(x), TierOf(x));
    } else {
      FormatFallback(x);
      FallbackRoundTrip(x);
    }
  }

  /** From 1 qi up, Format renders the quotient in the chosen denomination. */
  lemma FormatRenders(x: real)
    requires x >= 1.0
    ensures Quotient(x) >= 1.0 && Format(x) == Render(Quotient(x), TierOf(x))
  {
  }

  lemma FormatFallback(x: real)
    requires x < 1.0
    ensures Quotient(x) == x && Format(x) == ReprApprox(x) + "qi"
  {
  }

  /** Below 1 qi the repr-style text followed by "qi" parses back through `float()`. */
  lemma FallbackRoundTrip(x: real)
    ensures Parse(ReprApprox(x) + "qi") == Some(x) <==> HasMilliPrecision(x)
  {
    var t := ReprApprox(x);
    ReprApproxValue(x);
    Normalised(t, Qi);
    ParseNormalisedQi(t);
    NormalisedParse(t + "qi", ParseFloat(t));
  }

  // --------------------------------------------------------------- examples

  /** A bare digit string is a quantity in qi. */
  lemma ParseDigits(t: string)
    requires t != [] && AllDigits(t)
    ensures Parse(t) == Some(DigitsValue(t) as real)
  {
    DigitsText(t);
    ParseFloatUnsigned(t, DigitsValue(t) as real);
    StripNoSpace(t);
    LowerNoUpper(t);
    EndsInDigit(t);
    NormalisedParse(t, Some(DigitsValue(t) as real));
  }

  /** Text ending in a digit carries no suffix. */
  lemma EndsInDigit(q: string)
    requires q != [] && IsDigit(q[|q| - 1])
    ensures ParseNormalised(q) == ParseFloat(q)
  {
    if |q| >= 2 {
      var tail := q[|q| - 2..];
      assert tail[1] == q[|q| - 1];
    }
  }

  /** "1sx" is 1000 qi, the default of both input fields. */
  lemma ParseOneSx()
    ensures Parse("1sx") == Some(1000.0)
  {
    DigitsText("1");
    ParseFloatUnsigned("1", 1.0);
    ParseRendered("1", Sx, 1.0);
  }

  lemma ParseZero()
    ensures Parse("0") == Some(0.0)
  {
    ParseDigits("0");
  }

  /** A minus sign carries through the suffix: "-5sx" is -5000 qi. */
  lemma ParseNegativeSx(k: char)
    requires '1' <= k <= '9'
    ensures Parse(['-', k] + "sx") == Some(-(DigitValue(k) as real) * 1000.0)
  {
    NegativeDigit(k);
    ParseRendered(['-', k], Sx, -(DigitValue(k) as real));
  }

  lemma NegativeDigit(k: char)
    requires '1' <= k <= '9'
    ensures ['-', k] != [] && Plain(['-', k])
    ensures ParseFloat(['-', k]) == Some(-(DigitValue(k) as real))
  {
    assert [k][..0] == [];
    assert DigitsValue([k]) == DigitValue(k);
    DigitsText([k]);
    NegatedText([k], DigitValue(k) as real);
    assert "-" + [k] == ['-', k];
  }

  /** Surrounding spaces and capitals are ignored: "1.5SP " is 1500000 qi. */
  lemma ParseOneAndAHalfSp()
    ensures Parse("1.5SP ") == Some(1500000.0)
  {
    StripExample();
    LowerExample();
    OneAndAHalf();
    ParseSp("1.5", 1.5);
    assert "1.5" + "sp" == "1.5sp";
  }

  lemma StripExample()
    ensures Strip("1.5SP ") == "1.5SP"
  {
    var t := "1.5SP ";
    assert TrimStart(t) == t;
    assert t[..|t| - 1] == "1.5SP";
    assert TrimEnd("1.5SP") == "1.5SP";
  }

  lemma LowerExample()
    ensures Lower("1.5SP") == "1.5sp"
  {
    var l := Lower("1.5SP");
    assert l[3] == 's' && l[4] == 'p';
  }

  lemma OneAndAHalf()
    ensures ParseFloat("1.5") == Some(1.5)
  {
    DecimalFloat("1", "5");
    assert "1"[..0] == [];
    FractionOne('5');
    assert DecimalValue("1", "5") == 1.5;
    assert "1" + "." + "5" == "1.5";
  }

  /** `float()` of digits, a point and digits. */
  lemma DecimalFloat(w: string, f: string)
    requires w != [] && AllDigits(w) && f != [] && AllDigits(f)
    ensures var t := w + "." + f; t != [] && Plain(t) && ParseFloat(t) == Some(DecimalValue(w, f))
  {
    PointedText(w, f);
    ParseFloatUnsigned(w + "." + f, DecimalValue(w, f));
  }

  /** An integral quotient prints bare: 1000 qi is "1sx". */
  lemma FormatOneSx()
    ensures Format(1000.0) == "1sx"
  {
    assert Render(1.0, Sx) == NatToString(1) + "sx";
  }

  /** 999 qi stays in qi. */
  lemma FormatQi()
    ensures Format(999.0) == "999qi"
  {
    assert NatToString(9) == "9";
    assert NatToString(99) == NatToString(9) + "9";
    assert NatToString(999) == NatToString(99) + "9";
  }

  /** A fractional quotient loses its trailing zeros: 1500 qi is "1.5sx". */
  lemma FormatOneAndAHalfSx()
    ensures Format(1500.0) == "1.5sx"
  {
    assert RoundHalfEven(1.5 * 1000.0) == 1500;
    assert Pad3(500) == ['5', '0', '0'];
    StripKeepsOne(NatToString(1), '5');
    assert MilliText(1500) == "1.5";
  }

  /** A quotient with more than three decimals is rounded: 1234567 qi prints
      as "1.235sp", which parses to 1235000 qi. */
  lemma FormatRounds()
    ensures Format(1234567.0) == "1.235sp"
    ensures Parse(Format(1234567.0)) == Some(1235000.0)
  {
    FormatRoundsText();
    ParseRounded();
  }

  lemma FormatRoundsText()
    ensures Format(1234567.0) == "1.235sp"
  {
    assert RoundHalfEven(1.234567 * 1000.0) == 1235;
    assert Pad3(235) == ['2', '3', '5'];
    StripKeepsThree(NatToString(1), '2', '3', '5');
    assert MilliText(1235) == "1.235";
  }

  lemma ParseRounded()
    ensures Parse("1.235sp") == Some(1235000.0)
  {
    Rounded();
    ParseRendered("1.235", Sp, 1.235);
    assert "1.235" + Suffix(Sp) == "1.235sp";
  }

  lemma Rounded()
    ensures Plain("1.235") && ParseFloat("1.235") == Some(1.235)
  {
    DecimalFloat("1", "235");
    assert "1"[..0] == [];
    FractionThree('2', '3', '5');
    assert DecimalValue("1", "235") == 1.235;
    assert "1" + "." + "235" == "1.235";
  }

  // ------------------------------------------------------------ error path

  /** What `float()` accepts: after stripping, a non-empty text of digits with
      at most one point and an optional leading sign. Anything else is a
      `ValueError`. */
  predicate FloatShaped(t: string) {
    && t != []
    && (forall i :: 0 <= i < |t| ==> IsDigit(t[i]) || t[i] == '.' || (i == 0 && (t[i] == '+' || t[i] == '-')))
    && (forall i, j :: 0 <= i < j < |t| && t[i] == '.' ==> t[j] != '.')
  }

  lemma UnsignedShape(t: string)
    requires ParseUnsigned(t).Some?
    ensures t != [] && exists i :: 0 <= i < |t| && IsDigit(t[i])
    ensures forall i :: 0 <= i < |t| ==> IsDigit(t[i]) || (t[i] == '.' && i == IndexOf(t, '.'))
  {
    var k := IndexOf(t, '.');
    var whole := t[..k];
    var frac := if k < |t| then t[k + 1..] else [];
    if k > 0 {
      assert IsDigit(t[0]);
    } else {
      assert IsDigit(frac[0]) && t[k + 1] == frac[0];
    }
    forall i | 0 <= i < |t|
      ensures IsDigit(t[i]) || (t[i] == '.' && i == k)
    {
      if i < k {
        assert t[i] == whole[i];
      } else if i > k {
        assert t[i] == frac[i - k - 1];
      }
    }
  }

  /** Text that `float()` accepts has the shape above. */
  lemma {:induction false} FloatShape(s: string)
    requires ParseFloat(s).Some?
    ensures FloatShaped(Strip(s))
  {
    var t := Strip(s);
    if t != [] && (t[0] == '+' || t[0] == '-') {
      var u := t[1..];
      UnsignedShape(u);
      forall i | 1 <= i < |t|
        ensures IsDigit(t[i]) || (t[i] == '.' && i - 1 == IndexOf(u, '.'))
      {
        assert t[i] == u[i - 1];
      }
      var d :| 0 <= d < |u| && IsDigit(u[d]);
      assert t[d + 1] == u[d];
    } else {
      UnsignedShape(t);
    }
  }

  /** Text that is not shaped like a number is a `ValueError`. */
  lemma NotShaped(s: string)
    requires !FloatShaped(Strip(s))
    ensures ParseFloat(s) == None
  {
    if ParseFloat(s).Some? {
      FloatShape(s);
    }
  }

  /** Letters are not a quantity. */
  lemma ParseLetters()
    ensures Parse("abc") == None
  {
    var t := "abc";
    StripNoSpace(t);
    LowerNoUpper(t);
    assert !FloatShaped(t) by {
      assert !IsDigit(t[1]) && t[1] != '.';
    }
    NotShaped(t);
  }

  /** A suffix with no number before it is a `ValueError`. */
  lemma ParseBareSuffix()
    ensures Parse("sx") == None
  {
    var t := "sx";
    StripNoSpace(t);
    LowerNoUpper(t);
    assert t[..|t| - 2] == [];
    assert !FloatShaped(Strip([]));
    NotShaped([]);
  }

  /** Two decimal points are a `ValueError`. */
  lemma ParseTwoPoints()
    ensures Parse("1.2.3sx") == None
  {
    var body := "1.2.3";
    TwoPoints();
    Normalised(body, Sx);
    var text := body + "sx";
    assert text[..|text| - 2] == body;
    assert text[|text| - 2..] == "sx";
    assert text == "1.2.3sx";
    NormalisedParse(text, None);
  }

  lemma TwoPoints()
    ensures Plain("1.2.3") && ParseFloat("1.2.3") == None
  {
    var body := "1.2.3";
    StripNoSpace(body);
    assert !FloatShaped(body) by {
      assert body[1] == '.' && body[3] == '.';
    }
    NotShaped(body);
  }
}
