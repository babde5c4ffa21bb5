/**
 * The traffic lights: `status_to_emoji`, `credit_percentage_to_emoji`, the
 * part of Python's `float()` the latter relies on, and the two summary lines
 * built from the lights.
 */
module Classify {
  import opened Wrappers
  import opened Text

  datatype Light = Green | Amber | Red | White

  /** The emoji a light is shown as. */
  function GlyphChar(l: Light): char {
    match l
    case Green => '\U{1F7E2}'
    case Amber => '\U{1F7E1}'
    case Red => '\U{1F534}'
    case White => '\U{26AA}'
  }

  /** The glyph identifies its light. */
  function LightOfGlyph(c: char): (l: Option<Light>)
    ensures forall x: Light :: c == GlyphChar(x) <==> l == Some(x)
  {
    if c == '\U{1F7E2}' then Some(Green)
    else if c == '\U{1F7E1}' then Some(Amber)
    else if c == '\U{1F534}' then Some(Red)
    else if c == '\U{26AA}' then Some(White)
    else None
  }

  // ---------------------------------------------------------------- status

  /** `status_to_emoji`: compare the lower-cased status with three words. */
  function StatusLight(status: string): Light {
    var s := Lower(status);
    if s == "ok" then Green
    else if s == "en curso" then Amber
    else if s == "nok" then Red
    else White
  }

  /**
   * The classification is case-insensitive and exact: green for any casing
   * of "ok", amber for any casing of "en curso", red for any casing of
   * "nok", and white for everything else.
   */
  lemma StatusLightTable(status: string)
    ensures StatusLight(status) == Green <==> CaseVariantOf(status, "ok")
    ensures StatusLight(status) == Amber <==> CaseVariantOf(status, "en curso")
    ensures StatusLight(status) == Red <==> CaseVariantOf(status, "nok")
    ensures StatusLight(status) == White <==>
              !CaseVariantOf(status, "ok") && !CaseVariantOf(status, "en curso") && !CaseVariantOf(status, "nok")
  {
    LowerMatchesCaseVariants(status, "ok");
    LowerMatchesCaseVariants(status, "en curso");
    LowerMatchesCaseVariants(status, "nok");
  }

  /** The values the sample data and the placeholder use. */
  lemma StatusLightExamples()
    ensures StatusLight("OK") == Green && StatusLight("Ok") == Green && StatusLight("ok") == Green
    ensures StatusLight("En Curso") == Amber && StatusLight("EN CURSO") == Amber
    ensures StatusLight("NOK") == Red && StatusLight("nok") == Red
    ensures StatusLight("Unknown") == White && StatusLight("") == White
  {
    GreenExamples();
    AmberExamples();
    RedExamples();
    WhiteExamples();
  }

  lemma GreenExamples()
    ensures StatusLight("OK") == Green && StatusLight("Ok") == Green && StatusLight("ok") == Green
  {
    var a: string, b: string, c: string := "OK", "Ok", "ok";
    StatusLightTable(a);
    StatusLightTable(b);
    StatusLightTable(c);
  }

  lemma AmberExamples()
    ensures StatusLight("En Curso") == Amber && StatusLight("EN CURSO") == Amber
  {
    AmberMixedCase();
    AmberUpperCase();
  }

  lemma AmberMixedCase()
    ensures StatusLight("En Curso") == Amber
  {
    var a: string := "En Curso";
    assert Lower(a) == "en curso";
  }

  lemma AmberUpperCase()
    ensures StatusLight("EN CURSO") == Amber
  {
    var a: string := "EN CURSO";
    assert Lower(a) == "en curso";
  }

  lemma RedExamples()
    ensures StatusLight("NOK") == Red && StatusLight("nok") == Red
  {
    var a: string, b: string := "NOK", "nok";
    StatusLightTable(a);
    StatusLightTable(b);
  }

  lemma WhiteExamples()
    ensures StatusLight("Unknown") == White && StatusLight("") == White
  {
    var a: string, b: string := "Unknown", "";
    StatusLightTable(a);
    StatusLightTable(b);
  }

  /**
   * The `status_line` text: the five glyphs each followed by its label, in the
   * order KYC, Onboarding, CCG, Contract, Client.
   */
  function StatusLine(kyc: Light, onboarding: Light, ccg: Light, contract: Light, client: Light): (line: string)
    ensures |line| == 48
  {
    [GlyphChar(kyc)] + " KYC  " + [GlyphChar(onboarding)] + " Onboarding  " + [GlyphChar(ccg)] + " CCG  "
    + [GlyphChar(contract)] + " Contract  " + [GlyphChar(client)] + " Client"
  }

  /** The five lights read back from their fixed places in a status line. */
  function LightsOfStatusLine(line: string): Option<(Light, Light, Light, Light, Light)>
  {
    if |line| != 48 then None
    else match (LightOfGlyph(line[0]), LightOfGlyph(line[7]), LightOfGlyph(line[21]),
                LightOfGlyph(line[28]), LightOfGlyph(line[40]))
      case (Some(a), Some(b), Some(c), Some(d), Some(e)) => Some((a, b, c, d, e))
      case _ => None
  }

  /**
   * A status line names each field's light in the fixed order, and no other,
   * each glyph followed by its field's label.
   */
  lemma StatusLineRoundTrip(kyc: Light, onboarding: Light, ccg: Light, contract: Light, client: Light)
    ensures LightsOfStatusLine(StatusLine(kyc, onboarding, ccg, contract, client))
            == Some((kyc, onboarding, ccg, contract, client))
    ensures var line := StatusLine(kyc, onboarding, ccg, contract, client);
            && line[1..7] == " KYC  " && line[8..21] == " Onboarding  " && line[22..28] == " CCG  "
            && line[29..40] == " Contract  " && line[41..] == " Client"
  {
    StatusLineGlyphs(kyc, onboarding, ccg, contract, client);
    StatusLineLabels(GlyphChar(kyc), GlyphChar(onboarding), GlyphChar(ccg), GlyphChar(contract), GlyphChar(client));
  }

  lemma StatusLineGlyphs(kyc: Light, onboarding: Light, ccg: Light, contract: Light, client: Light)
    ensures var line := StatusLine(kyc, onboarding, ccg, contract, client);
            && line[0] == GlyphChar(kyc) && line[7] == GlyphChar(onboarding) && line[21] == GlyphChar(ccg)
            && line[28] == GlyphChar(contract) && line[40] == GlyphChar(client)
  {
  }

  lemma StatusLineLabels(g1: char, g2: char, g3: char, g4: char, g5: char)
    ensures var line := [g1] + " KYC  " + [g2] + " Onboarding  " + [g3] + " CCG  " + [g4] + " Contract  " + [g5] + " Client";
            && line[1..7] == " KYC  " && line[8..21] == " Onboarding  " && line[22..28] == " CCG  "
            && line[29..40] == " Contract  " && line[41..] == " Client"
  {
    var a: string, b: string, c: string, d: string, e: string := " KYC  ", " Onboarding  ", " CCG  ", " Contract  ", " Client";
    var line := [g1] + a + [g2] + b + [g3] + c + [g4] + d + [g5] + e;
    assert line[1..7] == a;
    assert line[8..21] == b;
    assert line[22..28] == c;
    assert line[29..40] == d;
    assert line[41..] == e;
  }

  // ---------------------------------------------------------------- float()

  /** What `float()` can return. */
  datatype Number = Finite(value: real) | Infinity(negative: bool) | NaN

  function Pow10(n: nat): (p: nat)
    ensures p >= 1
  {
    if n == 0 then 1 else 10 * Pow10(n - 1)
  }

  /** `10 ** e` for an integer exponent, exactly. */
  function Scale(e: int): (r: real)
    ensures r > 0.0
  {
    if e >= 0 then Pow10(e) as real else 1.0 / Pow10(-e) as real
  }

  /** The index of the first exponent marker `e` or `E`, or `|s|`. */
  function ExponentAt(s: string): (i: nat)
    ensures i <= |s|
    ensures i < |s| ==> s[i] in "eE"
    ensures forall j :: 0 <= j < i ==> s[j] !in "eE"
  {
    if s == [] then 0 else if s[0] in "eE" then 0 else 1 + ExponentAt(s[1..])
  }

  /** Digits, optionally with one decimal point, with at least one digit in all. */
  function ParseMantissa(m: string): (r: Option<real>)
    ensures r.Some? ==> r.value >= 0.0
  {
    var dot := IndexOf(m, '.');
    var whole := m[..dot];
    var frac := if dot < |m| then m[dot + 1..] else "";
    if AllDigits(whole) && AllDigits(frac) && |whole| + |frac| >= 1
    then Some(NatOf(whole) as real + Ratio(NatOf(frac), Pow10(|frac|)))
    else None
  }

  /** `n / d` as an exact fraction. */
  function Ratio(n: nat, d: nat): (r: real)
    requires d > 0
    ensures r >= 0.0
  {
    var q := n as real / d as real;
    assert q * d as real == n as real;
    q
  }

  /** An optionally signed, non-empty run of digits. */
  function ParseExponent(e: string): Option<int> {
    if |e| > 0 && e[0] in "+-" then
      (if |e| > 1 && AllDigits(e[1..]) then Some(if e[0] == '-' then -(NatOf(e[1..]) as int) else NatOf(e[1..]) as int) else None)
    else if |e| > 0 && AllDigits(e) then Some(NatOf(e))
    else None
  }

  /** An unsigned decimal literal: mantissa and optional exponent. */
  function ParseUnsigned(b: string): (r: Option<real>)
    ensures r.Some? ==> r.value >= 0.0
  {
    var k := ExponentAt(b);
    match ParseMantissa(b[..k])
    case None => None
    case Some(m) =>
      if k == |b| then Some(m)
      else match ParseExponent(b[k + 1..])
        case None => None
        case Some(e) => Some(Scaled(m, e))
  }

  /** `m * 10^e`, which keeps the sign of `m`. */
  function Scaled(m: real, e: int): (r: real)
    requires m >= 0.0
    ensures r >= 0.0
  {
    var f := Scale(e);
    assert m * f >= 0.0 * f;
    m * f
  }

  /**
   * The characters `float()` skips at either end of its argument: ASCII tab
   * to carriage return, space, and the non-ASCII characters `str.isspace()`
   * accepts.  The ASCII separators U+001C to U+001F, which `str.strip()`
   * removes, are not skipped.
   */
  predicate FloatSpace(c: char) {
    IsSpace(c) && !('\U{1C}' <= c <= '\U{1F}')
  }

  /** Drops the leading characters `float()` skips. */
  function FloatTrimStart(s: string): (r: string)
    ensures |r| <= |s| && r == s[|s| - |r|..]
    ensures forall k :: 0 <= k < |s| - |r| ==> FloatSpace(s[k])
    ensures r == [] || !FloatSpace(r[0])
  {
    if s != [] && FloatSpace(s[0]) then
      var r := FloatTrimStart(s[1..]);
      assert s[1..][|s| - 1 - |r|..] == s[|s| - |r|..];
      r
    else
      s
  }

  /** Drops the trailing characters `float()` skips. */
  function FloatTrimEnd(s: string): (r: string)
    ensures |r| <= |s| && r == s[..|r|]
    ensures forall k :: |r| <= k < |s| ==> FloatSpace(s[k])
    ensures r == [] || !FloatSpace(r[|r| - 1])
  {
    if s != [] && FloatSpace(s[|s| - 1]) then
      var r := FloatTrimEnd(s[..|s| - 1]);
      assert s[..|s| - 1][..|r|] == s[..|r|];
      r
    else
      s
  }

  /**
   * `float(s)` on a string, `None` where it raises `ValueError`: the
   * characters of `FloatSpace` are ignored at either end, then an optional
   * sign, then either one of the words inf, infinity, nan in any case, or a
   * decimal literal.
   */
  function ParseFloat(s: string): Option<Number> {
    ParseLiteral(FloatTrimEnd(FloatTrimStart(s)))
  }

  /** The text `float()` reads once the ends are trimmed. */
  function ParseLiteral(t: string): Option<Number> {
    var negative := |t| > 0 && t[0] == '-';
    var body := if |t| > 0 && t[0] in "+-" then t[1..] else t;
    var word := Lower(body);
    if word == "inf" || word == "infinity" then Some(Infinity(negative))
    else if word == "nan" then Some(NaN)
    else match ParseUnsigned(body)
      case None => None
      case Some(v) => Some(Finite(if negative then -v else v))
  }

  /** A plain run of digits is a mantissa without a point. */
  lemma ParseMantissaDigits(s: string)
    requires s != [] && AllDigits(s)
    ensures ParseMantissa(s) == Some(NatOf(s) as real)
  {
    assert IndexOf(s, '.') == |s|;
    assert s[..|s|] == s;
  }

  /** A plain run of digits is an unsigned literal with that value. */
  lemma ParseUnsignedDigits(s: string)
    requires s != [] && AllDigits(s)
    ensures ParseUnsigned(s) == Some(NatOf(s) as real)
  {
    assert ExponentAt(s) == |s|;
    assert s[..|s|] == s;
    ParseMantissaDigits(s);
  }

  /** A plain run of digits parses as the number it spells. */
  lemma ParseFloatDigits(s: string)
    requires s != [] && AllDigits(s)
    ensures ParseFloat(s) == Some(Finite(NatOf(s) as real))
  {
    DigitsAreBareLiteral(s);
    ParseUnsignedDigits(s);
  }

  /** A run of digits has nothing to strip, no sign, and is none of the special words. */
  lemma DigitsAreBareLiteral(s: string)
    requires s != [] && AllDigits(s)
    ensures FloatTrimEnd(FloatTrimStart(s)) == s && s[0] !in "+-"
    ensures Lower(s) != "inf" && Lower(s) != "infinity" && Lower(s) != "nan"
  {
    assert !FloatSpace(s[0]) && FloatTrimStart(s) == s;
    assert !FloatSpace(s[|s| - 1]);
    var w := Lower(s);
    assert w[0] == s[0];
  }

  /**
   * Where `float()` and `str.strip()` part ways: a text starting with one of
   * U+001C to U+001F, which `strip()` would remove, makes `float()` raise,
   * so its light is white.
   */
  lemma LeadingSeparatorRejected(s: string)
    requires s != [] && '\U{1C}' <= s[0] <= '\U{1F}'
    ensures IsSpace(s[0]) && ParseFloat(s).None? && CreditLight(s) == White
  {
    FloatTrimKeepsLead(s);
    LiteralRejectsLead(FloatTrimEnd(FloatTrimStart(s)));
  }

  /** A text not starting with a character `float()` skips keeps its first character. */
  lemma FloatTrimKeepsLead(s: string)
    requires s != [] && !FloatSpace(s[0])
    ensures var t := FloatTrimEnd(FloatTrimStart(s));
            t != [] && t[0] == s[0]
  {
    assert FloatTrimStart(s) == s;
  }

  /** A trimmed text that starts like no number, sign or word makes `float()` raise. */
  lemma LiteralRejectsLead(t: string)
    requires t != [] && !IsDigit(t[0]) && t[0] !in ".eE+-iInN"
    ensures ParseLiteral(t).None?
  {
    NotSpecialWord(t);
    UnsignedRejectsLead(t);
  }

  /** A text starting with none of i, I, n, N is none of inf, infinity, nan in any case. */
  lemma NotSpecialWord(body: string)
    requires body != [] && body[0] !in "iInN"
    ensures Lower(body) != "inf" && Lower(body) != "infinity" && Lower(body) != "nan"
  {
    var w := Lower(body);
    assert w[0] == LowerChar(body[0]) && w[0] != 'i' && w[0] != 'n';
    var inf: string, infinity: string, nan: string := "inf", "infinity", "nan";
    assert inf[0] == 'i' && infinity[0] == 'i' && nan[0] == 'n';
  }

  /** An unsigned literal starts with a digit, a point or (wrongly) an exponent. */
  lemma UnsignedRejectsLead(b: string)
    requires b != [] && !IsDigit(b[0]) && b[0] !in ".eE"
    ensures ParseUnsigned(b).None?
  {
    var k := ExponentAt(b);
    var m := b[..k];
    assert k >= 1 && m[0] == b[0];
    MantissaRejectsLead(m);
  }

  /** A mantissa starts with a digit or a point. */
  lemma MantissaRejectsLead(m: string)
    requires m != [] && !IsDigit(m[0]) && m[0] != '.'
    ensures ParseMantissa(m).None?
  {
    var dot := IndexOf(m, '.');
    assert dot >= 1;
    var whole := m[..dot];
    assert whole[0] == m[0];
  }

  /** A decimal spelling of a whole number reads back as that number. */
  lemma ParseFloatDecimal(n: nat)
    ensures ParseFloat(DecimalOf(n)) == Some(Finite(n as real))
  {
    ParseFloatDigits(DecimalOf(n));
    NatOfDecimalOf(n);
  }

  // ---------------------------------------------------------------- credit

  /**
   * `credit_percentage_to_emoji`: red at 100 or more, amber from 80 up to
   * 100, green below 80, white when `float()` raises.  Comparisons with NaN
   * are false, so NaN falls through to green.
   */
  function CreditLight(percentage: string): Light {
    match ParseFloat(percentage)
    case None => White
    case Some(Finite(v)) => if v >= 100.0 then Red else if v >= 80.0 then Amber else Green
    case Some(Infinity(negative)) => if negative then Green else Red
    case Some(NaN) => Green
  }

  /** The four lights, each stated as the condition on the parsed value that gives it. */
  lemma CreditLightTable(percentage: string)
    ensures CreditLight(percentage) == White <==> ParseFloat(percentage).None?
    ensures CreditLight(percentage) == Red <==>
              ParseFloat(percentage) == Some(Infinity(false))
              || (ParseFloat(percentage).Some? && ParseFloat(percentage).value.Finite?
                  && ParseFloat(percentage).value.value >= 100.0)
    ensures CreditLight(percentage) == Amber <==>
              ParseFloat(percentage).Some? && ParseFloat(percentage).value.Finite?
              && 80.0 <= ParseFloat(percentage).value.value < 100.0
    ensures CreditLight(percentage) == Green <==>
              ParseFloat(percentage) in {Some(Infinity(true)), Some(NaN)}
              || (ParseFloat(percentage).Some? && ParseFloat(percentage).value.Finite?
                  && ParseFloat(percentage).value.value < 80.0)
  {
  }

  /** For a whole-number percentage the light follows the thresholds 80 and 100. */
  lemma CreditLightOfWholeNumber(n: nat)
    ensures CreditLight(DecimalOf(n)) == (if n >= 100 then Red else if n >= 80 then Amber else Green)
  {
    ParseFloatDecimal(n);
  }

  /** A plain run of digits is classified by the number it spells. */
  lemma CreditLightOfDigits(s: string)
    requires s != [] && AllDigits(s)
    ensures CreditLight(s) == (if NatOf(s) >= 100 then Red else if NatOf(s) >= 80 then Amber else Green)
  {
    ParseFloatDigits(s);
  }

  /** The placeholder's percentage "0" is green, not white. */
  lemma CreditLightOfZero()
    ensures CreditLight("0") == Green
  {
    var zero: string := "0";
    assert AllDigits(zero);
    CreditLightOfDigits(zero);
  }

  /** The sample percentages: 75 is green, 85 amber, 105 red. */
  lemma CreditLightOfSamples()
    ensures CreditLight("75") == Green && CreditLight("85") == Amber && CreditLight("105") == Red
  {
    CreditLightOf75();
    CreditLightOf85();
    CreditLightOf105();
  }

  lemma CreditLightOf75()
    ensures CreditLight("75") == Green
  {
    var p: string := "75";
    assert AllDigits(p);
    CreditLightOfDigits(p);
  }

  lemma CreditLightOf85()
    ensures CreditLight("85") == Amber
  {
    var p: string := "85";
    assert AllDigits(p);
    CreditLightOfDigits(p);
  }

  lemma CreditLightOf105()
    ensures CreditLight("105") == Red
  {
    var p: string := "105";
    assert AllDigits(p);
    assert NatOf(p) == 105 by {
      var q := p[..2];
      assert q[..1] == "1" && q[1] == '0' && p[2] == '5';
      assert NatOf(q[..1]) == 1;
      assert NatOf(q) == 10;
    }
    CreditLightOfDigits(p);
  }

  /**
   * The `credit_line` text: for Spot, Fwd and Derivados in that order, the
   * light's glyph, the label, the percentage as stored and a percent sign.
   */
  function CreditLineText(spot: string, fwd: string, deriv: string): string {
    CreditSummary(GlyphChar(CreditLight(spot)), spot, GlyphChar(CreditLight(fwd)), fwd,
                  GlyphChar(CreditLight(deriv)), deriv)
  }

  /** One category of the summary: glyph, caption, percentage and what follows it. */
  function Segment(glyph: char, caption: string, value: string, tail: string): (r: string)
    ensures |r| == 1 + |caption| + |value| + |tail|
    ensures r[0] == glyph && r[1 + |caption|..1 + |caption| + |value|] == value
    ensures r[1..1 + |caption|] == caption && r[1 + |caption| + |value|..] == tail
  {
    var r := [glyph] + caption + value + tail;
    assert r[1 + |caption|..1 + |caption| + |value|] == value;
    assert r[1..1 + |caption|] == caption;
    assert r[1 + |caption| + |value|..] == tail;
    r
  }

  function CreditSummary(g1: char, spot: string, g2: char, fwd: string, g3: char, deriv: string): string {
    Segment(g1, " Spot: ", spot, "%  ") + Segment(g2, " Fwd: ", fwd, "%  ") + Segment(g3, " Derivados: ", deriv, "%")
  }

  /**
   * Each category's glyph and percentage stand at a place fixed by the
   * lengths of the percentages before it, Spot first, then Fwd, then Derivados.
   */
  lemma CreditLineLayout(spot: string, fwd: string, deriv: string)
    ensures var line := CreditLineText(spot, fwd, deriv);
            var f := |spot| + 11;
            var d := f + |fwd| + 10;
            && |line| == d + |deriv| + 14
            && line[0] == GlyphChar(CreditLight(spot)) && line[8..8 + |spot|] == spot
            && line[f] == GlyphChar(CreditLight(fwd)) && line[f + 7..f + 7 + |fwd|] == fwd
            && line[d] == GlyphChar(CreditLight(deriv)) && line[d + 13..d + 13 + |deriv|] == deriv
    ensures var line := CreditLineText(spot, fwd, deriv);
            var f := |spot| + 11;
            var d := f + |fwd| + 10;
            && line[1..8] == " Spot: " && line[8 + |spot|..f] == "%  "
            && line[f + 1..f + 7] == " Fwd: " && line[f + 7 + |fwd|..d] == "%  "
            && line[d + 1..d + 13] == " Derivados: " && line[d + 13 + |deriv|..] == "%"
  {
    SummaryLayout(GlyphChar(CreditLight(spot)), spot, GlyphChar(CreditLight(fwd)), fwd,
                  GlyphChar(CreditLight(deriv)), deriv);
    SummaryLabels(GlyphChar(CreditLight(spot)), spot, GlyphChar(CreditLight(fwd)), fwd,
                  GlyphChar(CreditLight(deriv)), deriv);
  }

  lemma SummaryLabels(g1: char, spot: string, g2: char, fwd: string, g3: char, deriv: string)
    ensures var line := CreditSummary(g1, spot, g2, fwd, g3, deriv);
            var f := |spot| + 11;
            var d := f + |fwd| + 10;
            && |line| == d + |deriv| + 14
            && line[1..8] == " Spot: " && line[8 + |spot|..f] == "%  "
            && line[f + 1..f + 7] == " Fwd: " && line[f + 7 + |fwd|..d] == "%  "
            && line[d + 1..d + 13] == " Derivados: " && line[d + 13 + |deriv|..] == "%"
  {
    var a := Segment(g1, " Spot: ", spot, "%  ");
    var b := Segment(g2, " Fwd: ", fwd, "%  ");
    var c := Segment(g3, " Derivados: ", deriv, "%");
    assert |a| == |spot| + 11 && |b| == |fwd| + 10 && |c| == |deriv| + 14;
    var line := a + b + c;
    ThreeParts(a, b, c);
    assert line[1..8] == a[1..8];
    assert line[8 + |spot|..|a|] == a[8 + |spot|..];
    assert line[|a| + 1..|a| + 7] == b[1..7];
    assert line[|a| + 7 + |fwd|..|a| + |b|] == b[7 + |fwd|..];
    assert line[|a| + |b| + 1..|a| + |b| + 13] == c[1..13];
    assert line[|a| + |b| + 13 + |deriv|..] == c[13 + |deriv|..];
  }

  lemma SummaryLayout(g1: char, spot: string, g2: char, fwd: string, g3: char, deriv: string)
    ensures var line := CreditSummary(g1, spot, g2, fwd, g3, deriv);
            var f := |spot| + 11;
            var d := f + |fwd| + 10;
            && |line| == d + |deriv| + 14
            && line[0] == g1 && line[8..8 + |spot|] == spot
            && line[f] == g2 && line[f + 7..f + 7 + |fwd|] == fwd
            && line[d] == g3 && line[d + 13..d + 13 + |deriv|] == deriv
  {
    var a := Segment(g1, " Spot: ", spot, "%  ");
    var b := Segment(g2, " Fwd: ", fwd, "%  ");
    var c := Segment(g3, " Derivados: ", deriv, "%");
    assert |a| == |spot| + 11 && |b| == |fwd| + 10 && |c| == |deriv| + 14;
    var line := a + b + c;
    ThreeParts(a, b, c);
    assert line[8..8 + |spot|] == line[..|a|][8..8 + |spot|];
    assert line[|a| + 7..|a| + 7 + |fwd|] == line[|a|..|a| + |b|][7..7 + |fwd|];
    assert line[|a| + |b| + 13..|a| + |b| + 13 + |deriv|] == line[|a| + |b|..][13..13 + |deriv|];
    assert line[|a|] == line[|a|..|a| + |b|][0];
    assert line[|a| + |b|] == line[|a| + |b|..][0];
  }

  /** Each part of a three-part concatenation is found where the parts before it end. */
  lemma ThreeParts(a: string, b: string, c: string)
    ensures (a + b + c)[..|a|] == a
    ensures (a + b + c)[|a|..|a| + |b|] == b
    ensures (a + b + c)[|a| + |b|..] == c
  {
  }
}
