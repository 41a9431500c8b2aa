/**
 * The accessibility helpers: the six-digit hexadecimal colour parser and the
 * parse-failure branch of the contrast ratio, the minimum touch-target test,
 * and the label, hint and property builders for screen readers.
 */
module Accessibility {
  import opened Wrappers

  /** Minimum touch-target side, in points. */
  const MinTouchTarget: real := 48.0

  /** Appended to every hint. */
  const DoubleTapSuffix: string := ". Double tap to activate."

  // ---------------------------------------------------------------------
  // Colours
  // ---------------------------------------------------------------------

  /** A colour as its red, green and blue components. */
  datatype Rgb = Rgb(r: int, g: int, b: int)

  predicate ValidRgb(c: Rgb) {
    0 <= c.r <= 255 && 0 <= c.g <= 255 && 0 <= c.b <= 255
  }

  /** A character of the class `[a-f\d]` under the case-insensitive flag:
      an ASCII digit or a letter a to f in either case. */
  predicate IsHexDigit(ch: char) {
    '0' <= ch <= '9' || 'a' <= ch <= 'f' || 'A' <= ch <= 'F'
  }

  predicate AllHexDigits(s: string) {
    forall i :: 0 <= i < |s| ==> IsHexDigit(s[i])
  }

  /** The base-16 value of one digit. */
  function HexDigitValue(ch: char): (v: nat)
    requires IsHexDigit(ch)
    ensures v < 16
  {
    if '0' <= ch <= '9' then ch as int - '0' as int
    else if 'a' <= ch <= 'f' then ch as int - 'a' as int + 10
    else ch as int - 'A' as int + 10
  }

  /** `parseInt` in base 16 of a two-digit group. */
  function ParseHexPair(hi: char, lo: char): (v: nat)
    requires IsHexDigit(hi) && IsHexDigit(lo)
    ensures v <= 255
  {
    16 * HexDigitValue(hi) + HexDigitValue(lo)
  }

  /** The pattern `^#?([a-f\d]{2})([a-f\d]{2})([a-f\d]{2})$` with the
      case-insensitive flag: the six digits after an optional '#', or None
      when the string does not match. */
  function MatchHexColor(hex: string): (digits: Option<string>)
    ensures digits.Some? ==> |digits.value| == 6 && AllHexDigits(digits.value)
    ensures digits.Some? ==> hex == digits.value || hex == "#" + digits.value
    ensures digits.Some? <==>
      || (|hex| == 6 && AllHexDigits(hex))
      || (|hex| == 7 && hex[0] == '#' && AllHexDigits(hex[1..]))
    ensures digits.Some? ==> digits.value == hex[|hex| - 6..]
  {
    var body := if |hex| > 0 && hex[0] == '#' then hex[1..] else hex;
    if |body| == 6 && AllHexDigits(body) then Some(body) else None
  }

  /** `hexToRgb`: the colour a `#RRGGBB` or `RRGGBB` string denotes, or None. */
  function HexToRgb(hex: string): (rgb: Option<Rgb>)
    ensures rgb.Some? ==> ValidRgb(rgb.value)
    ensures rgb.Some? <==>
      || (|hex| == 6 && AllHexDigits(hex))
      || (|hex| == 7 && hex[0] == '#' && AllHexDigits(hex[1..]))
  {
    match MatchHexColor(hex)
    case None => None
    case Some(d) => Some(Rgb(ParseHexPair(d[0], d[1]), ParseHexPair(d[2], d[3]), ParseHexPair(d[4], d[5])))
  }

  /** The digit for a value below 16, in lower or upper case. */
  function HexDigitChar(v: nat, upper: bool): (ch: char)
    requires v < 16
    ensures IsHexDigit(ch) && HexDigitValue(ch) == v
  {
    if v < 10 then ('0' as int + v) as char
    else if upper then ('A' as int + v - 10) as char
    else ('a' as int + v - 10) as char
  }

  /** Two digits for a component value. */
  function FormatHexPair(v: nat, upper: bool): (s: string)
    requires v <= 255
    ensures |s| == 2 && AllHexDigits(s) && ParseHexPair(s[0], s[1]) == v
  {
    [HexDigitChar(v / 16, upper), HexDigitChar(v % 16, upper)]
  }

  /** The hexadecimal notation of a colour, with or without '#', in either case:
      the reference against which the parser is proved. */
  function FormatHex(c: Rgb, withHash: bool, upper: bool): (s: string)
    requires ValidRgb(c)
    ensures |s| == if withHash then 7 else 6
  {
    (if withHash then "#" else "") + FormatHexPair(c.r, upper) + FormatHexPair(c.g, upper) + FormatHexPair(c.b, upper)
  }

  /** ASCII lower or upper case of a character, leaving every other character alone. */
  function RecaseChar(ch: char, upper: bool): char {
    if upper && 'a' <= ch <= 'z' then (ch as int - 'a' as int + 'A' as int) as char
    else if !upper && 'A' <= ch <= 'Z' then (ch as int - 'A' as int + 'a' as int) as char
    else ch
  }

  /** A string in ASCII lower (or upper) case. */
  function Recase(s: string, upper: bool): (t: string)
    ensures |t| == |s|
  {
    seq(|s|, i requires 0 <= i < |s| => RecaseChar(s[i], upper))
  }

  /** Every valid colour, written in any of the four notations, parses back to itself. */
  lemma HexRoundTrip(c: Rgb, withHash: bool, upper: bool)
    requires ValidRgb(c)
    ensures HexToRgb(FormatHex(c, withHash, upper)) == Some(c)
  {
    var s := FormatHex(c, withHash, upper);
    var pr, pg, pb := FormatHexPair(c.r, upper), FormatHexPair(c.g, upper), FormatHexPair(c.b, upper);
    var d := pr + pg + pb;
    assert d == [pr[0], pr[1], pg[0], pg[1], pb[0], pb[1]];
    assert AllHexDigits(d);
    if withHash {
      assert s == "#" + d && s[1..] == d;
    } else {
      assert s == d && s[0] != '#';
    }
    assert MatchHexColor(s) == Some(d);
  }

  /** The lower-case digit written for a digit's value is that digit in lower case. */
  lemma HexDigitCanonical(ch: char)
    requires IsHexDigit(ch)
    ensures HexDigitChar(HexDigitValue(ch), false) == RecaseChar(ch, false)
  {
  }

  /** A pair's value determines its digits up to case. */
  lemma HexPairCanonical(hi: char, lo: char)
    requires IsHexDigit(hi) && IsHexDigit(lo)
    ensures FormatHexPair(ParseHexPair(hi, lo), false) == [RecaseChar(hi, false), RecaseChar(lo, false)]
  {
    var v := ParseHexPair(hi, lo);
    assert v / 16 == HexDigitValue(hi) && v % 16 == HexDigitValue(lo);
    HexDigitCanonical(hi);
    HexDigitCanonical(lo);
  }

  /** Every string the parser accepts is the lower-case notation of its colour
      up to letter case, so the parser accepts nothing beyond the four notations. */
  lemma HexParseCanonical(hex: string)
    requires HexToRgb(hex).Some?
    ensures Recase(hex, false) == FormatHex(HexToRgb(hex).value, |hex| == 7, false)
  {
    var d := MatchHexColor(hex).value;
    var c := HexToRgb(hex).value;
    HexPairCanonical(d[0], d[1]);
    HexPairCanonical(d[2], d[3]);
    HexPairCanonical(d[4], d[5]);
    assert Recase(d, false) == FormatHexPair(c.r, false) + FormatHexPair(c.g, false) + FormatHexPair(c.b, false);
    if |hex| == 7 {
      assert hex == "#" + d;
      assert Recase(hex, false) == "#" + Recase(d, false);
    } else {
      assert hex == d;
    }
  }

  /** Changing a character's case keeps a hex digit a hex digit of the same
      value, and anything else not a hex digit. */
  lemma RecaseHexDigit(ch: char, upper: bool)
    ensures IsHexDigit(RecaseChar(ch, upper)) <==> IsHexDigit(ch)
    ensures IsHexDigit(ch) ==> HexDigitValue(RecaseChar(ch, upper)) == HexDigitValue(ch)
  {
  }

  /** The pattern matches a string in another case exactly when it matches the
      string, and its digits are then those digits in the other case. */
  lemma RecaseMatch(hex: string, upper: bool)
    ensures MatchHexColor(Recase(hex, upper)).Some? <==> MatchHexColor(hex).Some?
    ensures MatchHexColor(hex).Some? ==>
      MatchHexColor(Recase(hex, upper)).value == Recase(MatchHexColor(hex).value, upper)
  {
    var t := Recase(hex, upper);
    forall i | 0 <= i < |hex|
      ensures IsHexDigit(t[i]) <==> IsHexDigit(hex[i])
    {
      RecaseHexDigit(hex[i], upper);
    }
    if |hex| > 0 {
      assert t[0] == '#' <==> hex[0] == '#';
      assert t[1..] == Recase(hex[1..], upper);
    }
  }

  /** Changing the letter case of a string does not change what it parses to. */
  lemma HexCaseInsensitive(hex: string, upper: bool)
    ensures HexToRgb(Recase(hex, upper)) == HexToRgb(hex)
  {
    RecaseMatch(hex, upper);
    if MatchHexColor(hex).Some? {
      var d := MatchHexColor(hex).value;
      forall i | 0 <= i < 6
        ensures HexDigitValue(Recase(d, upper)[i]) == HexDigitValue(d[i])
      {
        RecaseHexDigit(d[i], upper);
      }
    }
  }

  /** Adding or removing the leading '#' does not change what a string parses to. */
  lemma HexHashOptional(digits: string)
    requires |digits| == 0 || digits[0] != '#'
    ensures HexToRgb("#" + digits) == HexToRgb(digits)
  {
    var h := "#" + digits;
    assert h[1..] == digits;
    assert h[0] == '#';
    assert |h| == 7 <==> |digits| == 6;
    assert MatchHexColor(h) == MatchHexColor(digits);
  }

  // ---------------------------------------------------------------------
  // Contrast ratio
  // ---------------------------------------------------------------------

  /** `getContrastRatio`, with the relative luminance of a colour as a
      parameter: 0 when either string fails to parse, otherwise the lighter
      luminance plus 0.05 over the darker luminance plus 0.05. */
  function ContrastRatio(hex1: string, hex2: string, luminance: Rgb -> real): (ratio: real)
    requires forall c :: ValidRgb(c) ==> 0.0 <= luminance(c)
    ensures HexToRgb(hex1).None? || HexToRgb(hex2).None? ==> ratio == 0.0
    ensures HexToRgb(hex1).Some? && HexToRgb(hex2).Some? ==> ratio >= 1.0
  {
    var c1 := HexToRgb(hex1);
    var c2 := HexToRgb(hex2);
    if c1.None? || c2.None? then 0.0
    else
      var l1 := luminance(c1.value);
      var l2 := luminance(c2.value);
      var lighter := Max(l1, l2);
      var darker := Min(l1, l2);
      RatioAtLeastOne(lighter + 0.05, darker + 0.05);
      (lighter + 0.05) / (darker + 0.05)
  }

  /** A quotient whose numerator is at least its positive denominator is at least 1. */
  lemma RatioAtLeastOne(num: real, den: real)
    requires 0.0 < den <= num
    ensures num / den >= 1.0
  {
    var q := num / den;
    assert q * den == num;
    if q < 1.0 {
      assert false;
    }
  }

  /** The ratio does not depend on the order of the two colours. */
  lemma ContrastSymmetric(hex1: string, hex2: string, luminance: Rgb -> real)
    requires forall c :: ValidRgb(c) ==> 0.0 <= luminance(c)
    ensures ContrastRatio(hex1, hex2, luminance) == ContrastRatio(hex2, hex1, luminance)
  {
  }

  /** A parsable colour against itself has ratio exactly 1. */
  lemma ContrastWithItself(hex: string, luminance: Rgb -> real)
    requires forall c :: ValidRgb(c) ==> 0.0 <= luminance(c)
    requires HexToRgb(hex).Some?
    ensures ContrastRatio(hex, hex, luminance) == 1.0
  {
  }

  // ---------------------------------------------------------------------
  // Touch targets, labels, hints and properties
  // ---------------------------------------------------------------------

  /** `isTouchTargetValid`. */
  function IsTouchTargetValid(width: real, height: real): (valid: bool)
    ensures valid <==> Min(width, height) >= MinTouchTarget
  {
    width >= MinTouchTarget && height >= MinTouchTarget
  }

  /** A target is valid exactly when its smaller side reaches 48 points, so
      enlarging a valid target keeps it valid. */
  lemma TouchTargetMonotone(w1: real, h1: real, w2: real, h2: real)
    ensures IsTouchTargetValid(w1, h1) <==> Min(w1, h1) >= MinTouchTarget
    ensures IsTouchTargetValid(w1, h1) && w1 <= w2 && h1 <= h2 ==> IsTouchTargetValid(w2, h2)
  {
  }

  /** `getAccessibleLabel`: the text, followed by ", " and the action when the
      action is present and not empty. */
  function AccessibleLabel(text: string, action: Option<string>): (spoken: string)
    ensures |spoken| >= |text| && spoken[..|text|] == text
    ensures spoken == text <==> action.None? || action.value == ""
    ensures spoken != text ==> spoken[|text|..] == ", " + action.value
  {
    if action.Some? && action.value != "" then text + ", " + action.value else text
  }

  /** `getAccessibilityHint`: the action, then the double-tap instruction. */
  function AccessibilityHint(action: string): (hint: string)
    ensures |hint| == |action| + |DoubleTapSuffix|
    ensures hint[..|action|] == action && hint[|action|..] == DoubleTapSuffix
  {
    action + DoubleTapSuffix
  }

  /** Distinct actions give distinct hints. */
  lemma HintInjective(a: string, b: string)
    requires AccessibilityHint(a) == AccessibilityHint(b)
    ensures a == b
  {
    assert a == AccessibilityHint(a)[..|a|];
    assert b == AccessibilityHint(b)[..|b|];
  }

  /** The semantic properties handed to a view. */
  datatype AccessibilityProps = AccessibilityProps(
    accessibilityRole: string,
    accessibilityLabel: Option<string>,
    accessibilityHint: Option<string>)

  /** `getAccessibilityProps`: role, label and hint, passed through unchanged. */
  function GetAccessibilityProps(role: string, labelText: Option<string>, hintText: Option<string>)
    : (props: AccessibilityProps)
    ensures props.accessibilityRole == role
    ensures props.accessibilityLabel == labelText
    ensures props.accessibilityHint == hintText
  {
    AccessibilityProps(role, labelText, hintText)
  }
}
