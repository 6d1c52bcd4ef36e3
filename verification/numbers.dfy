/** Number and time normalisation of the calculator: `Number.parseFloat`,
    `sanitizeNumber`, `parseTimeInput`, `Math.round` and `formatTime`.
    Numbers are exact reals here; see README for what that leaves out. */
module Numbers {
  import opened Text

  /** The outcome of `Number.parseFloat`: a number, or NaN. */
  datatype Parsed = NaN | Num(value: real)

  /** The upper bound of `sanitizeNumber`; `Unbounded` is its default `Infinity`. */
  datatype Limit = Unbounded | AtMost(bound: real)

  function Pow10(e: nat): (r: nat)
    ensures r >= 1
  {
    if e == 0 then 1 else 10 * Pow10(e - 1)
  }

  /** 10 raised to an integer power. */
  function Scale(e: int): (r: real)
    ensures r > 0.0
  {
    if e >= 0 then Pow10(e) as real else 1.0 / Pow10(-e) as real
  }

  /** The value of the digits after a decimal point. */
  function FracValue(s: string): (r: real)
    requires AllDigits(s)
    ensures 0.0 <= r < 1.0
  {
    if s == [] then 0.0 else (DigitValue(s[0]) as real + FracValue(s[1..])) / 10.0
  }

  /** The exponent of an optional `e`/`E` suffix; 0 when the suffix is absent or has no digits. */
  function ExponentOf(s: string): int {
    if |s| >= 2 && (s[0] == 'e' || s[0] == 'E') then
      var signed := s[1] == '+' || s[1] == '-';
      var digits := if signed then s[2..] else s[1..];
      var n := LeadingDigits(digits);
      if n == 0 then 0
      else if s[1] == '-' then -(DigitsValue(digits[..n]) as int)
      else DigitsValue(digits[..n])
    else 0
  }

  /** The unsigned part of a decimal literal: digits [. digits] [exponent], with at least
      one digit before or after the point; NaN when `u` does not start that way. */
  function UnsignedDecimal(u: string): Parsed {
    var ni := LeadingDigits(u);
    var dot := ni < |u| && u[ni] == '.';
    var rest := if dot then u[ni + 1..] else u[ni..];
    var nf := if dot then LeadingDigits(rest) else 0;
    if ni == 0 && nf == 0 then NaN
    else Num((DigitsValue(u[..ni]) as real + FracValue(rest[..nf])) * Scale(ExponentOf(rest[nf..])))
  }

  function Negate(p: Parsed): Parsed {
    match p
    case NaN => NaN
    case Num(v) => Num(-v)
  }

  /** `Number.parseFloat` on decimal notation: skip leading white space, take an optional
      sign, then the longest decimal prefix; NaN when there is none. */
  function ParseFloat(s: string): Parsed {
    var t := TrimStart(s);
    if t != [] && t[0] == '-' then Negate(UnsignedDecimal(t[1..]))
    else if t != [] && t[0] == '+' then UnsignedDecimal(t[1..])
    else UnsignedDecimal(t)
  }

  lemma UnsignedDigits(s: string)
    requires s != [] && AllDigits(s)
    ensures UnsignedDecimal(s) == Num(DigitsValue(s) as real)
  {
    LeadingDigitsAll(s);
    assert s[..|s|] == s;
    assert s[|s|..] == [];
  }

  /** A non-empty digit string parses to exactly its value. */
  lemma ParseFloatDigits(s: string)
    requires s != [] && AllDigits(s)
    ensures ParseFloat(s) == Num(DigitsValue(s) as real)
  {
    DigitsHaveNoSeparator(s);
    assert TrimStart(s) == s;
    UnsignedDigits(s);
  }

  lemma UnsignedNoDigits(u: string)
    requires forall i :: 0 <= i < |u| ==> !IsDigit(u[i])
    ensures UnsignedDecimal(u) == NaN
  {
    var ni := LeadingDigits(u);
    if ni < |u| && u[ni] == '.' {
      var rest := u[ni + 1..];
      assert rest != [] ==> rest[0] == u[ni + 1];
    }
  }

  /** Text without a single digit is not a number. */
  lemma ParseFloatNoDigits(s: string)
    requires forall i :: 0 <= i < |s| ==> !IsDigit(s[i])
    ensures ParseFloat(s) == NaN
  {
    var t := TrimStart(s);
    assert forall i :: 0 <= i < |t| ==> t[i] == s[|s| - |t| + i];
    if t != [] && (t[0] == '-' || t[0] == '+') {
      var u := t[1..];
      assert forall i :: 0 <= i < |u| ==> u[i] == t[i + 1];
      UnsignedNoDigits(u);
    } else {
      UnsignedNoDigits(t);
    }
  }

  /** A leading minus sign negates the value of a digit string. */
  lemma ParseFloatNegative(s: string)
    requires s != [] && AllDigits(s)
    ensures ParseFloat("-" + s) == Num(-(DigitsValue(s) as real))
  {
    assert TrimStart("-" + s) == "-" + s;
    assert ("-" + s)[1..] == s;
    UnsignedDigits(s);
  }

  /** `sanitizeNumber(value, min, max)`: NaN becomes 0, anything else is clamped with
      `Math.min(max, Math.max(min, parsed))`. */
  function SanitizeNumber(value: string, min: real, max: Limit): (r: real)
    ensures ParseFloat(value) == NaN ==> r == 0.0
    ensures ParseFloat(value).Num? && (max.Unbounded? || min <= max.bound) ==>
      && min <= r
      && (max.AtMost? ==> r <= max.bound)
      && ((min <= ParseFloat(value).value && (max.AtMost? ==> ParseFloat(value).value <= max.bound))
            ==> r == ParseFloat(value).value)
      && (ParseFloat(value).value < min ==> r == min)
      && (max.AtMost? && ParseFloat(value).value > max.bound ==> r == max.bound)
    ensures ParseFloat(value).Num? && max.AtMost? && min > max.bound ==> r == max.bound
  {
    match ParseFloat(value)
    case NaN => 0.0
    case Num(p) =>
      var low := if min > p then min else p;
      match max
      case Unbounded => low
      case AtMost(b) => if b < low then b else low
  }

  /** `Math.floor` of a number already known to be non-negative. */
  function FloorNat(x: real): (n: nat)
    requires x >= 0.0
    ensures n as real <= x < n as real + 1.0
  {
    x.Floor
  }

  /** `Math.round`: the nearest integer, halves rounded up. */
  function Round(x: real): (r: int)
    ensures x - 0.5 < r as real <= x + 0.5
  {
    (x + 0.5).Floor
  }

  /** Text without a digit sanitises to 0, whatever the bounds (so `sanitizeNumber("abc")` is 0). */
  lemma SanitizeNoDigits(value: string, min: real, max: Limit)
    requires forall i :: 0 <= i < |value| ==> !IsDigit(value[i])
    ensures SanitizeNumber(value, min, max) == 0.0
  {
    ParseFloatNoDigits(value);
  }

  /** A negative whole number sanitises to the lower bound 0 (so `sanitizeNumber("-5", 0)` is 0). */
  lemma SanitizeNegative(digits: string)
    requires digits != [] && AllDigits(digits)
    ensures SanitizeNumber("-" + digits, 0.0, Unbounded) == 0.0
  {
    ParseFloatNegative(digits);
  }

  /** A whole number above the upper bound sanitises to the bound (so `sanitizeNumber("12", 0, 10)`
      is 10). */
  lemma SanitizeAboveMax(digits: string, max: real)
    requires digits != [] && AllDigits(digits) && 0.0 <= max < DigitsValue(digits) as real
    ensures SanitizeNumber(digits, 0.0, AtMost(max)) == max
  {
    ParseFloatDigits(digits);
  }
}
