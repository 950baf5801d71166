/** The global functions parseFloat and parseInt (sections 19.2.4 and 19.2.5
    of ECMA-262) on text, and on a cell through its text form. Values are
    exact: rounding to binary64 is not modelled. */
module JsParse {
  import opened JsValues

  /** The text after leading whitespace and an optional sign, and whether the
      sign was a minus. */
  function Unsigned(s: string): (r: (bool, string))
    ensures |r.1| <= |s|
  {
    var t := s[LeadingSpaces(s)..];
    if |t| > 0 && (t[0] == '-' || t[0] == '+') then (t[0] == '-', t[1..]) else (false, t)
  }

  function Scale(m: real, exp: int): real
  {
    if exp >= 0 then m * Pow10(exp) as real else m / Pow10(-exp) as real
  }

  /** The exponent of a decimal literal's ExponentPart at the start of `r`,
      or 0 when `r` does not start with one. */
  function ExponentOf(r: string): int
  {
    if |r| >= 2 && (r[0] == 'e' || r[0] == 'E') then
      var signed := r[1] == '+' || r[1] == '-';
      var ds := if signed then r[2..] else r[1..];
      var q := RadixRun(ds, 10);
      if q == 0 then 0
      else if signed && r[1] == '-' then -(DecimalValue(ds[..q]) as int)
      else DecimalValue(ds[..q])
    else 0
  }

  /** The mathematical value of a decimal literal whose digits, with the
      point removed, are `digits`, of which the last `fraction` follow the
      point, and whose exponent is `exp`. */
  function LiteralValue(digits: string, fraction: nat, exp: int): real
    requires AllDigits(digits)
  {
    Scale(DecimalValue(digits) as real, exp - fraction)
  }

  /** Whether the unsigned text begins a StrDecimalLiteral: a digit, a point
      followed by a digit, or the word Infinity. */
  predicate BeginsDecimal(u: string)
  {
    || (|u| >= 1 && IsDigit(u[0]))
    || (|u| >= 2 && u[0] == '.' && IsDigit(u[1]))
    || (|u| >= 8 && u[..8] == "Infinity")
  }

  /** The value of the longest decimal literal, without sign, at the start
      of `u`: digits, an optional point and fraction, an optional exponent;
      NaN when `u` starts with neither a digit nor a point and a digit. */
  function UnsignedDecimal(u: string): (r: JsNumber)
    ensures r.Finite? || r.NaN?
    ensures r.NaN? <==> !((|u| >= 1 && IsDigit(u[0])) || (|u| >= 2 && u[0] == '.' && IsDigit(u[1])))
  {
    var p := RadixRun(u, 10);
    var rest := u[p..];
    var dot := |rest| > 0 && rest[0] == '.';
    var f := if dot then RadixRun(rest[1..], 10) else 0;
    if p == 0 && f == 0 then NaN
    else
      var digits := u[..p] + (if dot then rest[1..1 + f] else []);
      var after := if dot then rest[1 + f..] else rest;
      Finite(LiteralValue(digits, f, ExponentOf(after)))
  }

  /** parseFloat on text: the longest prefix, after whitespace, that is a
      decimal literal with optional sign, fraction and exponent, or the word
      Infinity; NaN when there is none. */
  function ParseFloatText(s: string): (r: JsNumber)
    ensures r.NaN? <==> !BeginsDecimal(Unsigned(s).1)
    ensures r.PosInf? || r.NegInf? <==> |Unsigned(s).1| >= 8 && Unsigned(s).1[..8] == "Infinity"
  {
    var (neg, u) := Unsigned(s);
    if |u| >= 8 && u[..8] == "Infinity" then (if neg then NegInf else PosInf)
    else
      match UnsignedDecimal(u)
      case Finite(m) => Finite(if neg then -m else m)
      case _ => NaN
  }

  /** Whether the unsigned text begins an integer in the radix parseInt picks
      for it: hexadecimal after a `0x` or `0X` prefix, decimal otherwise. */
  predicate BeginsInteger(u: string)
  {
    if |u| >= 2 && u[0] == '0' && (u[1] == 'x' || u[1] == 'X') then |u| >= 3 && DigitValue(u[2]) < 16
    else |u| >= 1 && IsDigit(u[0])
  }

  /** parseInt on text with no radix argument: the longest run of digits
      after whitespace, a sign and an optional `0x` prefix; NaN when the run
      is empty. */
  function ParseIntText(s: string): (r: JsNumber)
    ensures r.NaN? <==> !BeginsInteger(Unsigned(s).1)
    ensures r.Finite? || r.NaN?
    ensures r.Finite? ==> r.v == r.v.Floor as real
  {
    var (neg, u) := Unsigned(s);
    var hex := |u| >= 2 && u[0] == '0' && (u[1] == 'x' || u[1] == 'X');
    var radix := if hex then 16 else 10;
    var w := if hex then u[2..] else u;
    var q := RadixRun(w, radix);
    if q == 0 then NaN
    else
      var magnitude: int := RadixValue(w[..q], radix);
      Finite((if neg then -magnitude else magnitude) as real)
  }

  /** parseFloat applied to a cell: JavaScript first converts it to text. */
  function ParseFloat(c: Cell): JsNumber
  {
    ParseFloatText(ToText(c))
  }

  /** parseInt applied to a cell: JavaScript first converts it to text. */
  function ParseInt(c: Cell): JsNumber
  {
    ParseIntText(ToText(c))
  }

  /** The text "0" parses as zero either way. */
  lemma ZeroTextParses()
    ensures ParseFloatText("0") == Finite(0.0)
    ensures ParseIntText("0") == Finite(0.0)
  {
    assert LeadingSpaces("0") == 0;
    assert Unsigned("0") == (false, "0");
    assert RadixRun("0", 10) == 1;
    assert "0"[..1] == "0";
    assert RadixValue("0", 10) == 0;
    assert "0"[1..] == [];
  }
}
