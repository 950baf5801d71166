/** JavaScript values as they reach the leaderboard's row mapping: the cells a
    CSV reader with dynamic typing produces, JavaScript truthiness, whitespace
    trimming, and the conversion of a number to its text form. */
module JsValues {

  /** A finite decimal number, `mantissa / 10^scale`: the exact value of a
      numeric CSV field. */
  datatype Decimal = Decimal(mantissa: int, scale: nat)

  /** One field of a parsed CSV row, as typed by the reader: text, a number,
      a boolean, or null for an empty field. */
  datatype Cell = Str(text: string) | Num(num: Decimal) | Bool(flag: bool) | Null

  /** A JavaScript number as produced by parseFloat, parseInt and
      subtraction: a finite value, an infinity, or NaN. */
  datatype JsNumber = Finite(v: real) | PosInf | NegInf | NaN

  function Pow10(n: nat): (p: nat)
    ensures p >= 1
  {
    if n == 0 then 1 else 10 * Pow10(n - 1)
  }

  function Abs(x: int): nat
  {
    if x < 0 then -x else x
  }

  function ValueOf(d: Decimal): real
  {
    d.mantissa as real / Pow10(d.scale) as real
  }

  /** JavaScript truthiness of a cell: empty text, zero, false and null are
      falsy. A key missing from a row (undefined) is falsy as well. */
  predicate Truthy(c: Cell)
  {
    match c
    case Str(s) => s != []
    case Num(d) => d.mantissa != 0
    case Bool(b) => b
    case Null => false
  }

  lemma TruthyNumberIsNonZero(d: Decimal)
    ensures Truthy(Num(d)) <==> ValueOf(d) != 0.0
  {
    var p := Pow10(d.scale) as real;
    assert ValueOf(d) * p == d.mantissa as real;
  }

  // ---------------------------------------------------------------------
  // Whitespace and trimming
  // ---------------------------------------------------------------------

  /** The characters JavaScript's `trim` removes and that parseFloat and
      parseInt skip: WhiteSpace and LineTerminator of ECMA-262. */
  predicate IsSpace(ch: char)
  {
    || ch == '\t' || ch == '\n' || ch == '\U{000B}' || ch == '\U{000C}'
    || ch == '\r' || ch == ' ' || ch == '\U{00A0}' || ch == '\U{1680}'
    || ('\U{2000}' <= ch <= '\U{200A}')
    || ch == '\U{2028}' || ch == '\U{2029}' || ch == '\U{202F}'
    || ch == '\U{205F}' || ch == '\U{3000}' || ch == '\U{FEFF}'
  }

  predicate AllSpace(s: string)
  {
    forall k :: 0 <= k < |s| ==> IsSpace(s[k])
  }

  /** The number of whitespace characters that begin `s`. */
  function LeadingSpaces(s: string): (n: nat)
    ensures n <= |s|
    ensures forall k :: 0 <= k < n ==> IsSpace(s[k])
    ensures n < |s| ==> !IsSpace(s[n])
  {
    if s == [] || !IsSpace(s[0]) then 0 else 1 + LeadingSpaces(s[1..])
  }

  /** The number of whitespace characters that end `s`. */
  function TrailingSpaces(s: string): (n: nat)
    ensures n <= |s|
    ensures forall k :: |s| - n <= k < |s| ==> IsSpace(s[k])
    ensures n < |s| ==> !IsSpace(s[|s| - n - 1])
  {
    if s == [] || !IsSpace(s[|s| - 1]) then 0 else 1 + TrailingSpaces(s[..|s| - 1])
  }

  /** `String.prototype.trim`: the text without its leading and trailing
      whitespace. */
  function Trim(s: string): (r: string)
    ensures r == [] <==> AllSpace(s)
    ensures r != [] ==> !IsSpace(r[0]) && !IsSpace(r[|r| - 1])
  {
    var a := LeadingSpaces(s);
    var t := s[a..];
    var b := TrailingSpaces(t);
    var r := t[..|t| - b];
    TrimEnds(s, a, t, b, r);
    TrimBlank(s, a, t, b, r);
    r
  }

  /** Trimming removes only whitespace, and only at the two ends: the
      result is a slice of the text with nothing but whitespace on either
      side of it. */
  lemma TrimIsMiddle(s: string)
    ensures exists i :: 0 <= i <= |s| - |Trim(s)| && s[i..i + |Trim(s)|] == Trim(s)
                        && AllSpace(s[..i]) && AllSpace(s[i + |Trim(s)|..])
  {
    var a := LeadingSpaces(s);
    var t := s[a..];
    var b := TrailingSpaces(t);
    TrimWitness(s, a, t, b, t[..|t| - b]);
  }

  /** The trimmed text sits between a run of spaces at each end. */
  lemma TrimWitness(s: string, a: nat, t: string, b: nat, r: string)
    requires a == LeadingSpaces(s) && t == s[a..] && b == TrailingSpaces(t) && r == t[..|t| - b]
    ensures a + |r| <= |s| && s[a..a + |r|] == r && AllSpace(s[..a]) && AllSpace(s[a + |r|..])
  {
    var head := s[..a];
    forall k | 0 <= k < |head| ensures IsSpace(head[k]) {
      assert head[k] == s[k];
    }
    var tail := s[a + |r|..];
    forall k | 0 <= k < |tail| ensures IsSpace(tail[k]) {
      assert tail[k] == t[|t| - b + k];
    }
    assert s[a..a + |r|] == r;
  }

  lemma TrimEnds(s: string, a: nat, t: string, b: nat, r: string)
    requires a == LeadingSpaces(s) && t == s[a..] && b == TrailingSpaces(t) && r == t[..|t| - b]
    ensures r != [] ==> !IsSpace(r[0]) && !IsSpace(r[|r| - 1])
  {
    if r != [] {
      assert r[0] == s[a];
      assert r[|r| - 1] == t[|t| - b - 1];
    }
  }

  lemma TrimBlank(s: string, a: nat, t: string, b: nat, r: string)
    requires a == LeadingSpaces(s) && t == s[a..] && b == TrailingSpaces(t) && r == t[..|t| - b]
    ensures r == [] <==> AllSpace(s)
  {
    if r == [] {
      assert t[|t| - b..] == t;
      SpacesAround(s, a);
    }
  }

  lemma SpacesAround(s: string, a: nat)
    requires a <= |s|
    ensures AllSpace(s[..a]) && AllSpace(s[a..]) ==> AllSpace(s)
  {
    if AllSpace(s[..a]) && AllSpace(s[a..]) {
      forall k | 0 <= k < |s| ensures IsSpace(s[k]) {
        if k < a {
          assert s[..a][k] == s[k];
        } else {
          assert s[a..][k - a] == s[k];
        }
      }
    }
  }

  /** Text that neither begins nor ends with whitespace is left as it is. */
  lemma {:induction false} TrimKeeps(s: string)
    requires s == [] || (!IsSpace(s[0]) && !IsSpace(s[|s| - 1]))
    ensures Trim(s) == s
  {
    if s != [] {
      assert LeadingSpaces(s) == 0;
      assert s[0..] == s;
      assert TrailingSpaces(s) == 0;
    }
  }

  /** Trimming twice is trimming once. */
  lemma TrimIsIdempotent(s: string)
    ensures Trim(Trim(s)) == Trim(s)
  {
    TrimKeeps(Trim(s));
  }

  // ---------------------------------------------------------------------
  // Digits
  // ---------------------------------------------------------------------

  /** The value of a character as a digit of any radix up to 36, as parseInt
      reads it: `0`-`9`, then `a`-`z` or `A`-`Z`; 36 for anything else. */
  function DigitValue(ch: char): (d: nat)
    ensures d <= 36
    ensures d < 10 <==> '0' <= ch <= '9'
  {
    if '0' <= ch <= '9' then (ch as int - '0' as int)
    else if 'a' <= ch <= 'z' then (ch as int - 'a' as int) + 10
    else if 'A' <= ch <= 'Z' then (ch as int - 'A' as int) + 10
    else 36
  }

  predicate IsDigit(ch: char)
  {
    '0' <= ch <= '9'
  }

  predicate AllDigits(s: string)
  {
    forall k :: 0 <= k < |s| ==> IsDigit(s[k])
  }

  function DigitChar(d: nat): (ch: char)
    requires d < 10
    ensures IsDigit(ch) && DigitValue(ch) == d
  {
    (('0' as int) + d) as char
  }

  /** The value of a run of radix digits, most significant first. */
  function RadixValue(s: string, radix: nat): nat
    requires forall k :: 0 <= k < |s| ==> DigitValue(s[k]) < radix
  {
    if s == [] then 0
    else
      var init := s[..|s| - 1];
      InitDigits(s, init, radix);
      RadixValue(init, radix) * radix + DigitValue(s[|s| - 1])
  }

  /** Dropping the last character of a run of radix digits leaves one. */
  lemma InitDigits(s: string, init: string, radix: nat)
    requires s != [] && init == s[..|s| - 1]
    requires forall k :: 0 <= k < |s| ==> DigitValue(s[k]) < radix
    ensures forall k :: 0 <= k < |init| ==> DigitValue(init[k]) < radix
  {
    forall k | 0 <= k < |init| ensures DigitValue(init[k]) < radix {
      assert init[k] == s[k];
    }
  }

  /** The value of a run of decimal digits. */
  function DecimalValue(s: string): nat
    requires AllDigits(s)
  {
    RadixValue(s, 10)
  }

  /** The length of the longest prefix of `s` made of radix digits. */
  function RadixRun(s: string, radix: nat): (n: nat)
    ensures n <= |s|
    ensures forall k :: 0 <= k < n ==> DigitValue(s[k]) < radix
    ensures n < |s| ==> DigitValue(s[n]) >= radix
  {
    if s == [] || DigitValue(s[0]) >= radix then 0 else 1 + RadixRun(s[1..], radix)
  }

  /** The decimal digits of `n`, most significant first, without leading
      zeros. */
  function DigitsOf(n: nat): (ds: string)
    ensures |ds| >= 1 && AllDigits(ds)
    ensures |ds| > 1 ==> ds[0] != '0'
    ensures DecimalValue(ds) == n
  {
    if n < 10 then
      var ds := [DigitChar(n)];
      assert ds[..0] == [];
      assert RadixValue(ds, 10) == RadixValue(ds[..0], 10) * 10 + DigitValue(ds[0]);
      ds
    else
      var hi := DigitsOf(n / 10);
      var ds := hi + [DigitChar(n % 10)];
      assert ds[..|ds| - 1] == hi;
      assert DecimalValue(ds) == DecimalValue(hi) * 10 + n % 10;
      ds
  }

  function Zeros(n: nat): (z: string)
    ensures |z| == n && AllDigits(z)
    ensures forall k :: 0 <= k < n ==> z[k] == '0'
  {
    if n == 0 then [] else Zeros(n - 1) + ['0']
  }

  // ---------------------------------------------------------------------
  // Number to text
  // ---------------------------------------------------------------------

  /** Splits a positive number into `digits * 10^zeros` with `digits` not a
      multiple of ten. */
  function StripZeros(a: nat): (r: (nat, nat))
    requires a > 0
    ensures r.0 > 0 && r.0 % 10 != 0
    ensures r.0 * Pow10(r.1) == a
  {
    if a % 10 != 0 then (a, 0)
    else
      var inner := StripZeros(a / 10);
      assert inner.0 * Pow10(inner.1 + 1) == (inner.0 * Pow10(inner.1)) * 10;
      (inner.0, inner.1 + 1)
  }

  /** The characters a number's text form can contain. */
  predicate IsNumberChar(ch: char)
  {
    IsDigit(ch) || ch == '-' || ch == '+' || ch == '.' || ch == 'e'
  }

  predicate AllNumberChars(s: string)
  {
    forall k :: 0 <= k < |s| ==> IsNumberChar(s[k])
  }

  /** Number::toString (section 6.1.6.1.20 of ECMA-262) for the positive
      value `DecimalValue(ds) * 10^e`, where `ds` are its shortest digits:
      plain digits, a decimal point, a leading "0." or exponent notation,
      depending on where the point falls. */
  function DigitLayout(ds: string, e: int): (s: string)
    requires |ds| >= 1 && AllDigits(ds)
    ensures |s| >= 1 && AllNumberChars(s) && IsDigit(s[0])
  {
    var k := |ds|;
    var n := k + e;
    if k <= n <= 21 then ds + Zeros(n - k)
    else if 0 < n <= 21 then ds[..n] + "." + ds[n..]
    else if -6 < n <= 0 then "0." + Zeros(-n) + ds
    else
      var exp := ExponentText(n - 1);
      if k == 1 then ds + "e" + exp else ds[..1] + "." + ds[1..] + "e" + exp
  }

  /** The signed exponent Number::toString writes after the "e". */
  function ExponentText(x: int): (s: string)
    ensures |s| >= 2 && AllNumberChars(s)
  {
    (if x >= 0 then "+" else "-") + DigitsOf(Abs(x))
  }

  /** The text of the positive value `a / 10^scale`. */
  function MagnitudeToString(a: nat, scale: nat): (s: string)
    requires a > 0
    ensures |s| >= 1 && AllNumberChars(s) && IsDigit(s[0])
  {
    var (d, t) := StripZeros(a);
    DigitLayout(DigitsOf(d), t - scale)
  }

  /** The text JavaScript gives a number cell when it is converted to a
      string. */
  function NumberToString(d: Decimal): (s: string)
    ensures |s| >= 1 && AllNumberChars(s)
    ensures forall k :: 0 <= k < |s| ==> !IsSpace(s[k])
  {
    if d.mantissa == 0 then "0"
    else (if d.mantissa < 0 then "-" else "") + MagnitudeToString(Abs(d.mantissa), d.scale)
  }

  /** JavaScript's ToString of a cell, as `.toString()`, parseFloat and
      parseInt apply it. */
  function ToText(c: Cell): string
  {
    match c
    case Str(s) => s
    case Num(d) => NumberToString(d)
    case Bool(b) => if b then "true" else "false"
    case Null => "null"
  }

  /** A truthy cell that is not text always has non-blank text. */
  lemma {:induction false} NonTextCellHasText(c: Cell)
    requires Truthy(c) && !c.Str?
    ensures Trim(ToText(c)) == ToText(c) && ToText(c) != []
  {
    match c
    case Num(d) => TrimKeeps(NumberToString(d));
    case Bool(b) => TrimKeeps("true");
  }
}
