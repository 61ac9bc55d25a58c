/**
 * The JavaScript values a decoded spreadsheet cell can hold, and the few
 * JavaScript operations the trade pipeline applies to them: truthiness,
 * `Number(...)`, `+` on numbers, `Array.prototype.indexOf`, reading past the
 * end of an array, `|| ""` and template-string interpolation.
 */
module JsValues {
  import opened Digits

  /** A cell value: `undefined`, `null`, or a JSON string, number or boolean. */
  datatype Cell = Undefined | Null | Str(s: string) | Num(x: real) | Bool(b: bool)

  /** A JavaScript number as the pipeline can produce it: finite, or NaN. */
  datatype Number = Finite(value: real) | NaN

  /** JavaScript truthiness (a decoded JSON value is never NaN). */
  predicate Truthy(c: Cell) {
    match c
    case Undefined => false
    case Null => false
    case Str(s) => s != ""
    case Num(x) => x != 0.0
    case Bool(b) => b
  }

  /** `a + b` on numbers: NaN is absorbing. */
  function Plus(a: Number, b: Number): Number {
    if a.Finite? && b.Finite? then Finite(a.value + b.value) else NaN
  }

  function IndexFrom(xs: seq<string>, x: string, i: nat): (r: int)
    requires i <= |xs|
    ensures r == -1 <==> forall j :: i <= j < |xs| ==> xs[j] != x
    ensures r != -1 ==> i <= r < |xs| && xs[r] == x && forall j :: i <= j < r ==> xs[j] != x
    decreases |xs| - i
  {
    if i == |xs| then -1 else if xs[i] == x then i else IndexFrom(xs, x, i + 1)
  }

  /** `xs.indexOf(x)`: the first position holding x, or -1. */
  function IndexOf(xs: seq<string>, x: string): (r: int)
    ensures r == -1 <==> x !in xs
    ensures r != -1 ==> 0 <= r < |xs| && xs[r] == x && forall j :: 0 <= j < r ==> xs[j] != x
  {
    var r := IndexFrom(xs, x, 0);
    assert r == -1 ==> forall j :: 0 <= j < |xs| ==> xs[j] != x;
    r
  }

  /** `data[i]`: out of range (including i == -1) reads `undefined`. */
  function At(data: seq<Cell>, i: int): Cell {
    if 0 <= i < |data| then data[i] else Undefined
  }

  /** `c || ""`. */
  function OrEmpty(c: Cell): Cell {
    if Truthy(c) then c else Str("")
  }

  /** JavaScript's StrWhiteSpaceChar: white space and line terminators. */
  predicate IsSpace(c: char) {
    c == '\t' || c == '\n' || c == '\U{000B}' || c == '\U{000C}' || c == '\r' || c == ' '
    || c == '\U{00A0}' || c == '\U{1680}' || ('\U{2000}' <= c <= '\U{200A}')
    || c == '\U{2028}' || c == '\U{2029}' || c == '\U{202F}' || c == '\U{205F}'
    || c == '\U{3000}' || c == '\U{FEFF}'
  }

  function TrimStart(s: string): string {
    if s != [] && IsSpace(s[0]) then TrimStart(s[1..]) else s
  }

  function TrimEnd(s: string): string {
    if s != [] && IsSpace(s[|s| - 1]) then TrimEnd(s[..|s| - 1]) else s
  }

  function Pow10(n: nat): (r: real)
    ensures r >= 1.0
  {
    if n == 0 then 1.0 else 10.0 * Pow10(n - 1)
  }

  /** An unsigned decimal literal: digits, optionally a point and more digits, at least one digit in all. */
  function UnsignedDecimal(t: string): Number {
    var k := DigitRunEnd(t, 0);
    var whole := DecimalValue(t[..k]) as real;
    if k == |t| then (if k > 0 then Finite(whole) else NaN)
    else if t[k] != '.' then NaN
    else
      var frac := t[k + 1..];
      if !AllDigits(frac) || (k == 0 && frac == []) then NaN
      else Finite(whole + DecimalValue(frac) as real / Pow10(|frac|))
  }

  function Negate(n: Number): Number {
    if n.Finite? then Finite(-n.value) else NaN
  }

  /** `Number(s)` for a string: surrounding white space ignored, empty means 0, an optional sign. */
  function StringToNumber(s: string): Number {
    var t := TrimEnd(TrimStart(s));
    if t == [] then Finite(0.0)
    else if t[0] == '-' then Negate(UnsignedDecimal(t[1..]))
    else if t[0] == '+' then UnsignedDecimal(t[1..])
    else UnsignedDecimal(t)
  }

  /** `Number(c)`. */
  function ToNumber(c: Cell): Number {
    match c
    case Undefined => NaN
    case Null => Finite(0.0)
    case Bool(b) => Finite(if b then 1.0 else 0.0)
    case Num(x) => Finite(x)
    case Str(s) => StringToNumber(s)
  }

  /** `${c}` in a template string; numbers are rendered by the engine's number formatting, given as a parameter. */
  function TemplateText(c: Cell, numberText: real -> string): string {
    match c
    case Undefined => "undefined"
    case Null => "null"
    case Str(s) => s
    case Num(x) => numberText(x)
    case Bool(b) => if b then "true" else "false"
  }

  /** A run of decimal digits, such as a regex capture of `\d+`, converts to the number it denotes, leading zeros included. */
  lemma NumberOfDigits(s: string)
    requires |s| > 0 && AllDigits(s)
    ensures ToNumber(Str(s)) == Finite(DecimalValue(s) as real)
  {
    assert !IsSpace(s[0]) && !IsSpace(s[|s| - 1]);
    assert TrimEnd(TrimStart(s)) == s;
    assert s[0] != '-' && s[0] != '+';
    DigitRunWhole(s, 0);
    assert s[..|s|] == s;
  }
}
