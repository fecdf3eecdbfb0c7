/**
 * The JavaScript values the dashboard handles: the JSON records of the users
 * endpoint and the values of the form, with the few language operations the
 * component applies to them (truthiness, `||`, optional member access and
 * `Number(v) || 0`).
 */
module JsValues {
  import opened Wrappers

  /** A JSON-like JavaScript value. Numbers are integers (see README, Left out). */
  datatype Value =
    | Undefined
    | Null
    | Bool(b: bool)
    | Num(n: int)
    | Str(s: string)
    | Obj(fields: map<string, Value>)

  /**
   * A plain object by its own properties. An absent key reads as `undefined`,
   * and the spread `{...a, ...b}` is the right-biased union `a + b`.
   */
  type Record = map<string, Value>

  /** `r[key]` on a plain object. */
  function Get(r: Record, key: string): Value {
    if key in r then r[key] else Undefined
  }

  /** `{...base, ...over}`: every property of `over` wins, the rest of `base` is kept. */
  function Spread(base: Record, over: Record): (r: Record)
    ensures r.Keys == base.Keys + over.Keys
    ensures forall k | k in over :: r[k] == over[k]
    ensures forall k | k in base && k !in over :: r[k] == base[k]
  {
    base + over
  }

  /** `v?.key`: undefined on `undefined` and `null`, and on primitives, which have no own `name`-like property. */
  function OptionalMember(v: Value, key: string): Value {
    match v
    case Obj(fields) => Get(fields, key)
    case _ => Undefined
  }

  /** JavaScript truthiness. */
  predicate Truthy(v: Value) {
    match v
    case Undefined => false
    case Null => false
    case Bool(b) => b
    case Num(n) => n != 0
    case Str(s) => s != ""
    case Obj(_) => true
  }

  /** `a || b` */
  function Or(a: Value, b: Value): Value {
    if Truthy(a) then a else b
  }

  // ---------------------------------------------------------------------------
  // `Number(v) || 0`
  // ---------------------------------------------------------------------------

  /** The characters `Number(string)` strips from both ends (StrWhiteSpaceChar). */
  predicate IsJsWhite(c: char) {
    c == '\t' || c == '\n' || c == '\U{000B}' || c == '\U{000C}' || c == '\r' || c == ' '
    || c == '\U{00A0}' || c == '\U{1680}' || ('\U{2000}' <= c <= '\U{200A}')
    || c == '\U{2028}' || c == '\U{2029}' || c == '\U{202F}' || c == '\U{205F}'
    || c == '\U{3000}' || c == '\U{FEFF}'
  }

  function TrimStart(s: string): string {
    if s != [] && IsJsWhite(s[0]) then TrimStart(s[1..]) else s
  }

  function TrimEnd(s: string): string {
    if s != [] && IsJsWhite(s[|s| - 1]) then TrimEnd(s[..|s| - 1]) else s
  }

  function Trim(s: string): string {
    TrimEnd(TrimStart(s))
  }

  /** A string made only of white space trims to the empty string. */
  lemma {:induction false} TrimBlank(s: string)
    ensures (forall i | 0 <= i < |s| :: IsJsWhite(s[i])) ==> Trim(s) == []
  {
    if s != [] && forall i | 0 <= i < |s| :: IsJsWhite(s[i]) {
      assert IsJsWhite(s[0]);
      TrimBlank(s[1..]);
    }
  }

  /** Trimming the end of a string that starts with a non-white character keeps that character first. */
  lemma {:induction false} TrimEndKeepsHead(s: string)
    requires s != [] && !IsJsWhite(s[0])
    ensures TrimEnd(s) != [] && TrimEnd(s)[0] == s[0]
  {
    if IsJsWhite(s[|s| - 1]) {
      assert |s| > 1;
      TrimEndKeepsHead(s[..|s| - 1]);
    }
  }

  predicate IsDigit(c: char) {
    '0' <= c <= '9'
  }

  predicate IsDigits(s: string) {
    |s| > 0 && forall i | 0 <= i < |s| :: IsDigit(s[i])
  }

  /** The value of a string of decimal digits, most significant first. */
  function DigitsValue(s: string): nat
    requires forall i | 0 <= i < |s| :: IsDigit(s[i])
  {
    if s == [] then 0
    else
      assert IsDigit(s[|s| - 1]);
      DigitsValue(s[..|s| - 1]) * 10 + (s[|s| - 1] as int - '0' as int)
  }

  /**
   * `Number(s)` for a string: white space around it is ignored, the empty
   * string is 0, an optionally signed run of decimal digits is its value.
   * None is NaN (and the notations this model does not read).
   */
  function StringToInt(s: string): (r: Option<int>)
    ensures (forall i | 0 <= i < |s| :: IsJsWhite(s[i])) ==> r == Some(0)
    ensures IsDigits(s) ==> r == Some(DigitsValue(s))
  {
    TrimBlank(s);
    if IsDigits(s) then
      assert IsDigit(s[0]) && IsDigit(s[|s| - 1]);
      TrimUnpadded(s);
      Some(DigitsValue(s))
    else
    var t := Trim(s);
    if t == [] then Some(0)
    else if t[0] == '-' && IsDigits(t[1..]) then Some(0 - DigitsValue(t[1..]))
    else if t[0] == '+' && IsDigits(t[1..]) then Some(DigitsValue(t[1..]))
    else if IsDigits(t) then Some(DigitsValue(t))
    else None
  }

  /**
   * `Number(v) || 0`: NaN, like 0, falls back to 0. Every falsy value counts
   * as 0, a number as itself, a run of decimal digits as its value.
   */
  function NumberOrZero(v: Value): (r: int)
    ensures !Truthy(v) ==> r == 0
    ensures v.Num? ==> r == v.n
    ensures v.Str? && IsDigits(v.s) ==> r == DigitsValue(v.s)
  {
    match v
    case Undefined => 0
    case Null => 0
    case Bool(b) => if b then 1 else 0
    case Num(n) => n
    case Str(s) => (match StringToInt(s) case Some(n) => n case None => 0)
    case Obj(_) => 0
  }

  /** A string that starts with neither white space, a sign nor a digit is NaN, so it counts as 0. */
  lemma NonNumericString(s: string)
    requires s != [] && !IsJsWhite(s[0])
    requires s[0] != '-' && s[0] != '+' && !IsDigit(s[0])
    ensures StringToInt(s) == None && NumberOrZero(Str(s)) == 0
  {
    assert TrimStart(s) == s;
    TrimEndKeepsHead(s);
  }

  // ---------------------------------------------------------------------------
  // `String(n)`, the partner of `Number(s)` on integers
  // ---------------------------------------------------------------------------

  function DigitChar(d: nat): char
    requires d < 10
  {
    ('0' as int + d) as char
  }

  /** The decimal digits of `n`, without leading zeros. */
  function DecimalString(n: nat): (s: string)
    ensures IsDigits(s)
  {
    if n < 10 then [DigitChar(n)] else DecimalString(n / 10) + [DigitChar(n % 10)]
  }

  /** `String(n)` for an integer. */
  function IntToString(n: int): (s: string)
    ensures s != [] && (s[0] == '-' || IsDigit(s[0])) && IsDigit(s[|s| - 1])
  {
    if n < 0 then "-" + DecimalString(-n) else DecimalString(n)
  }

  lemma {:induction false} DecimalStringValue(n: nat)
    ensures DigitsValue(DecimalString(n)) == n
  {
    if n >= 10 {
      var s := DecimalString(n);
      assert s[..|s| - 1] == DecimalString(n / 10);
      DecimalStringValue(n / 10);
    }
  }

  /** A string that neither starts nor ends with white space is its own trim. */
  lemma TrimUnpadded(s: string)
    requires s != [] && !IsJsWhite(s[0]) && !IsJsWhite(s[|s| - 1])
    ensures Trim(s) == s
  {
  }

  /** A minus sign followed by a run of decimal digits reads as the negated value. */
  lemma NegatedDigitsValue(ds: string)
    requires IsDigits(ds)
    ensures StringToInt("-" + ds) == Some(0 - DigitsValue(ds))
    ensures NumberOrZero(Str("-" + ds)) == 0 - DigitsValue(ds)
  {
    var s := "-" + ds;
    assert IsDigit(ds[|ds| - 1]) && s[|s| - 1] == ds[|ds| - 1];
    TrimUnpadded(s);
    assert s[1..] == ds;
  }

  /** Reading back the decimal form of an integer gives the integer: `Number(String(n)) || 0 == n`. */
  lemma NumberOfIntString(n: int)
    ensures NumberOrZero(Str(IntToString(n))) == n
  {
    if n < 0 {
      var ds := DecimalString(-n);
      DecimalStringValue(-n);
      NegatedDigitsValue(ds);
      assert IntToString(n) == "-" + ds;
    } else {
      var ds := DecimalString(n);
      DecimalStringValue(n);
      assert IntToString(n) == ds;
    }
  }
}
