/**
 * The slice of PHP's dynamic value semantics that the queue relies on:
 * truthiness (the `if ($id)` tests of the job record), `is_int` / `is_numeric`
 * and the `(int)` cast applied to worker slot ids, the decimal rendering of an
 * int (string concatenation, and an int bound to a TEXT column), and
 * `stripslashes`, which the dispatcher applies to stored JSON.
 */
module PhpValues {

  /** A PHP value as it travels through the queue. Floats are not modelled. */
  datatype Value =
    | Null
    | Bool(b: bool)
    | Int(i: int)
    | Str(s: string)
    | Arr(elems: seq<Value>)               // a PHP array; only whether it is empty matters here
    | Obj(members: seq<(string, Value)>)   // a stdClass object, as json_decode builds for a JSON object

  /** PHP's conversion to bool. */
  predicate Truthy(v: Value) {
    match v
    case Null => false
    case Bool(b) => b
    case Int(i) => i != 0
    case Str(s) => s != "" && s != "0"
    case Arr(e) => |e| > 0
    case Obj(_) => true
  }

  /** The falsy values, listed: null, false, 0, "", "0" and the empty array. Objects are never falsy. */
  lemma FalsyValues(v: Value)
    ensures !Truthy(v) <==> v == Null || v == Bool(false) || v == Int(0) || v == Str("") || v == Str("0") || v == Arr([])
  {
    if v.Arr? && |v.elems| == 0 {
      assert v.elems == [];
    }
  }

  predicate IsDigit(c: char) {
    '0' <= c <= '9'
  }

  predicate AllDigits(s: string) {
    forall i :: 0 <= i < |s| ==> IsDigit(s[i])
  }

  function DigitChar(d: int): (c: char)
    requires 0 <= d < 10
    ensures IsDigit(c)
  {
    ('0' as int + d) as char
  }

  function DigitValue(c: char): (d: nat)
    requires IsDigit(c)
    ensures d < 10
  {
    c as int - '0' as int
  }

  /** The decimal digits of `n`, most significant first, with no leading zero. */
  function NatToDecimal(n: nat): (s: string)
    ensures |s| >= 1 && AllDigits(s)
    ensures |s| == 1 <==> n < 10
    ensures s[0] == '0' ==> n == 0
    decreases n
  {
    if n < 10 then [DigitChar(n)] else NatToDecimal(n / 10) + [DigitChar(n % 10)]
  }

  /** PHP's rendering of an int as a string: an optional minus sign, then the decimal digits. */
  function IntToDecimal(i: int): (s: string)
    ensures |s| >= 1
    ensures s[0] == '-' <==> i < 0
  {
    if i < 0 then "-" + NatToDecimal(-i) else NatToDecimal(i)
  }

  /** The number a string of decimal digits denotes (the empty string denotes 0). */
  function DigitsValue(s: string): nat
    requires AllDigits(s)
  {
    if s == [] then 0 else DigitsValue(s[..|s| - 1]) * 10 + DigitValue(s[|s| - 1])
  }

  /** The longest prefix of `s` made of digits. */
  function DigitPrefix(s: string): (p: string)
    ensures p <= s && AllDigits(p)
    ensures |p| < |s| ==> !IsDigit(s[|p|])
  {
    if s != [] && IsDigit(s[0]) then [s[0]] + DigitPrefix(s[1..]) else []
  }

  /**
   * PHP's `(int)` cast of a string: an optional sign followed by the leading
   * digits; a string that does not start with a digit converts to 0.
   */
  function StringToInt(s: string): int
  {
    if |s| > 0 && s[0] == '-' then -(DigitsValue(DigitPrefix(s[1..])) as int)
    else if |s| > 0 && s[0] == '+' then DigitsValue(DigitPrefix(s[1..]))
    else DigitsValue(DigitPrefix(s))
  }

  /** PHP's `(int)` cast. */
  function ToInt(v: Value): int {
    match v
    case Null => 0
    case Bool(b) => if b then 1 else 0
    case Int(i) => i
    case Str(s) => StringToInt(s)
    case Arr(e) => if |e| == 0 then 0 else 1
    case Obj(_) => 1
  }

  /** A string `is_numeric` accepts, restricted to an optional sign followed by at least one digit. */
  predicate IsIntegerString(s: string) {
    var digits := if |s| > 0 && (s[0] == '-' || s[0] == '+') then s[1..] else s;
    |digits| > 0 && AllDigits(digits)
  }

  /** PHP's `is_numeric`, for ints and integer strings. */
  predicate IsNumeric(v: Value) {
    v.Int? || (v.Str? && IsIntegerString(v.s))
  }

  lemma {:induction false} DigitPrefixOfDigits(s: string)
    requires AllDigits(s)
    ensures DigitPrefix(s) == s
  {
    if s != [] {
      DigitPrefixOfDigits(s[1..]);
    }
  }

  /** Reading back the digits of `n` gives `n`. */
  lemma {:induction false} DigitsOfNat(n: nat)
    ensures DigitsValue(NatToDecimal(n)) == n
    decreases n
  {
    if n >= 10 {
      var s := NatToDecimal(n);
      assert s[..|s| - 1] == NatToDecimal(n / 10);
      DigitsOfNat(n / 10);
    }
  }

  /** The `(int)` cast undoes the rendering of an int, and `is_numeric` accepts that rendering. */
  lemma DecimalRoundTrip(i: int)
    ensures StringToInt(IntToDecimal(i)) == i
    ensures IsIntegerString(IntToDecimal(i))
  {
    var n: nat := if i < 0 then -i else i;
    var d := NatToDecimal(n);
    DigitPrefixOfDigits(d);
    DigitsOfNat(n);
    if i < 0 {
      assert IntToDecimal(i)[1..] == d;
    }
  }

  /** Distinct ints render as distinct strings. */
  lemma IntToDecimalInjective(a: int, b: int)
    requires IntToDecimal(a) == IntToDecimal(b)
    ensures a == b
  {
    DecimalRoundTrip(a);
    DecimalRoundTrip(b);
  }

  /**
   * PHP's `stripslashes`: each backslash is dropped and the character after it
   * kept as it is, except that backslash-zero becomes a NUL character; a
   * backslash at the very end is dropped.
   */
  function StripSlashes(s: string): (r: string)
    ensures |r| <= |s|
    decreases |s|
  {
    if s == [] then []
    else if s[0] != '\\' then [s[0]] + StripSlashes(s[1..])
    else if |s| == 1 then []
    else [if s[1] == '0' then '\0' else s[1]] + StripSlashes(s[2..])
  }

  /** Text without backslashes passes through `stripslashes` unchanged. */
  lemma {:induction false} StripSlashesPlain(s: string)
    requires forall i :: 0 <= i < |s| ==> s[i] != '\\'
    ensures StripSlashes(s) == s
  {
    if s != [] {
      StripSlashesPlain(s[1..]);
    }
  }

  /**
   * `stripslashes` is not the identity on JSON text: the JSON string `"a\"b"`
   * loses the backslash before its inner quote and is no longer well formed.
   */
  lemma StripSlashesBreaksEscapedQuote()
    ensures StripSlashes("\"a\\\"b\"") == "\"a\"b\""
  {
    assert StripSlashes("\"") == "\"";
    assert StripSlashes("b\"") == "b\"";
    assert StripSlashes("\\\"b\"") == "\"b\"";
    assert StripSlashes("a\\\"b\"") == "a\"b\"";
  }
}
