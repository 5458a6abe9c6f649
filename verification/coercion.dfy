/** Coercion of a raw value token according to its descriptor's declared type. */
module Coercion {
  import opened Args

  /** A coerced value together with the warnings the coercion emitted. */
  datatype Coerced = Coerced(value: Value, warnings: seq<Warning>)

  const KnownTypes: set<string> := {"int", "bool", "string"}
  const TrueWords: seq<string> := ["true", "t", "1"]
  const FalseWords: seq<string> := ["false", "f", "0"]

  predicate IsDigit(c: char) {
    '0' <= c <= '9'
  }

  /** The test `/^\d+$/`: a non-empty string of ASCII digits. */
  predicate IsDigits(s: string) {
    |s| > 0 && forall k :: 0 <= k < |s| ==> IsDigit(s[k])
  }

  function DigitValue(c: char): (d: nat)
    requires IsDigit(c)
  {
    (c as int - '0' as int) as nat
  }

  function DigitChar(d: nat): (c: char)
    requires d < 10
    ensures IsDigit(c) && DigitValue(c) == d
  {
    ('0' as int + d) as char
  }

  /** The decimal number a string of digits spells, most significant first. */
  function DecimalValue(s: string): (n: nat)
    requires forall k :: 0 <= k < |s| ==> IsDigit(s[k])
  {
    if |s| == 0 then 0
    else 10 * DecimalValue(s[..|s| - 1]) + DigitValue(s[|s| - 1])
  }

  /** The shortest decimal spelling of `n`: the reference against which
      `DecimalValue` is checked. */
  function DecimalString(n: nat): (s: string)
    ensures IsDigits(s)
    ensures |s| > 1 ==> s[0] != '0'
  {
    if n < 10 then [DigitChar(n)]
    else DecimalString(n / 10) + [DigitChar(n % 10)]
  }

  /** ASCII-only `toLowerCase`. */
  function LowerChar(c: char): (r: char) {
    if 'A' <= c <= 'Z' then (c as int + 32) as char else c
  }

  function UpperChar(c: char): (r: char) {
    if 'a' <= c <= 'z' then (c as int - 32) as char else c
  }

  function LowerAscii(s: string): (r: string)
    ensures |r| == |s|
    ensures forall k :: 0 <= k < |s| ==> r[k] == LowerChar(s[k])
  {
    seq(|s|, k requires 0 <= k < |s| => LowerChar(s[k]))
  }

  function UpperAscii(s: string): (r: string)
    ensures |r| == |s|
    ensures forall k :: 0 <= k < |s| ==> r[k] == UpperChar(s[k])
  {
    seq(|s|, k requires 0 <= k < |s| => UpperChar(s[k]))
  }

  /** The warning kinds coercion may emit. */
  predicate IsCoercionWarning(w: Warning) {
    w.UnexpectedIntValue? || w.UnexpectedBoolValue? || w.UnexpectedArgType?
  }

  /** parseStringValue_: coerce `value` to the declared type. Never fails;
      an unexpected value or type yields one warning and a fallback. */
  function ParseStringValue(value: string, typeName: string): (r: Coerced)
    ensures |r.warnings| <= 1
    ensures r.warnings != [] ==> IsCoercionWarning(r.warnings[0])
    ensures typeName == "int" ==>
      && (r.warnings == [] <==> IsDigits(value))
      && (IsDigits(value) ==> r.value == IntVal(DecimalValue(value)))
      && (!IsDigits(value) ==> r == Coerced(LooseInt(value), [UnexpectedIntValue(value)]))
    ensures typeName == "bool" ==>
      && r.value.BoolVal?
      && (r.value.b <==> LowerAscii(value) in TrueWords)
      && (r.warnings == [] <==> LowerAscii(value) in TrueWords + FalseWords)
      && (r.warnings != [] ==> r.warnings == [UnexpectedBoolValue(value)])
    ensures typeName == "string" ==> r == Coerced(StrVal(value), [])
    ensures typeName !in KnownTypes ==> r == Coerced(StrVal(value), [UnexpectedArgType(typeName)])
  {
    if typeName == "int" then
      if IsDigits(value) then Coerced(IntVal(DecimalValue(value)), [])
      else Coerced(LooseInt(value), [UnexpectedIntValue(value)])
    else if typeName == "bool" then
      var lower := LowerAscii(value);
      if lower in TrueWords then Coerced(BoolVal(true), [])
      else if lower in FalseWords then Coerced(BoolVal(false), [])
      else Coerced(BoolVal(false), [UnexpectedBoolValue(value)])
    else if typeName != "string" then
      Coerced(StrVal(value), [UnexpectedArgType(typeName)])
    else
      Coerced(StrVal(value), [])
  }

  lemma {:induction false} DecimalRoundTrip(n: nat)
    ensures DecimalValue(DecimalString(n)) == n
    decreases n
  {
    if n >= 10 {
      DecimalRoundTrip(n / 10);
      var s := DecimalString(n / 10) + [DigitChar(n % 10)];
      assert s[..|s| - 1] == DecimalString(n / 10);
    }
  }

  /** Every natural number, written in decimal, is accepted by an `int`
      argument without a warning and read back as itself. */
  lemma IntRoundTrip(n: nat)
    ensures ParseStringValue(DecimalString(n), "int") == Coerced(IntVal(n), [])
  {
    DecimalRoundTrip(n);
  }

  /** Leading zeros do not change an `int` argument's value. */
  lemma {:induction false} LeadingZeroIgnored(s: string)
    requires IsDigits(s)
    ensures DecimalValue("0" + s) == DecimalValue(s)
    decreases |s|
  {
    var z := "0" + s;
    assert z[..|z| - 1] == "0" + s[..|s| - 1];
    if |s| > 1 {
      LeadingZeroIgnored(s[..|s| - 1]);
    } else {
      assert z[..|z| - 1] == "0";
      assert s[..|s| - 1] == [];
    }
  }

  lemma {:induction false} LowerOfUpper(s: string)
    ensures LowerAscii(UpperAscii(s)) == LowerAscii(s)
  {
    var a := LowerAscii(UpperAscii(s));
    var b := LowerAscii(s);
    forall k | 0 <= k < |s|
      ensures a[k] == b[k]
    {
      var c := s[k];
      if 'a' <= c <= 'z' {
        assert UpperChar(c) as int == c as int - 32;
      }
    }
  }

  /** A `bool` argument is read without regard to ASCII case: upper-casing
      the token changes neither the value nor whether it warns. */
  lemma BoolIgnoresCase(s: string)
    ensures ParseStringValue(UpperAscii(s), "bool").value == ParseStringValue(s, "bool").value
    ensures (ParseStringValue(UpperAscii(s), "bool").warnings == [])
        <==> (ParseStringValue(s, "bool").warnings == [])
  {
    LowerOfUpper(s);
  }
}
