/** The Python-side values the configuration registry handles: option defaults
    and call-time defaults, the strings read from the command line and from
    configuration files, and the results of the option converters. */
module Python {

  datatype Option<T> = None | Some(value: T)

  /** What a Python call does: returns a value or raises an exception. */
  datatype Result<T, E> = Ok(value: T) | Err(error: E)

  /** What a Python call that returns nothing useful does: completes or raises. */
  datatype Outcome<E> = Pass | Fail(error: E)

  /** A Python value of the kinds the registry meets. */
  datatype PyVal = PStr(s: string) | PInt(i: int) | PBool(b: bool) | PNone

  /** Python's truth value, `bool(v)`. */
  predicate Truthy(v: PyVal)
    ensures Truthy(v) <==> v != PStr("") && v != PInt(0) && v != PBool(false) && v != PNone
  {
    match v
    case PStr(s) => s != ""
    case PInt(i) => i != 0
    case PBool(b) => b
    case PNone => false
  }

  /** `str(v)`. */
  function Str(v: PyVal): (s: string)
    ensures v.PStr? ==> s == v.s
    ensures v.PInt? ==> ParseInt(s) == Some(v.i)
    ensures v.PBool? ==> (s == "True" <==> v.b)
    ensures s == "" <==> v == PStr("")
  {
    match v
    case PStr(s) => s
    case PInt(i) => IntToStringRoundTrip(i); IntToString(i)
    case PBool(b) => if b then "True" else "False"
    case PNone => "None"
  }

  // ---------------------------------------------------------------------------
  // Decimal integers: `str(n)` and the part of `int(s)` this model accepts

  predicate IsDigit(c: char)
  {
    '0' <= c <= '9'
  }

  predicate AllDigits(s: string)
  {
    forall i :: 0 <= i < |s| ==> IsDigit(s[i])
  }

  /** The value of a string of decimal digits (leading zeros allowed, as in `int("007")`). */
  function DigitsValue(s: string): nat
    requires AllDigits(s)
  {
    if s == [] then 0
    else 10 * DigitsValue(s[..|s| - 1]) + (s[|s| - 1] as int - '0' as int)
  }

  /** The decimal digits of `n`, without leading zeros. */
  function NatToString(n: nat): (r: string)
    ensures r != [] && AllDigits(r)
    ensures r[0] == '0' ==> n == 0
  {
    if n < 10 then [('0' as int + n) as char]
    else NatToString(n / 10) + [('0' as int + n % 10) as char]
  }

  /** `str(i)` for an integer: an optional minus sign, then the digits of `|i|`. */
  function IntToString(i: int): (r: string)
    ensures r != []
    ensures r[0] == '-' || IsDigit(r[0])
  {
    if i < 0 then "-" + NatToString(-i) else NatToString(i)
  }

  /** `int(s)` on a string, limited to an optional `+` or `-` followed by one or
      more ASCII digits; every other string is refused (`None`). */
  function ParseInt(s: string): (r: Option<int>)
    ensures r.Some? ==> s != [] && forall k :: 0 < k < |s| ==> IsDigit(s[k])
    ensures r.Some? ==> IsDigit(s[0]) || s[0] == '-' || s[0] == '+'
  {
    if s != [] && (s[0] == '-' || s[0] == '+') then
      var body := s[1..];
      if body != [] && AllDigits(body) then
        Some(if s[0] == '-' then -(DigitsValue(body) as int) else DigitsValue(body) as int)
      else None
    else if s != [] && AllDigits(s) then Some(DigitsValue(s))
    else None
  }

  lemma {:induction false} NatToStringRoundTrip(n: nat)
    ensures DigitsValue(NatToString(n)) == n
  {
    if n >= 10 {
      NatToStringRoundTrip(n / 10);
      var s := NatToString(n);
      assert s[..|s| - 1] == NatToString(n / 10);
    }
  }

  /** `int(str(i)) == i` for every integer. */
  lemma IntToStringRoundTrip(i: int)
    ensures ParseInt(IntToString(i)) == Some(i)
  {
    var s := IntToString(i);
    if i < 0 {
      var digits := NatToString(-i);
      NatToStringRoundTrip(-i);
      assert s == "-" + digits;
      assert s[0] == '-' && s[1..] == digits;
    } else {
      var digits := NatToString(i);
      NatToStringRoundTrip(i);
      assert s == digits && IsDigit(s[0]);
    }
  }

  // ---------------------------------------------------------------------------
  // Case mapping (ASCII letters only)

  function LowerChar(c: char): char
  {
    if 'A' <= c <= 'Z' then (c as int + 32) as char else c
  }

  function UpperChar(c: char): char
  {
    if 'a' <= c <= 'z' then (c as int - 32) as char else c
  }

  /** `s.lower()`. */
  function Lower(s: string): string
  {
    seq(|s|, i requires 0 <= i < |s| => LowerChar(s[i]))
  }

  /** `s.upper()`. */
  function Upper(s: string): string
  {
    seq(|s|, i requires 0 <= i < |s| => UpperChar(s[i]))
  }
}
