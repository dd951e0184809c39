/**
 * ECMAScript strings as sequences of UTF-16 code units, with the few String and Array
 * operations the collector uses: includes, join, trim, number and boolean conversion,
 * and case mapping of ASCII letters.
 */
module JsStrings {

  /** One UTF-16 code unit, the element of an ECMAScript string (what charCodeAt returns). */
  type CodeUnit = u: int | 0 <= u < 0x1_0000

  type JsString = seq<CodeUnit>

  /** The code unit of a character of the Basic Multilingual Plane (every literal of this model is one). */
  function Unit(c: char): CodeUnit
  {
    if c as int < 0x1_0000 then c as int else 0xFFFD
  }

  /** A string literal written in Dafny, as ECMAScript code units. */
  function Units(s: string): (r: JsString)
    ensures |r| == |s|
  {
    seq(|s|, i requires 0 <= i < |s| => Unit(s[i]))
  }

  // ---------------------------------------------------------------- includes

  /** `s.includes(t)`, searched from the front one position at a time. */
  function Contains(s: JsString, t: JsString): bool
    decreases |s|
  {
    |t| <= |s| && (s[..|t|] == t || Contains(s[1..], t))
  }

  /** `t` occurs in `s` starting at position `i`. */
  predicate OccursAt(s: JsString, t: JsString, i: int)
  {
    0 <= i && i + |t| <= |s| && s[i..i + |t|] == t
  }

  /** `Contains` holds exactly when `t` occurs in `s` at some position. */
  lemma {:induction false} ContainsAt(s: JsString, t: JsString)
    ensures Contains(s, t) <==> exists i :: OccursAt(s, t, i)
  {
    if |t| <= |s| && s[..|t|] != t {
      ContainsAt(s[1..], t);
      if exists i :: OccursAt(s[1..], t, i) {
        var i :| OccursAt(s[1..], t, i);
        assert s[i + 1..i + 1 + |t|] == s[1..][i..i + |t|];
        assert OccursAt(s, t, i + 1);
      }
      if exists i :: OccursAt(s, t, i) {
        var i :| OccursAt(s, t, i);
        assert i != 0;
        assert s[1..][i - 1..i - 1 + |t|] == s[i..i + |t|];
        assert OccursAt(s[1..], t, i - 1);
      }
    } else if |t| <= |s| {
      assert OccursAt(s, t, 0);
    } else {
      assert forall i :: !OccursAt(s, t, i);
    }
  }

  // ---------------------------------------------------------------- join

  /** `parts.join(sep)` on strings: the parts, in order, with `sep` between neighbours. */
  function Join(parts: seq<JsString>, sep: JsString): JsString
  {
    if |parts| == 0 then []
    else if |parts| == 1 then parts[0]
    else parts[0] + sep + Join(parts[1..], sep)
  }

  // ---------------------------------------------------------------- trim

  /**
   * The code units String.prototype.trim removes: WhiteSpace (tab, vertical tab, form
   * feed, ZWNBSP and every space separator of category Zs) and LineTerminator.
   */
  predicate IsTrimmable(u: CodeUnit)
  {
    || u == 0x09 || u == 0x0B || u == 0x0C || u == 0xFEFF
    || u == 0x20 || u == 0xA0 || u == 0x1680 || 0x2000 <= u <= 0x200A
    || u == 0x202F || u == 0x205F || u == 0x3000
    || u == 0x0A || u == 0x0D || u == 0x2028 || u == 0x2029
  }

  /** Removes the leading trimmable code units: what remains is a suffix that starts with a kept unit. */
  function TrimStart(s: JsString): (r: JsString)
    ensures |r| <= |s| && r == s[|s| - |r|..]
    ensures forall i :: 0 <= i < |s| - |r| ==> IsTrimmable(s[i])
    ensures r != [] ==> !IsTrimmable(r[0])
  {
    if s != [] && IsTrimmable(s[0]) then TrimStart(s[1..]) else s
  }

  /** Removes the trailing trimmable code units: what remains is a prefix that ends with a kept unit. */
  function TrimEnd(s: JsString): (r: JsString)
    ensures |r| <= |s| && r == s[..|r|]
    ensures forall i :: |r| <= i < |s| ==> IsTrimmable(s[i])
    ensures r != [] ==> !IsTrimmable(r[|r| - 1])
  {
    if s != [] && IsTrimmable(s[|s| - 1]) then TrimEnd(s[..|s| - 1]) else s
  }

  /** `s.trim()`. */
  function Trim(s: JsString): (r: JsString)
    ensures |r| <= |s|
    ensures r != [] ==> !IsTrimmable(r[0]) && !IsTrimmable(r[|r| - 1])
  {
    TrimEnd(TrimStart(s))
  }

  /** `!s.trim()`: the string trims to nothing. */
  predicate IsBlank(s: JsString)
  {
    Trim(s) == []
  }

  /** Every code unit of `s` is whitespace or a line terminator. */
  predicate AllTrimmable(s: JsString)
  {
    forall j :: 0 <= j < |s| ==> IsTrimmable(s[j])
  }

  /** A string trims to the empty string exactly when every code unit of it is trimmable. */
  lemma TrimIsEmpty(s: JsString)
    ensures Trim(s) == [] <==> AllTrimmable(s)
  {
    var t := TrimStart(s);
    if t != [] {
      assert !IsTrimmable(s[|s| - |t|]);
      assert !IsTrimmable(t[0]);
    }
  }

  // ---------------------------------------------------------------- case mapping

  predicate IsAsciiLower(u: CodeUnit)
  {
    'a' as int <= u <= 'z' as int
  }

  predicate IsAsciiUpper(u: CodeUnit)
  {
    'A' as int <= u <= 'Z' as int
  }

  /** `s.toUpperCase()` on ASCII letters; every other code unit is kept. */
  function ToUpperAscii(s: JsString): (r: JsString)
  {
    seq(|s|, i requires 0 <= i < |s| => if IsAsciiLower(s[i]) then s[i] - 32 else s[i])
  }

  /** `s.toLowerCase()` on ASCII letters; every other code unit is kept. */
  function ToLowerAscii(s: JsString): (r: JsString)
  {
    seq(|s|, i requires 0 <= i < |s| => if IsAsciiUpper(s[i]) then s[i] + 32 else s[i])
  }

  /** Lower-casing undoes upper-casing on a string without ASCII capitals. */
  lemma LowerUpper(s: JsString)
    requires forall i :: 0 <= i < |s| ==> !IsAsciiUpper(s[i])
    ensures ToLowerAscii(ToUpperAscii(s)) == s
  {
  }

  // ---------------------------------------------------------------- number and boolean to string

  /** The decimal digits of `n`, most significant first, without leading zeros ("0" for zero). */
  function Digits(n: nat): (r: JsString)
    ensures 1 <= |r|
    ensures forall i :: 0 <= i < |r| ==> IsDecimalDigit(r[i])
    ensures r[0] == '0' as int ==> n == 0
  {
    if n < 10 then ['0' as int + n] else Digits(n / 10) + ['0' as int + n % 10]
  }

  predicate IsDecimalDigit(u: CodeUnit)
  {
    '0' as int <= u <= '9' as int
  }

  /** The number a string of decimal digits denotes, most significant first. */
  function DecimalValue(s: JsString): nat
    requires forall i :: 0 <= i < |s| ==> IsDecimalDigit(s[i])
  {
    if s == [] then 0
    else
      assert IsDecimalDigit(s[|s| - 1]);
      10 * DecimalValue(s[..|s| - 1]) + (s[|s| - 1] - '0' as int)
  }

  /** Reading the decimal digits back gives the number. */
  lemma {:induction false} DigitsRoundTrip(n: nat)
    ensures DecimalValue(Digits(n)) == n
  {
    if n >= 10 {
      DigitsRoundTrip(n / 10);
      assert Digits(n)[..|Digits(n)| - 1] == Digits(n / 10);
    }
  }

  /** ToString of an integral Number below 10^21 in magnitude: an optional minus sign, then the digits. */
  function NumberToString(n: int): JsString
  {
    if n < 0 then Units("-") + Digits(-n) else Digits(n)
  }

  /** ToString of an integer reads back as the integer: its digits, after a '-' exactly when it is negative. */
  lemma NumberToStringValue(n: int)
    ensures var r := NumberToString(n);
      && 1 <= |r|
      && (r[0] == '-' as int <==> n < 0)
      && (n >= 0 ==> DecimalValue(r) == n)
      && (n < 0 ==> (forall i :: 1 <= i < |r| ==> IsDecimalDigit(r[i])) && DecimalValue(r[1..]) == -n)
  {
    if n < 0 {
      DigitsRoundTrip(-n);
      assert NumberToString(n)[1..] == Digits(-n);
    } else {
      DigitsRoundTrip(n);
    }
  }

  /** ToString of a Boolean. */
  function BooleanToString(b: bool): JsString
  {
    if b then Units("true") else Units("false")
  }
}
