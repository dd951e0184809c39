/**
 * The device fingerprint of DeviceCollector.generateDeviceId: seven environment
 * attributes joined with '|', a 31-multiplier rolling hash over the UTF-16 code units
 * kept in signed 32-bit range, and the absolute value written in hex, cut into pairs,
 * joined with ':' and upper-cased.
 */
module DeviceId {
  import opened Wrappers
  import opened Int32
  import opened JsStrings

  /** The browser properties the fingerprint reads. */
  datatype Environment = Environment(
    userAgent: JsString,      // navigator.userAgent
    platform: JsString,       // navigator.platform
    language: JsString,       // navigator.language
    screenWidth: int,         // screen.width
    screenHeight: int,        // screen.height
    timezoneOffset: int,      // new Date().getTimezoneOffset(), in minutes
    cookieEnabled: bool,      // !!navigator.cookieEnabled
    javaEnabled: bool)        // !!navigator.javaEnabled()

  // ---------------------------------------------------------------- hash input

  /** The seven components, in the fixed order, each converted to a string as Array.join does. */
  function Components(env: Environment): (r: seq<JsString>)
    ensures |r| == 7
  {
    [ env.userAgent,
      env.platform,
      env.language,
      NumberToString(env.screenWidth) + Units("x") + NumberToString(env.screenHeight),
      NumberToString(env.timezoneOffset),
      BooleanToString(env.cookieEnabled),
      BooleanToString(env.javaEnabled) ]
  }

  /** The string the hash runs over: the components joined with '|'. */
  function HashInput(env: Environment): JsString
  {
    Join(Components(env), Units("|"))
  }

  // ---------------------------------------------------------------- the rolling hash

  /** One turn of the loop body: `hash = ((hash << 5) - hash) + char; hash = hash & hash;`. */
  function HashStep(hash: int, c: CodeUnit): (r: int)
    ensures InRange(r)
  {
    AndSelf((ShiftLeft5(hash) - hash) + c)
  }

  /** The value of `hash` once the loop has consumed all of `s`, starting from 0. */
  function StringHash(s: JsString): (h: int)
    ensures InRange(h)
  {
    if s == [] then 0 else HashStep(StringHash(s[..|s| - 1]), s[|s| - 1])
  }

  /** The hash loop, run over the code units of `s` in order. */
  method ComputeHash(s: JsString) returns (hash: int)
    ensures hash == StringHash(s)
  {
    hash := 0;
    var i := 0;
    while i < |s|
      invariant 0 <= i <= |s|
      invariant hash == StringHash(s[..i])
    {
      var c := s[i];
      hash := (ShiftLeft5(hash) - hash) + c;
      hash := AndSelf(hash);
      assert s[..i + 1][..i] == s[..i];
      i := i + 1;
    }
    assert s[..|s|] == s;
  }

  /** The polynomial each step extends: s[0]*31^(n-1) + ... + s[n-1], in unbounded integers. */
  function Polynomial(s: JsString): int
  {
    if s == [] then 0 else 31 * Polynomial(s[..|s| - 1]) + s[|s| - 1]
  }

  /** Each step of the loop is 31*hash + c reduced to signed 32-bit range. */
  lemma HashStepIsMultiplyAdd(hash: int, c: CodeUnit)
    ensures HashStep(hash, c) == ToInt32(31 * hash + c)
  {
    Congruent((ShiftLeft5(hash) - hash) + c, 31 * hash + c);
  }

  /** The hash is the polynomial of the code units reduced to signed 32-bit range. */
  lemma {:induction false} StringHashIsPolynomial(s: JsString)
    ensures StringHash(s) == ToInt32(Polynomial(s))
  {
    if s != [] {
      var p, c := s[..|s| - 1], s[|s| - 1];
      StringHashIsPolynomial(p);
      var h, q := StringHash(p), Polynomial(p);
      HashStepIsMultiplyAdd(h, c);
      ScaledMultiple(q - h, 31);
      assert (31 * q + c) - (31 * h + c) == 31 * (q - h);
      Congruent(31 * q + c, 31 * h + c);
    }
  }

  /** Multiplying by the odd number 31 keeps a value that is not a multiple of 2^32 off the multiples. */
  lemma TimesThirtyOne(d: int)
    requires d % TwoTo32 != 0
    ensures (31 * d) % TwoTo32 != 0
  {
  }

  /** Two strings that differ in one code unit and agree elsewhere have polynomials apart by a non-multiple of 2^32. */
  lemma {:induction false} SubstitutionPolynomial(p: JsString, a: CodeUnit, b: CodeUnit, w: JsString)
    requires a != b
    ensures (Polynomial(p + [a] + w) - Polynomial(p + [b] + w)) % TwoTo32 != 0
  {
    if w == [] {
      assert (p + [a] + w)[..|p|] == p;
      assert (p + [b] + w)[..|p|] == p;
    } else {
      var v, c := w[..|w| - 1], w[|w| - 1];
      SubstitutionPolynomial(p, a, b, v);
      assert (p + [a] + w)[..|p + [a] + w| - 1] == p + [a] + v;
      assert (p + [b] + w)[..|p + [b] + w| - 1] == p + [b] + v;
      var x, y := Polynomial(p + [a] + v), Polynomial(p + [b] + v);
      TimesThirtyOne(x - y);
      assert Polynomial(p + [a] + w) - Polynomial(p + [b] + w) == 31 * (x - y);
    }
  }

  /** Replacing any single code unit of the hash input by a different one changes the hash. */
  lemma SubstitutionChangesHash(p: JsString, a: CodeUnit, b: CodeUnit, w: JsString)
    requires a != b
    ensures StringHash(p + [a] + w) != StringHash(p + [b] + w)
  {
    SubstitutionPolynomial(p, a, b, w);
    StringHashIsPolynomial(p + [a] + w);
    StringHashIsPolynomial(p + [b] + w);
    DistinctResidues(Polynomial(p + [a] + w), Polynomial(p + [b] + w));
  }

  // ---------------------------------------------------------------- hexadecimal

  predicate IsLowerHexDigit(u: CodeUnit)
  {
    '0' as int <= u <= '9' as int || 'a' as int <= u <= 'f' as int
  }

  predicate IsUpperHexDigit(u: CodeUnit)
  {
    '0' as int <= u <= '9' as int || 'A' as int <= u <= 'F' as int
  }

  function HexDigit(d: nat): (u: CodeUnit)
    requires d < 16
    ensures IsLowerHexDigit(u)
  {
    if d < 10 then '0' as int + d else 'a' as int + (d - 10)
  }

  function HexDigitValue(u: CodeUnit): (d: nat)
    requires IsLowerHexDigit(u)
    ensures d < 16 && HexDigit(d) == u
  {
    if u <= '9' as int then u - '0' as int else u - 'a' as int + 10
  }

  /** `n.toString(16)`: lower-case hex digits, most significant first, no leading zero. */
  function ToHex(n: nat): (r: JsString)
    ensures 1 <= |r|
    ensures forall i :: 0 <= i < |r| ==> IsLowerHexDigit(r[i])
    ensures r[0] == '0' as int ==> n == 0
  {
    if n < 16 then [HexDigit(n)] else ToHex(n / 16) + [HexDigit(n % 16)]
  }

  /** The value of a string of lower-case hex digits. */
  function HexValue(s: JsString): nat
    requires forall i :: 0 <= i < |s| ==> IsLowerHexDigit(s[i])
  {
    if s == [] then 0 else 16 * HexValue(s[..|s| - 1]) + HexDigitValue(s[|s| - 1])
  }

  /** Reading the hex digits back gives the number. */
  lemma {:induction false} HexRoundTrip(n: nat)
    ensures HexValue(ToHex(n)) == n
  {
    if n >= 16 {
      HexRoundTrip(n / 16);
      assert ToHex(n)[..|ToHex(n)| - 1] == ToHex(n / 16);
    }
  }

  function Pow16(k: nat): (r: nat)
    ensures r >= 1
  {
    if k == 0 then 1 else 16 * Pow16(k - 1)
  }

  /** A number below 16^k has at most k hex digits. */
  lemma {:induction false} HexLength(n: nat, k: nat)
    requires 1 <= k && n < Pow16(k)
    ensures |ToHex(n)| <= k
  {
    if n >= 16 {
      HexLength(n / 16, k - 1);
    }
  }

  /** Math.abs of an int32 has between one and eight hex digits. */
  lemma HexOfAbsLength(hash: int)
    requires InRange(hash)
    ensures 1 <= |ToHex(Abs(hash))| <= 8
  {
    assert Pow16(8) == 0x1_0000_0000 by {
      assert Pow16(1) == 16;
      assert Pow16(2) == 0x100;
      assert Pow16(3) == 0x1000;
      assert Pow16(4) == 0x1_0000;
      assert Pow16(5) == 0x10_0000;
      assert Pow16(6) == 0x100_0000;
      assert Pow16(7) == 0x1000_0000;
    }
    HexLength(Abs(hash), 8);
  }

  /** `s.substring(from, to)` for non-negative arguments: both clamped to the length, swapped when out of order. */
  function Substring(s: JsString, from: nat, to: nat): JsString
  {
    var a := if from < |s| then from else |s|;
    var b := if to < |s| then to else |s|;
    if a <= b then s[a..b] else s[b..a]
  }

  // ---------------------------------------------------------------- grouping

  /** The strings of `groups`, concatenated. */
  function Concat(groups: seq<JsString>): JsString
  {
    if groups == [] then [] else groups[0] + Concat(groups[1..])
  }

  /**
   * The successive matches of /.{1,2}/g: greedy pairs from the front, the last one a
   * single code unit when the length is odd.
   */
  function Pairs(s: JsString): (r: seq<JsString>)
    ensures |r| == (|s| + 1) / 2
    ensures Concat(r) == s
    ensures forall i :: 0 <= i < |r| ==> 1 <= |r[i]| <= 2
    ensures forall i :: 0 <= i < |r| - 1 ==> |r[i]| == 2
  {
    if |s| <= 2 then
      (if s == [] then [] else [s])
    else
      [s[..2]] + Pairs(s[2..])
  }

  /** `s.match(/.{1,2}/g)`: null (None) when nothing matches, that is, on the empty string. */
  function MatchPairs(s: JsString): Option<seq<JsString>>
  {
    if s == [] then None else Some(Pairs(s))
  }

  const Colon: CodeUnit := ':' as int

  /** `hex.match(/.{1,2}/g).join(':').toUpperCase()`; None where calling join on null would throw. */
  function FormatId(hex: JsString): Option<JsString>
  {
    match MatchPairs(hex)
    case None => None
    case Some(groups) => Some(ToUpperAscii(Join(groups, [Colon])))
  }

  /** The device id written for a final hash value. */
  function DeviceIdOfHash(hash: int): Option<JsString>
  {
    FormatId(Substring(ToHex(Abs(hash)), 0, 12))
  }

  /** The device id of an environment. */
  function DeviceIdOf(env: Environment): Option<JsString>
  {
    DeviceIdOfHash(StringHash(HashInput(env)))
  }

  // ---------------------------------------------------------------- reading an id back

  /** `s` with every ':' deleted. */
  function RemoveColons(s: JsString): JsString
  {
    if s == [] then [] else (if s[0] == Colon then [] else [s[0]]) + RemoveColons(s[1..])
  }

  lemma {:induction false} RemoveColonsAppend(a: JsString, b: JsString)
    ensures RemoveColons(a + b) == RemoveColons(a) + RemoveColons(b)
  {
    if a != [] {
      var head := if a[0] == Colon then [] else [a[0]];
      assert (a + b)[0] == a[0];
      assert (a + b)[1..] == a[1..] + b;
      RemoveColonsAppend(a[1..], b);
      calc {
        RemoveColons(a + b);
        head + RemoveColons(a[1..] + b);
        head + (RemoveColons(a[1..]) + RemoveColons(b));
        (head + RemoveColons(a[1..])) + RemoveColons(b);
      }
    } else {
      assert a + b == b;
    }
  }

  lemma {:induction false} RemoveColonsNone(s: JsString)
    requires forall i :: 0 <= i < |s| ==> s[i] != Colon
    ensures RemoveColons(s) == s
  {
    if s != [] {
      RemoveColonsNone(s[1..]);
    }
  }

  /** Reading an id back: lower-case it and delete the colons. */
  function Unformat(id: JsString): JsString
  {
    RemoveColons(ToLowerAscii(id))
  }

  /** Past the first pair, the joined pairs are the first pair, a colon, and the joined rest. */
  lemma JoinPairsUnfold(h: JsString)
    requires |h| > 2
    ensures Join(Pairs(h), [Colon]) == h[..2] + [Colon] + Join(Pairs(h[2..]), [Colon])
  {
    var rest := Pairs(h[2..]);
    assert Pairs(h) == [h[..2]] + rest;
    assert ([h[..2]] + rest)[1..] == rest;
  }

  /** Joining the pairs of a non-empty string adds one colon per pair after the first. */
  lemma {:induction false} JoinedPairsLength(h: JsString)
    requires h != []
    ensures |Join(Pairs(h), [Colon])| == |h| + (|h| - 1) / 2
  {
    if |h| > 2 {
      JoinedPairsLength(h[2..]);
      JoinPairsUnfold(h);
    } else {
      assert Join(Pairs(h), [Colon]) == h;
    }
  }

  /** Joining the pairs of a colon-free string with ':' puts a colon exactly at every third position. */
  lemma {:induction false} JoinedPairsColons(h: JsString)
    requires h != []
    requires forall i :: 0 <= i < |h| ==> h[i] != Colon
    ensures var j := Join(Pairs(h), [Colon]);
      forall i :: 0 <= i < |j| ==> (j[i] == Colon <==> i % 3 == 2)
  {
    var j := Join(Pairs(h), [Colon]);
    if |h| > 2 {
      var t := h[2..];
      JoinedPairsColons(t);
      JoinPairsUnfold(h);
      var j' := Join(Pairs(t), [Colon]);
      assert j == h[..2] + [Colon] + j';
      forall i | 3 <= i < |j|
        ensures j[i] == j'[i - 3] && i % 3 == (i - 3) % 3
      {
      }
    } else {
      assert j == h;
    }
  }

  /** Away from the colons, the joined pairs hold the string's code units in order. */
  lemma {:induction false} JoinedPairsDigits(h: JsString)
    requires h != []
    ensures |Join(Pairs(h), [Colon])| == |h| + (|h| - 1) / 2
    ensures var j := Join(Pairs(h), [Colon]);
      forall i :: 0 <= i < |j| && i % 3 != 2 ==> j[i] == h[i - i / 3]
  {
    var j := Join(Pairs(h), [Colon]);
    JoinedPairsLength(h);
    if |h| > 2 {
      var t := h[2..];
      JoinedPairsDigits(t);
      JoinPairsUnfold(h);
      var j' := Join(Pairs(t), [Colon]);
      assert j == h[..2] + [Colon] + j';
      forall i | 0 <= i < |j| && i % 3 != 2
        ensures j[i] == h[i - i / 3]
      {
        if i >= 3 {
          var k := i - 3;
          assert i / 3 == k / 3 + 1 && i % 3 == k % 3;
          assert j[i] == j'[k] == t[k - k / 3];
        }
      }
    } else {
      assert j == h;
    }
  }

  /** Deleting the colons from the joined pairs of a colon-free string restores it. */
  lemma {:induction false} JoinedPairsRemoveColons(h: JsString)
    requires forall i :: 0 <= i < |h| ==> h[i] != Colon
    ensures RemoveColons(Join(Pairs(h), [Colon])) == h
  {
    if |h| > 2 {
      JoinedPairsRemoveColons(h[2..]);
      JoinPairsUnfold(h);
      var j' := Join(Pairs(h[2..]), [Colon]);
      RemoveColonsAppend(h[..2] + [Colon], j');
      RemoveColonsAppend(h[..2], [Colon]);
      RemoveColonsNone(h[..2]);
      assert h == h[..2] + h[2..];
    } else if h == [] {
    } else {
      assert Join(Pairs(h), [Colon]) == h;
      RemoveColonsNone(h);
    }
  }

  /**
   * The id of any int32 hash: Math.abs gives at most eight hex digits, so substring(0, 12)
   * keeps them all; they are grouped in at most four pairs (the last possibly single),
   * upper-cased and separated by ':'; lower-casing and deleting the colons gives the digits back.
   */
  lemma DeviceIdShape(hash: int)
    requires InRange(hash)
    ensures var hex := ToHex(Abs(hash));
      && Substring(hex, 0, 12) == hex
      && |Pairs(hex)| <= 4
      && DeviceIdOfHash(hash) == Some(ToUpperAscii(Join(Pairs(hex), [Colon])))
    ensures DeviceIdOfHash(hash).Some?
    ensures var id := DeviceIdOfHash(hash).value;
      && 1 <= |id| <= 11
      && (forall i :: 0 <= i < |id| ==> (id[i] == Colon <==> i % 3 == 2))
      && (forall i :: 0 <= i < |id| && i % 3 != 2 ==> IsUpperHexDigit(id[i]))
      && Unformat(id) == ToHex(Abs(hash))
  {
    var hex := ToHex(Abs(hash));
    HexOfAbsLength(hash);
    assert Substring(hex, 0, 12) == hex;
    JoinedPairsColons(hex);
    JoinedPairsDigits(hex);
    JoinedPairsRemoveColons(hex);
    var j := Join(Pairs(hex), [Colon]);
    var id := ToUpperAscii(j);
    forall i | 0 <= i < |id| && i % 3 != 2
      ensures IsUpperHexDigit(id[i])
    {
      assert IsLowerHexDigit(hex[i - i / 3]);
    }
    forall i | 0 <= i < |j|
      ensures !IsAsciiUpper(j[i])
    {
      if i % 3 != 2 {
        assert IsLowerHexDigit(hex[i - i / 3]);
      }
    }
    LowerUpper(j);
  }

  /** Two int32 hashes give the same id exactly when they have the same absolute value. */
  lemma DeviceIdDeterminesAbs(h1: int, h2: int)
    requires InRange(h1) && InRange(h2)
    ensures DeviceIdOfHash(h1) == DeviceIdOfHash(h2) <==> Abs(h1) == Abs(h2)
  {
    if DeviceIdOfHash(h1) == DeviceIdOfHash(h2) {
      DeviceIdShape(h1);
      DeviceIdShape(h2);
      HexRoundTrip(Abs(h1));
      HexRoundTrip(Abs(h2));
    }
  }

  /** The id of an environment is fixed by the polynomial of its hash input, and always well formed. */
  lemma EnvironmentDeviceId(env: Environment)
    ensures DeviceIdOf(env) == DeviceIdOfHash(ToInt32(Polynomial(HashInput(env))))
    ensures DeviceIdOf(env).Some?
  {
    StringHashIsPolynomial(HashInput(env));
    DeviceIdShape(StringHash(HashInput(env)));
  }
}
