/**
 * JavaScript numbers without rounding: a finite value is an exact real, and
 * the infinities and NaN are kept apart. `ToString` is `Number.prototype.toString`
 * in plain decimal notation and `ParseFloat` is the global `parseFloat`.
 */
module JsNumber {
  import opened JsString

  datatype Number = Finite(value: real) | Infinity(negative: bool) | NaN

  /** JavaScript truthiness: only `0` and `NaN` are falsy numbers. */
  predicate Truthy(n: Number) {
    !n.NaN? && n != Finite(0.0)
  }

  /** `a + b`: NaN absorbs, opposite infinities give NaN. */
  function Add(a: Number, b: Number): (r: Number)
    ensures a.Finite? && b.Finite? ==> r == Finite(a.value + b.value)
    ensures a.NaN? || b.NaN? ==> r == NaN
  {
    match (a, b)
    case (Finite(x), Finite(y)) => Finite(x + y)
    case (NaN, _) => NaN
    case (_, NaN) => NaN
    case (Infinity(p), Infinity(q)) => if p == q then a else NaN
    case (Infinity(_), Finite(_)) => a
    case (Finite(_), Infinity(_)) => b
  }

  /** `a * b`: NaN absorbs, zero times an infinity is NaN, signs multiply. */
  function Mul(a: Number, b: Number): (r: Number)
    ensures a.Finite? && b.Finite? ==> r == Finite(a.value * b.value)
    ensures a.NaN? || b.NaN? ==> r == NaN
  {
    if a.NaN? || b.NaN? then NaN
    else if a.Finite? && b.Finite? then Finite(a.value * b.value)
    else if a.Infinity? && b.Infinity? then Infinity(a.negative != b.negative)
    else if a.Infinity? then (if b.value == 0.0 then NaN else Infinity(a.negative != (b.value < 0.0)))
    else if a.value == 0.0 then NaN else Infinity(b.negative != (a.value < 0.0))
  }

  /** One and zero are the identities of `*` and `+` on every number. */
  lemma Identities(a: Number)
    ensures Mul(Finite(1.0), a) == a && Mul(a, Finite(1.0)) == a
    ensures Add(a, Finite(0.0)) == a && Add(Finite(0.0), a) == a
  {
  }

  // Decimal digits.

  predicate IsDigit(c: char) {
    '0' <= c <= '9'
  }

  predicate AllDigits(s: string) {
    forall k :: 0 <= k < |s| ==> IsDigit(s[k])
  }

  function DigitChar(d: nat): (c: char)
    requires d < 10
    ensures IsDigit(c)
  {
    ('0' as int + d) as char
  }

  function DigitValue(c: char): (d: nat)
    requires IsDigit(c)
    ensures d < 10 && DigitChar(d) == c
  {
    c as int - '0' as int
  }

  function Pow10(e: nat): (p: nat)
    ensures p >= 1
  {
    if e == 0 then 1 else 10 * Pow10(e - 1)
  }

  /** The decimal digits of `n`, padded with leading zeros to at least `width` digits. */
  function ShowNat(n: nat, width: nat): (s: string)
    ensures |s| >= 1 && |s| >= width && AllDigits(s)
    decreases n + width
  {
    var last := [DigitChar(n % 10)];
    if n < 10 && width <= 1 then last
    else ShowNat(n / 10, if width == 0 then 0 else width - 1) + last
  }

  /** The value of a string of decimal digits. */
  function ReadNat(s: string): nat
    requires AllDigits(s)
  {
    if s == [] then 0 else ReadNat(s[..|s| - 1]) * 10 + DigitValue(s[|s| - 1])
  }

  lemma {:induction false} ReadShowNat(n: nat, width: nat)
    ensures ReadNat(ShowNat(n, width)) == n
    decreases n + width
  {
    var s := ShowNat(n, width);
    if !(n < 10 && width <= 1) {
      var w := if width == 0 then 0 else width - 1;
      ReadShowNat(n / 10, w);
      assert s[..|s| - 1] == ShowNat(n / 10, w);
    }
  }

  /** The number of decimal digits at the start of `s`. */
  function DigitRun(s: string): (n: nat)
    ensures n <= |s| && AllDigits(s[..n])
    ensures n < |s| ==> !IsDigit(s[n])
  {
    if s == [] || !IsDigit(s[0]) then 0 else 1 + DigitRun(s[1..])
  }

  // Number.prototype.toString.

  predicate IsInteger(x: real) {
    x == x.Floor as real
  }

  /** `x` has at most `e` digits after the decimal point. */
  predicate HasScale(x: real, e: nat) {
    IsInteger(x * Pow10(e) as real)
  }

  /** Every double is a finite binary fraction and so has a finite decimal expansion. */
  ghost predicate IsDecimal(x: real) {
    exists e: nat :: HasScale(x, e)
  }

  /** The numbers `toString` can print exactly: all numbers a double can hold. */
  ghost predicate Printable(n: Number) {
    n.Finite? ==> IsDecimal(n.value)
  }

  lemma {:induction false} MinimalScaleExists(x: real, e: nat)
    requires HasScale(x, e)
    ensures exists m: nat :: HasScale(x, m) && forall k: nat :: k < m ==> !HasScale(x, k)
  {
    if exists k: nat :: k < e && HasScale(x, k) {
      var k: nat :| k < e && HasScale(x, k);
      MinimalScaleExists(x, k);
    }
  }

  /** The number of fraction digits `toString` prints: the fewest that are exact. */
  ghost function MinimalScale(x: real): (e: nat)
    requires IsDecimal(x)
    ensures HasScale(x, e)
    ensures forall k: nat :: k < e ==> !HasScale(x, k)
  {
    var e0: nat :| HasScale(x, e0);
    MinimalScaleExists(x, e0);
    var e: nat :| HasScale(x, e) && forall k: nat :: k < e ==> !HasScale(x, k);
    e
  }

  /** A sign, integer digits and, when there are any, a `.` and fraction digits. */
  function PlainDecimal(negative: bool, ip: string, fp: string): string {
    (if negative then "-" else "") + (ip + (if fp == [] then "" else "." + fp))
  }

  /** `x` in plain decimal notation with `e` fraction digits. */
  function DecimalString(x: real, e: nat): (r: string)
    requires HasScale(x, e)
    ensures r != []
  {
    var digits := ShowNat(Magnitude(x, e), e + 1);
    PlainDecimal(x < 0.0, digits[..|digits| - e], digits[|digits| - e..])
  }

  /** The absolute value of `x` times ten to the `e`, as a whole number. */
  function Magnitude(x: real, e: nat): nat {
    var k := (x * Pow10(e) as real).Floor;
    if k < 0 then -k else k
  }

  /**
   * `Number.prototype.toString()` in plain decimal notation. A real without a
   * finite decimal expansion is no JavaScript number; it prints as "NaN".
   */
  ghost function ToString(n: Number): (r: string)
    ensures r != []
  {
    match n
    case NaN => "NaN"
    case Infinity(negative) => if negative then "-Infinity" else "Infinity"
    case Finite(x) => if IsDecimal(x) then DecimalString(x, MinimalScale(x)) else "NaN"
  }

  // parseFloat.

  function Scale10(e: int): (r: real)
    ensures r > 0.0
  {
    if e >= 0 then Pow10(e) as real else 1.0 / Pow10(-e) as real
  }

  /** The exponent of a well-formed `e`/`E` part at the start of `s`, else 0 (the part is not consumed). */
  function ParseExponent(s: string): int {
    if |s| >= 2 && (s[0] == 'e' || s[0] == 'E') then
      var d := if s[1] == '-' || s[1] == '+' then s[2..] else s[1..];
      var k := DigitRun(d);
      if k == 0 then 0 else if s[1] == '-' then -(ReadNat(d[..k]) as int) else ReadNat(d[..k])
    else 0
  }

  predicate StartsWith(s: string, p: string) {
    |p| <= |s| && s[..|p|] == p
  }

  /** Flips the sign of a number. */
  function Negate(n: Number): (r: Number)
    ensures n.Finite? ==> r == Finite(-n.value)
  {
    match n
    case Finite(x) => Finite(-x)
    case Infinity(negative) => Infinity(!negative)
    case NaN => NaN
  }

  /**
   * The unsigned part of `parseFloat`: `Infinity`, or the longest prefix made
   * of digits, an optional fraction and an optional exponent; NaN when that
   * prefix has no digit.
   */
  function ReadUnsigned(u: string): (r: Number)
    ensures r.Infinity? ==> !r.negative
  {
    if StartsWith(u, "Infinity") then Infinity(false)
    else
      var i := DigitRun(u);
      var ip := u[..i];
      var hasDot := i < |u| && u[i] == '.';
      var f := if hasDot then DigitRun(u[i + 1..]) else 0;
      var fp := if hasDot then u[i + 1..][..f] else "";
      if i + f == 0 then NaN
      else
        assert AllDigits(ip + fp) by {
          forall k | 0 <= k < |ip + fp| ensures IsDigit((ip + fp)[k]) {
            if k >= |ip| { assert (ip + fp)[k] == fp[k - |ip|]; }
          }
        }
        var rest := if hasDot then u[i + 1 + f..] else u[i..];
        var m := ReadNat(ip + fp) as real / Pow10(f) as real;
        var exp := ParseExponent(rest);
        Finite(if exp == 0 then m else m * Scale10(exp))
  }

  /**
   * `parseFloat(s)`: white space is skipped, then an optional sign and the
   * longest prefix that is a decimal literal or `Infinity` are read; what
   * follows is ignored.
   */
  function ParseFloat(s: string): (r: Number) {
    var t := s[LeadingWhiteSpace(s)..];
    if |t| > 0 && t[0] == '-' then Negate(ReadUnsigned(t[1..]))
    else if |t| > 0 && t[0] == '+' then ReadUnsigned(t[1..])
    else ReadUnsigned(t)
  }

  /** A string with no digit, sign, dot or `Infinity` at its start is NaN. */
  lemma ParseNoLiteral(s: string)
    requires s == [] || (!IsDigit(s[0]) && s[0] != '.' && s[0] != '+' && s[0] != '-' && s[0] != 'I' && !IsWhiteSpace(s[0]))
    ensures ParseFloat(s) == NaN
  {
  }

  // Round trip.

  lemma {:induction false} DigitRunUpTo(a: string, b: string)
    requires AllDigits(a)
    requires b == [] || !IsDigit(b[0])
    ensures DigitRun(a + b) == |a|
  {
    if a == [] {
      assert a + b == b;
    } else {
      assert (a + b)[0] == a[0] && (a + b)[1..] == a[1..] + b;
      DigitRunUpTo(a[1..], b);
    }
  }

  lemma QuotientBack(x: real, p: nat, k: int)
    requires p >= 1 && x * p as real == k as real
    ensures k as real / p as real == x
  {
  }

  /** The unsigned reader on digits `ip`, then `.` and digits `fp` when `fp` is not empty. */
  lemma ReadPlainUnsigned(ip: string, fp: string)
    requires AllDigits(ip) && AllDigits(fp) && |ip| >= 1
    ensures AllDigits(ip + fp)
    ensures ReadUnsigned(ip + (if fp == [] then "" else "." + fp))
      == Finite(ReadNat(ip + fp) as real / Pow10(|fp|) as real)
  {
    if fp == [] {
      ReadInteger(ip);
      assert ip + "" == ip;
    } else {
      ReadFraction(ip, fp);
    }
  }

  lemma ReadInteger(ip: string)
    requires AllDigits(ip) && |ip| >= 1
    ensures ReadUnsigned(ip) == Finite(ReadNat(ip) as real / Pow10(0) as real)
  {
    assert !StartsWith(ip, "Infinity") by {
      assert IsDigit(ip[0]);
    }
    DigitRunUpTo(ip, "");
    assert ip + "" == ip;
    assert ip[..|ip|] == ip;
    assert ip[|ip|..] == "";
    assert ParseExponent("") == 0;
  }

  lemma ReadFraction(ip: string, fp: string)
    requires AllDigits(ip) && AllDigits(fp) && |ip| >= 1 && fp != []
    ensures AllDigits(ip + fp)
    ensures ReadUnsigned(ip + ("." + fp)) == Finite(ReadNat(ip + fp) as real / Pow10(|fp|) as real)
  {
    var u := ip + ("." + fp);
    assert !StartsWith(u, "Infinity") by {
      assert u[0] == ip[0] && IsDigit(ip[0]);
    }
    assert DigitRun(u) == |ip| by {
      DigitRunUpTo(ip, "." + fp);
    }
    assert u[..|ip|] == ip;
    assert u[|ip| + 1..] == fp;
    assert DigitRun(fp) == |fp| by {
      DigitRunUpTo(fp, "");
      assert fp + "" == fp;
    }
    assert fp[..|fp|] == fp;
    assert AllDigits(ip + fp) by {
      forall k | 0 <= k < |ip + fp| ensures IsDigit((ip + fp)[k]) {
        if k >= |ip| { assert (ip + fp)[k] == fp[k - |ip|]; }
      }
    }
    ReadDotted(u, ip, fp);
  }

  /** The unsigned reader on digits, a `.` and digits with nothing after them. */
  lemma ReadDotted(u: string, ip: string, fp: string)
    requires AllDigits(ip + fp) && |ip| >= 1 && |u| == |ip| + 1 + |fp|
    requires !StartsWith(u, "Infinity") && DigitRun(u) == |ip| && u[..|ip|] == ip && u[|ip|] == '.'
    requires u[|ip| + 1..] == fp && DigitRun(fp) == |fp| && fp[..|fp|] == fp
    ensures ReadUnsigned(u) == Finite(ReadNat(ip + fp) as real / Pow10(|fp|) as real)
  {
    assert u[|ip| + 1 + |fp|..] == "";
    assert ParseExponent("") == 0;
  }

  /** A scaled decimal is its scaled magnitude over the power of ten, with its sign. */
  lemma ScaledMagnitude(x: real, p: nat, k: int)
    requires p >= 1 && x * p as real == k as real
    ensures var m := (if k < 0 then -k else k) as real / p as real;
      (if x < 0.0 then Negate(Finite(m)) else Finite(m)) == Finite(x)
  {
    QuotientBack(x, p, k);
    if x < 0.0 {
      assert k < 0;
      NegatedQuotient(k, p);
    } else {
      assert k >= 0;
    }
  }

  lemma MagnitudeQuotient(x: real, e: nat)
    requires HasScale(x, e)
    ensures var m := Magnitude(x, e) as real / Pow10(e) as real;
      (if x < 0.0 then Negate(Finite(m)) else Finite(m)) == Finite(x)
  {
    var y := x * Pow10(e) as real;
    assert IsInteger(y);
    var k := y.Floor;
    assert y == k as real;
    assert Magnitude(x, e) == if k < 0 then -k else k;
    ScaledMagnitude(x, Pow10(e), k);
  }

  lemma NegatedQuotient(k: int, p: nat)
    requires p >= 1
    ensures (-k) as real / p as real == -(k as real / p as real)
  {
  }

  /** A literal that starts with a digit after an optional `-` is read by the unsigned reader. */
  lemma ParseSigned(negative: bool, u: string)
    requires u != [] && IsDigit(u[0])
    ensures ParseFloat((if negative then "-" else "") + u)
      == (if negative then Negate(ReadUnsigned(u)) else ReadUnsigned(u))
  {
    var s := (if negative then "-" else "") + u;
    assert !IsWhiteSpace(s[0]) by {
      if negative { assert s[0] == '-'; } else { assert s[0] == u[0]; }
    }
    assert s[LeadingWhiteSpace(s)..] == s;
    if negative {
      assert s[1..] == u;
    } else {
      assert s == u;
    }
  }

  lemma ParsePlainDecimal(negative: bool, ip: string, fp: string)
    requires AllDigits(ip) && AllDigits(fp) && |ip| >= 1
    ensures AllDigits(ip + fp)
    ensures var m := ReadNat(ip + fp) as real / Pow10(|fp|) as real;
      ParseFloat(PlainDecimal(negative, ip, fp)) == (if negative then Negate(Finite(m)) else Finite(m))
  {
    var u := ip + (if fp == [] then "" else "." + fp);
    var s := PlainDecimal(negative, ip, fp);
    assert s == (if negative then "-" else "") + u;
    assert u[0] == ip[0];
    ParseSigned(negative, u);
    ReadPlainUnsigned(ip, fp);
    var m := ReadNat(ip + fp) as real / Pow10(|fp|) as real;
    var r := ReadUnsigned(u);
    assert r == Finite(m);
    assert ParseFloat(s) == (if negative then Negate(r) else r);
  }

  /** `parseFloat` reads back what `DecimalString` writes. */
  lemma ParseDecimalString(x: real, e: nat)
    requires HasScale(x, e)
    ensures ParseFloat(DecimalString(x, e)) == Finite(x)
  {
    var n := Magnitude(x, e);
    var digits := ShowNat(n, e + 1);
    var ip, fp := digits[..|digits| - e], digits[|digits| - e..];
    var m := n as real / Pow10(e) as real;
    assert DecimalString(x, e) == PlainDecimal(x < 0.0, ip, fp);
    assert ParseFloat(PlainDecimal(x < 0.0, ip, fp)) == (if x < 0.0 then Negate(Finite(m)) else Finite(m)) by {
      DigitSplit(digits, e);
      ParsePlainDecimal(x < 0.0, ip, fp);
      ReadShowNat(n, e + 1);
      assert ReadNat(ip + fp) == n;
    }
    assert (if x < 0.0 then Negate(Finite(m)) else Finite(m)) == Finite(x) by {
      MagnitudeQuotient(x, e);
    }
  }

  /** Both parts of a digit string split `e` from its end are digit strings, the first non-empty. */
  lemma DigitSplit(digits: string, e: nat)
    requires AllDigits(digits) && |digits| >= e + 1
    ensures AllDigits(digits[..|digits| - e]) && AllDigits(digits[|digits| - e..])
    ensures |digits[..|digits| - e]| >= 1 && |digits[|digits| - e..]| == e
    ensures digits[..|digits| - e] + digits[|digits| - e..] == digits
  {
  }

  lemma ParseInfinity(negative: bool)
    ensures ParseFloat(ToString(Infinity(negative))) == Infinity(negative)
  {
    if negative {
      ParseNegativeInfinity();
    } else {
      ReadInfinity();
      ParseUnpadded("Infinity");
    }
  }

  lemma ReadInfinity()
    ensures ReadUnsigned("Infinity") == Infinity(false)
  {
    assert StartsWith("Infinity", "Infinity");
  }

  lemma ParseNegativeInfinity()
    ensures ParseFloat("-Infinity") == Infinity(true)
  {
    ReadInfinity();
    ParseUnpadded("-Infinity");
    assert "-Infinity"[1..] == "Infinity";
  }

  /** A string that starts with no white space is read from its first character. */
  lemma ParseUnpadded(s: string)
    requires s != [] && !IsWhiteSpace(s[0])
    ensures ParseFloat(s) == if s[0] == '-' then Negate(ReadUnsigned(s[1..]))
      else if s[0] == '+' then ReadUnsigned(s[1..]) else ReadUnsigned(s)
  {
    assert s[LeadingWhiteSpace(s)..] == s;
  }

  /** `parseFloat(String(n))` is `n` for every number a double can hold, NaN and infinities included. */
  lemma ParseFloatToString(n: Number)
    requires Printable(n)
    ensures ParseFloat(ToString(n)) == n
  {
    match n
    case Finite(x) => ParseDecimalString(x, MinimalScale(x));
    case NaN =>
      assert ToString(n)[0] == 'N' && ToString(n)[LeadingWhiteSpace(ToString(n))..] == ToString(n);
    case Infinity(negative) => ParseInfinity(negative);
  }
}
