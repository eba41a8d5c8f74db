/**
 * UTF-8 as the browser uses it: the encoder behind `encodeURIComponent` and
 * `URLSearchParams`, and the WHATWG "UTF-8 decode without BOM" decoder, which
 * replaces every maximal ill-formed subsequence by U+FFFD.
 */
module Utf8 {

  type Byte = x: int | 0 <= x < 256

  /** True for the code points that a Dafny `char` can hold. */
  predicate IsScalar(n: int) {
    0 <= n < 0xD800 || 0xE000 <= n < 0x110000
  }

  predicate IsContinuation(b: Byte) {
    0x80 <= b < 0xC0
  }

  /** The one to four bytes that encode `c`. */
  function EncodeChar(c: char): (r: seq<Byte>)
    ensures 1 <= |r| <= 4
    ensures (|r| == 1) == (c as int < 0x80)
    ensures |r| == 1 ==> r[0] == c as int
    ensures forall i :: 1 <= i < |r| ==> IsContinuation(r[i])
  {
    var n := c as int;
    if n < 0x80 then [n]
    else if n < 0x800 then [0xC0 + n / 64, 0x80 + n % 64]
    else if n < 0x10000 then [0xE0 + n / 4096, 0x80 + (n / 64) % 64, 0x80 + n % 64]
    else [0xF0 + n / 262144, 0x80 + (n / 4096) % 64, 0x80 + (n / 64) % 64, 0x80 + n % 64]
  }

  function Encode(s: string): (r: seq<Byte>)
    ensures |r| >= |s|
  {
    if s == [] then [] else EncodeChar(s[0]) + Encode(s[1..])
  }

  /** One decoding step: a scalar and how many bytes it took, or an error and how many bytes it drops. */
  datatype Step = Scalar(c: char, len: nat) | Malformed(len: nat)

  /**
   * Decodes the scalar at the start of `b` with the byte ranges of the WHATWG
   * UTF-8 decoder: a bad lead byte drops one byte, a bad or missing
   * continuation drops the bytes read so far and is itself read again.
   */
  function DecodeStep(b: seq<Byte>): (r: Step)
    requires |b| > 0
    ensures 1 <= r.len <= |b|
    ensures r.Scalar? ==> r.len == |EncodeChar(r.c)|
  {
    var b0: int := b[0];
    if b0 < 0x80 then Scalar(b0 as char, 1)
    else if 0xC2 <= b0 <= 0xDF then
      if |b| < 2 || !IsContinuation(b[1]) then Malformed(1)
      else Scalar(Scalar2(b0, b[1]) as char, 2)
    else if 0xE0 <= b0 <= 0xEF then
      var lo := if b0 == 0xE0 then 0xA0 else 0x80;
      var hi := if b0 == 0xED then 0x9F else 0xBF;
      if |b| < 2 || !(lo <= b[1] <= hi) then Malformed(1)
      else if |b| < 3 || !IsContinuation(b[2]) then Malformed(2)
      else Scalar(Scalar3(b0, b[1], b[2]) as char, 3)
    else if 0xF0 <= b0 <= 0xF4 then
      var lo := if b0 == 0xF0 then 0x90 else 0x80;
      var hi := if b0 == 0xF4 then 0x8F else 0xBF;
      if |b| < 2 || !(lo <= b[1] <= hi) then Malformed(1)
      else if |b| < 3 || !IsContinuation(b[2]) then Malformed(2)
      else if |b| < 4 || !IsContinuation(b[3]) then Malformed(3)
      else Scalar(Scalar4(b0, b[1], b[2], b[3]) as char, 4)
    else Malformed(1)
  }

  /** The code point of a two-byte sequence whose lead byte is in C2..DF. */
  function Scalar2(b0: int, b1: int): (n: int)
    requires 0xC2 <= b0 <= 0xDF && 0x80 <= b1 < 0xC0
    ensures 0x80 <= n < 0x800 && IsScalar(n)
  {
    (b0 - 0xC0) * 64 + (b1 - 0x80)
  }

  /** The code point of a three-byte sequence, within the WHATWG bounds on its second byte. */
  function Scalar3(b0: int, b1: int, b2: int): (n: int)
    requires 0xE0 <= b0 <= 0xEF && 0x80 <= b1 < 0xC0 && 0x80 <= b2 < 0xC0
    requires b0 == 0xE0 ==> 0xA0 <= b1
    requires b0 == 0xED ==> b1 <= 0x9F
    ensures 0x800 <= n < 0x10000 && IsScalar(n)
  {
    (b0 - 0xE0) * 4096 + (b1 - 0x80) * 64 + (b2 - 0x80)
  }

  /** The code point of a four-byte sequence, within the WHATWG bounds on its second byte. */
  function Scalar4(b0: int, b1: int, b2: int, b3: int): (n: int)
    requires 0xF0 <= b0 <= 0xF4 && 0x80 <= b1 < 0xC0 && 0x80 <= b2 < 0xC0 && 0x80 <= b3 < 0xC0
    requires b0 == 0xF0 ==> 0x90 <= b1
    requires b0 == 0xF4 ==> b1 <= 0x8F
    ensures 0x10000 <= n < 0x110000 && IsScalar(n)
  {
    (b0 - 0xF0) * 262144 + (b1 - 0x80) * 4096 + (b2 - 0x80) * 64 + (b3 - 0x80)
  }

  const ReplacementChar: char := '\U{FFFD}'

  /** WHATWG "UTF-8 decode without BOM": never fails, errors become U+FFFD. */
  function DecodeLossy(b: seq<Byte>): (r: string)
    ensures |r| <= |b|
    decreases |b|
  {
    if b == [] then []
    else
      var step := DecodeStep(b);
      (if step.Scalar? then [step.c] else [ReplacementChar]) + DecodeLossy(b[step.len..])
  }

  /** Decoding the encoding of a character gives that character back, whatever follows. */
  lemma DecodeEncodedChar(c: char, rest: seq<Byte>)
    ensures DecodeStep(EncodeChar(c) + rest) == Scalar(c, |EncodeChar(c)|)
  {
    var n := c as int;
    if n < 0x80 {
    } else if n < 0x800 {
      Split2(n);
    } else if n < 0x10000 {
      Split3(n);
    } else {
      Split4(n);
    }
  }

  lemma Split2(n: int)
    requires 0x80 <= n < 0x800
    ensures 0xC2 <= 0xC0 + n / 64 <= 0xDF
    ensures Scalar2(0xC0 + n / 64, 0x80 + n % 64) == n
  {
  }

  lemma Split3(n: int)
    requires 0x800 <= n < 0x10000 && IsScalar(n)
    ensures 0xE0 <= 0xE0 + n / 4096 <= 0xEF
    ensures n / 4096 == 0 ==> 0xA0 <= 0x80 + (n / 64) % 64
    ensures n / 4096 == 0xD ==> 0x80 + (n / 64) % 64 <= 0x9F
    ensures Scalar3(0xE0 + n / 4096, 0x80 + (n / 64) % 64, 0x80 + n % 64) == n
  {
    var q, r := n / 4096, n % 4096;
    var c, d := r / 64, r % 64;
    DivMod64(n, q * 64 + c, d);
    DivMod64(n / 64, q, c);
  }

  lemma Split4(n: int)
    requires 0x10000 <= n < 0x110000
    ensures 0xF0 <= 0xF0 + n / 262144 <= 0xF4
    ensures n / 262144 == 0 ==> 0x90 <= 0x80 + (n / 4096) % 64
    ensures n / 262144 == 4 ==> 0x80 + (n / 4096) % 64 <= 0x8F
    ensures Scalar4(0xF0 + n / 262144, 0x80 + (n / 4096) % 64, 0x80 + (n / 64) % 64, 0x80 + n % 64) == n
  {
    var q, r := n / 262144, n % 262144;
    var a, r2 := r / 4096, r % 4096;
    var c, d := r2 / 64, r2 % 64;
    DivMod4096(n, q * 64 + a, r2);
    DivMod64(n / 4096, q, a);
    DivMod64(n, (q * 64 + a) * 64 + c, d);
    DivMod64(n / 64, q * 64 + a, c);
  }

  lemma DivMod64(n: int, q: int, r: int)
    requires 0 <= r < 64 && n == q * 64 + r
    ensures n / 64 == q && n % 64 == r
  {
  }

  lemma DivMod4096(n: int, q: int, r: int)
    requires 0 <= r < 4096 && n == q * 4096 + r
    ensures n / 4096 == q && n % 4096 == r
  {
  }

  lemma {:induction false} EncodeAppend(s: string, t: string)
    ensures Encode(s + t) == Encode(s) + Encode(t)
  {
    if s == [] {
      assert s + t == t;
    } else {
      var u := s + t;
      assert u[0] == s[0] && u[1..] == s[1..] + t;
      assert Encode(u) == EncodeChar(s[0]) + Encode(s[1..] + t);
      EncodeAppend(s[1..], t);
      assert Encode(s) == EncodeChar(s[0]) + Encode(s[1..]);
      assert Encode(u) == EncodeChar(s[0]) + (Encode(s[1..]) + Encode(t));
    }
  }

  /** The lossy decoder inverts the encoder exactly: well-formed input never meets an error path. */
  lemma {:induction false} DecodeLossyEncode(s: string)
    ensures DecodeLossy(Encode(s)) == s
  {
    if s != [] {
      var e := Encode(s);
      DecodeEncodedChar(s[0], Encode(s[1..]));
      assert e[|EncodeChar(s[0])|..] == Encode(s[1..]);
      DecodeLossyEncode(s[1..]);
    }
  }

  /** Characters below U+0080 are their own single byte. */
  lemma {:induction false} EncodeAscii(s: string)
    requires forall i :: 0 <= i < |s| ==> s[i] as int < 0x80
    ensures Encode(s) == seq(|s|, i requires 0 <= i < |s| => s[i] as int)
  {
    if s != [] {
      EncodeAscii(s[1..]);
    }
  }
}
