/**
 * `URLSearchParams` as the WHATWG URL Standard defines it for
 * application/x-www-form-urlencoded: the serializer behind `toString()`,
 * the string parser behind the constructor, and `get`.
 */
module FormUrlencoded {
  import opened Wrappers
  import opened Utf8
  import opened Hex

  /** A name-value pair of the list a `URLSearchParams` object holds. */
  type Pair = (string, string)

  /** Bytes the serializer writes as themselves: `*-._`, digits and ASCII letters. */
  predicate IsSafeByte(b: Byte) {
    b == 0x2A || b == 0x2D || b == 0x2E || 0x30 <= b <= 0x39 || 0x41 <= b <= 0x5A || b == 0x5F || 0x61 <= b <= 0x7A
  }

  /** Bytes the serializer can emit: a safe byte, `+` for a space, or part of a `%XX` escape. */
  predicate IsWireByte(b: Byte) {
    IsSafeByte(b) || b == 0x2B || b == 0x25
  }

  predicate IsWireChar(c: char) {
    c as int < 0x80 && IsWireByte(c as int)
  }

  /** The serializer's bytes for one byte of input. */
  function EncodeByte(b: Byte): (r: string)
    ensures forall i :: 0 <= i < |r| ==> IsWireChar(r[i])
  {
    if b == 0x20 then "+"
    else if IsSafeByte(b) then [b as char]
    else ['%'] + HexPair(b)
  }

  function EncodeBytes(bs: seq<Byte>): (r: string)
    ensures forall i :: 0 <= i < |r| ==> IsWireChar(r[i])
  {
    if bs == [] then [] else EncodeByte(bs[0]) + EncodeBytes(bs[1..])
  }

  /** The application/x-www-form-urlencoded percent-encoding of a name or value, spaces as `+`. */
  function Encode(s: string): (r: string)
    ensures forall i :: 0 <= i < |r| ==> IsWireChar(r[i])
  {
    EncodeBytes(Utf8.Encode(s))
  }

  function SerializePair(p: Pair): string {
    Encode(p.0) + "=" + Encode(p.1)
  }

  /** `URLSearchParams.toString()`: the pairs in order, joined by `&`. */
  function Serialize(pairs: seq<Pair>): (r: string)
    ensures pairs == [] <==> r == []
  {
    if pairs == [] then ""
    else if |pairs| == 1 then SerializePair(pairs[0])
    else SerializePair(pairs[0]) + "&" + Serialize(pairs[1..])
  }

  predicate IsHexByte(b: Byte) {
    IsHexChar(b as char)
  }

  function PlusToSpace(b: seq<Byte>): (r: seq<Byte>)
    ensures |r| == |b|
  {
    if b == [] then [] else [if b[0] == 0x2B then 0x20 else b[0]] + PlusToSpace(b[1..])
  }

  /** The URL Standard's percent-decode: a `%` without two hex digits stays as it is. */
  function PercentDecode(b: seq<Byte>): (r: seq<Byte>)
    ensures |r| <= |b|
  {
    if b == [] then []
    else if b[0] == 0x25 && |b| >= 3 && IsHexByte(b[1]) && IsHexByte(b[2])
    then [HexValue(b[1] as char) * 16 + HexValue(b[2] as char)] + PercentDecode(b[3..])
    else [b[0]] + PercentDecode(b[1..])
  }

  /** A name or value as the parser decodes it: `+` to space, percent-decode, lossy UTF-8. */
  function DecodeComponent(b: seq<Byte>): string {
    DecodeLossy(PercentDecode(PlusToSpace(b)))
  }

  /** The first position of `x` in `b`, or `|b|` when there is none. */
  function IndexOf(b: seq<Byte>, x: Byte): (i: nat)
    ensures i <= |b| && (i < |b| ==> b[i] == x)
    ensures forall k :: 0 <= k < i ==> b[k] != x
  {
    if b == [] then 0 else if b[0] == x then 0 else 1 + IndexOf(b[1..], x)
  }

  /** One `&`-separated sequence split at its first `=`; without `=`, the value is empty. */
  function ParseSequence(b: seq<Byte>): Pair {
    var i := IndexOf(b, 0x3D);
    if i < |b| then (DecodeComponent(b[..i]), DecodeComponent(b[i + 1..]))
    else (DecodeComponent(b), "")
  }

  /** The application/x-www-form-urlencoded parser: empty sequences are skipped. */
  function ParseBytes(b: seq<Byte>): (r: seq<Pair>)
    ensures |r| <= |b|
    decreases |b|
  {
    if b == [] then []
    else
      var i := IndexOf(b, 0x26);
      (if i == 0 then [] else [ParseSequence(b[..i])]) + (if i < |b| then ParseBytes(b[i + 1..]) else [])
  }

  /** `new URLSearchParams(init)` for a string `init`: one leading `?` is dropped. */
  function Parse(init: string): seq<Pair> {
    ParseBytes(Utf8.Encode(if |init| > 0 && init[0] == '?' then init[1..] else init))
  }

  /** `URLSearchParams.get(name)`: the value of the first pair with that name. */
  function Get(pairs: seq<Pair>, name: string): Option<string>
  {
    if pairs == [] then None
    else if pairs[0].0 == name then Some(pairs[0].1)
    else Get(pairs[1..], name)
  }

  /** `get` finds a value exactly when some pair carries the name. */
  lemma {:induction false} GetSome(pairs: seq<Pair>, name: string)
    ensures Get(pairs, name).Some? <==> exists i :: 0 <= i < |pairs| && pairs[i].0 == name
  {
    if pairs != [] && pairs[0].0 != name {
      GetSome(pairs[1..], name);
      if exists i :: 0 <= i < |pairs| && pairs[i].0 == name {
        var i :| 0 <= i < |pairs| && pairs[i].0 == name;
        assert pairs[1..][i - 1].0 == name;
      }
    }
  }

  /** `get` finds the value of the first pair with the name. */
  lemma {:induction false} GetFirst(pairs: seq<Pair>, i: nat, name: string)
    requires i < |pairs| && pairs[i].0 == name
    requires forall k :: 0 <= k < i ==> pairs[k].0 != name
    ensures Get(pairs, name) == Some(pairs[i].1)
  {
    if i > 0 {
      GetFirst(pairs[1..], i - 1, name);
    }
  }

  // Proof of the round trip Parse(Serialize(pairs)) == pairs.

  /** The bytes of one serialized byte. */
  function WireUnit(b: Byte): seq<Byte> {
    if b == 0x20 then [0x2B]
    else if IsSafeByte(b) then [b]
    else var h := HexPair(b); [0x25, h[0] as int, h[1] as int]
  }

  function Wire(bs: seq<Byte>): seq<Byte> {
    if bs == [] then [] else WireUnit(bs[0]) + Wire(bs[1..])
  }

  lemma {:induction false} WireBytes(bs: seq<Byte>)
    ensures Utf8.Encode(EncodeBytes(bs)) == Wire(bs)
    ensures forall i :: 0 <= i < |Wire(bs)| ==> IsWireByte(Wire(bs)[i])
  {
    if bs != [] {
      Utf8.EncodeAppend(EncodeByte(bs[0]), EncodeBytes(bs[1..]));
      WireUnitBytes(bs[0]);
      WireBytes(bs[1..]);
      WireAppend(WireUnit(bs[0]), Wire(bs[1..]));
    }
  }

  /** The UTF-8 bytes of one serialized byte are its wire unit, all of them wire bytes. */
  lemma WireUnitBytes(b: Byte)
    ensures Utf8.Encode(EncodeByte(b)) == WireUnit(b)
    ensures forall i :: 0 <= i < |WireUnit(b)| ==> IsWireByte(WireUnit(b)[i])
  {
    Utf8.EncodeAscii(EncodeByte(b));
  }

  lemma WireAppend(u: seq<Byte>, w: seq<Byte>)
    requires forall i :: 0 <= i < |u| ==> IsWireByte(u[i])
    requires forall i :: 0 <= i < |w| ==> IsWireByte(w[i])
    ensures forall i :: 0 <= i < |u + w| ==> IsWireByte((u + w)[i])
  {
    forall i | 0 <= i < |u + w| ensures IsWireByte((u + w)[i]) {
      if i < |u| { assert (u + w)[i] == u[i]; } else { assert (u + w)[i] == w[i - |u|]; }
    }
  }

  lemma PlusToSpaceAppend(a: seq<Byte>, b: seq<Byte>)
    ensures PlusToSpace(a + b) == PlusToSpace(a) + PlusToSpace(b)
  {
    if a == [] {
      assert a + b == b;
    } else {
      assert (a + b)[1..] == a[1..] + b;
      PlusToSpaceAppend(a[1..], b);
    }
  }

  lemma {:induction false} PlusToSpaceFixed(b: seq<Byte>)
    requires forall k :: 0 <= k < |b| ==> b[k] != 0x2B
    ensures PlusToSpace(b) == b
  {
    if b != [] {
      PlusToSpaceFixed(b[1..]);
      assert [b[0]] + b[1..] == b;
    }
  }

  /** One serialized byte decodes to itself in front of whatever follows. */
  lemma DecodeWireUnit(b: Byte, t: seq<Byte>)
    ensures PercentDecode(PlusToSpace(WireUnit(b)) + t) == [b] + PercentDecode(t)
  {
    var u := WireUnit(b);
    if b == 0x20 {
      assert PlusToSpace(u) == [0x20];
    } else if IsSafeByte(b) {
      assert PlusToSpace(u) == [b];
    } else {
      var h := HexPair(b);
      PlusToSpaceFixed(u);
      var p := u + t;
      assert p == [0x25, h[0] as int, h[1] as int] + t;
      assert IsHexByte(p[1]) && IsHexByte(p[2]);
      assert p[3..] == t;
    }
  }

  /** `+` to space, then percent-decoding, undoes the serializer byte for byte. */
  lemma {:induction false} DecodeWire(bs: seq<Byte>)
    ensures PercentDecode(PlusToSpace(Wire(bs))) == bs
  {
    if bs != [] {
      PlusToSpaceAppend(WireUnit(bs[0]), Wire(bs[1..]));
      DecodeWireUnit(bs[0], PlusToSpace(Wire(bs[1..])));
      DecodeWire(bs[1..]);
      assert [bs[0]] + bs[1..] == bs;
    }
  }

  lemma {:induction false} IndexOfAbsent(a: seq<Byte>, x: Byte)
    requires forall k :: 0 <= k < |a| ==> a[k] != x
    ensures IndexOf(a, x) == |a|
  {
    if a != [] {
      IndexOfAbsent(a[1..], x);
    }
  }

  lemma IndexOfAfter(a: seq<Byte>, x: Byte, c: seq<Byte>)
    requires forall k :: 0 <= k < |a| ==> a[k] != x
    ensures IndexOf(a + [x] + c, x) == |a|
  {
    var b := a + [x] + c;
    assert b[|a|] == x;
    assert forall k :: 0 <= k < |a| ==> b[k] == a[k];
  }

  /** A sequence whose first `=` follows `n` splits into `n` and what comes after the `=`. */
  lemma ParseSplitSequence(n: seq<Byte>, v: seq<Byte>)
    requires forall k :: 0 <= k < |n| ==> n[k] != 0x3D
    ensures ParseSequence(n + [0x3D] + v) == (DecodeComponent(n), DecodeComponent(v))
  {
    var b := n + [0x3D] + v;
    IndexOfAfter(n, 0x3D, v);
    assert b[..|n|] == n;
    assert b[|n| + 1..] == v;
  }

  lemma SerializedPairBytes(p: Pair)
    ensures Utf8.Encode(SerializePair(p)) == Wire(Utf8.Encode(p.0)) + [0x3D] + Wire(Utf8.Encode(p.1))
  {
    var x, y := Encode(p.0), Encode(p.1);
    WireBytes(Utf8.Encode(p.0));
    WireBytes(Utf8.Encode(p.1));
    assert Utf8.Encode("=") == [0x3D];
    Utf8.EncodeAppend(x, "=");
    Utf8.EncodeAppend(x + "=", y);
  }

  lemma NoAmpersand(n: seq<Byte>, v: seq<Byte>)
    requires forall k :: 0 <= k < |n| ==> IsWireByte(n[k])
    requires forall k :: 0 <= k < |v| ==> IsWireByte(v[k])
    ensures forall k :: 0 <= k < |n + [0x3D] + v| ==> (n + [0x3D] + v)[k] != 0x26
  {
    var b := n + [0x3D] + v;
    forall k | 0 <= k < |b| ensures b[k] != 0x26 {
      if k < |n| { assert b[k] == n[k]; }
      else if k > |n| { assert b[k] == v[k - |n| - 1]; }
    }
  }

  /** Decoding the serializer's bytes gives back the string that was encoded. */
  lemma DecodeEncodedBytes(s: string)
    ensures DecodeComponent(Wire(Utf8.Encode(s))) == s
  {
    DecodeWire(Utf8.Encode(s));
    Utf8.DecodeLossyEncode(s);
  }

  /** The bytes of a serialized pair hold no `&`, and parsing them gives the pair. */
  lemma ParseSerializedPair(p: Pair)
    ensures forall k :: 0 <= k < |Utf8.Encode(SerializePair(p))| ==> Utf8.Encode(SerializePair(p))[k] != 0x26
    ensures |Utf8.Encode(SerializePair(p))| > 0
    ensures ParseSequence(Utf8.Encode(SerializePair(p))) == p
  {
    var n, v := Wire(Utf8.Encode(p.0)), Wire(Utf8.Encode(p.1));
    WireBytes(Utf8.Encode(p.0));
    WireBytes(Utf8.Encode(p.1));
    SerializedPairBytes(p);
    NoAmpersand(n, v);
    DecodeEncodedBytes(p.0);
    DecodeEncodedBytes(p.1);
    ParseSplitSequence(n, v);
  }

  /** The parser inverts the serializer on every list of pairs. */
  lemma {:induction false} ParseSerialize(pairs: seq<Pair>)
    ensures ParseBytes(Utf8.Encode(Serialize(pairs))) == pairs
  {
    if pairs != [] {
      ParseSerializedPair(pairs[0]);
      var a := Utf8.Encode(SerializePair(pairs[0]));
      if |pairs| == 1 {
        ParseBytesLast(a);
      } else {
        SerializeFirstBytes(pairs);
        ParseBytesStep(a, Utf8.Encode(Serialize(pairs[1..])));
        ParseSerialize(pairs[1..]);
        assert [pairs[0]] + pairs[1..] == pairs;
      }
    }
  }

  /** The bytes of a list of two or more pairs: the first pair's bytes, `&`, the rest's bytes. */
  lemma SerializeFirstBytes(pairs: seq<Pair>)
    requires |pairs| >= 2
    ensures Utf8.Encode(Serialize(pairs))
      == Utf8.Encode(SerializePair(pairs[0])) + [0x26] + Utf8.Encode(Serialize(pairs[1..]))
  {
    var a, b := SerializePair(pairs[0]), Serialize(pairs[1..]);
    assert Serialize(pairs) == a + "&" + b;
    Utf8.EncodeAppend(a, "&");
    Utf8.EncodeAppend(a + "&", b);
    Utf8.EncodeAscii("&");
    assert Utf8.Encode("&") == [0x26];
  }

  /** A non-empty sequence without `&` parses as one pair. */
  lemma ParseBytesLast(a: seq<Byte>)
    requires a != [] && forall k :: 0 <= k < |a| ==> a[k] != 0x26
    ensures ParseBytes(a) == [ParseSequence(a)]
  {
    IndexOfAbsent(a, 0x26);
    assert a[..|a|] == a;
  }

  /** A non-empty sequence without `&`, then `&`, parses as its pair followed by the rest's pairs. */
  lemma ParseBytesStep(a: seq<Byte>, rest: seq<Byte>)
    requires a != [] && forall k :: 0 <= k < |a| ==> a[k] != 0x26
    ensures ParseBytes(a + [0x26] + rest) == [ParseSequence(a)] + ParseBytes(rest)
  {
    var b := a + [0x26] + rest;
    IndexOfAfter(a, 0x26, rest);
    assert b[..|a|] == a;
    assert b[|a| + 1..] == rest;
  }

  predicate IsSerializedChar(c: char) {
    IsWireChar(c) || c == '=' || c == '&'
  }

  lemma SerializedChars(s: string, a: string, c: char, b: string)
    requires s == a + [c] + b
    requires forall k :: 0 <= k < |a| ==> IsSerializedChar(a[k])
    requires forall k :: 0 <= k < |b| ==> IsSerializedChar(b[k])
    requires IsSerializedChar(c)
    ensures forall k :: 0 <= k < |s| ==> IsSerializedChar(s[k])
  {
    forall k | 0 <= k < |s| ensures IsSerializedChar(s[k]) {
      if k < |a| {
        assert s[k] == a[k];
      } else if k > |a| {
        assert s[k] == b[k - |a| - 1];
      }
    }
  }

  /** The serializer writes wire characters, `=` and `&` only; in particular no `"`. */
  lemma {:induction false} SerializeQuoteFree(pairs: seq<Pair>)
    ensures forall k :: 0 <= k < |Serialize(pairs)| ==> IsSerializedChar(Serialize(pairs)[k])
    ensures forall k :: 0 <= k < |Serialize(pairs)| ==> Serialize(pairs)[k] != '"'
  {
    if pairs != [] {
      var p := pairs[0];
      SerializedChars(SerializePair(p), Encode(p.0), '=', Encode(p.1));
      if |pairs| > 1 {
        SerializeQuoteFree(pairs[1..]);
        SerializedChars(Serialize(pairs), SerializePair(p), '&', Serialize(pairs[1..]));
      }
    }
  }

  /** `new URLSearchParams("?" + params.toString())` holds the same list again. */
  lemma ParseQueryString(pairs: seq<Pair>)
    ensures Parse("?" + Serialize(pairs)) == pairs
  {
    assert ("?" + Serialize(pairs))[1..] == Serialize(pairs);
    ParseSerialize(pairs);
  }
}
