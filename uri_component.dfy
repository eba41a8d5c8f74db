/**
 * `encodeURIComponent` and `decodeURIComponent` of ECMA-262: UTF-8 percent-
 * escapes for every character outside the unreserved set, and a decoder that
 * throws URIError on a malformed escape or an invalid UTF-8 sequence.
 */
module UriComponent {
  import opened Wrappers
  import opened Utf8
  import opened Hex

  /** The thrown `URIError`. */
  datatype UriError = UriError

  /** The characters `encodeURIComponent` leaves as they are. */
  predicate IsUnreserved(c: char) {
    'A' <= c <= 'Z' || 'a' <= c <= 'z' || '0' <= c <= '9' || c in "-_.!~*'()"
  }

  /** `%XX` for every byte. */
  function EscapeBytes(bs: seq<Byte>): (r: string)
    ensures |r| == 3 * |bs|
  {
    if bs == [] then [] else ['%'] + HexPair(bs[0]) + EscapeBytes(bs[1..])
  }

  function EncodeChar(c: char): string {
    if IsUnreserved(c) then [c] else EscapeBytes(Utf8.EncodeChar(c))
  }

  /** `encodeURIComponent` (total on strings of scalar values). */
  function Encode(s: string): (r: string)
    ensures s == [] <==> r == []
  {
    if s == [] then [] else EncodeChar(s[0]) + Encode(s[1..])
  }

  /** The byte of a `%XX` escape at the start of `s`, if there is one. */
  function ReadEscape(s: string): (r: Option<Byte>)
    ensures r.Some? ==> |s| >= 3
  {
    if |s| >= 3 && s[0] == '%' && IsHexChar(s[1]) && IsHexChar(s[2])
    then Some(HexValue(s[1]) * 16 + HexValue(s[2]))
    else None
  }

  /** The length of a UTF-8 sequence announced by the leading one bits of its first byte (0 for ASCII). */
  function LeadingOnes(b: Byte): nat {
    if b < 0x80 then 0 else if b < 0xC0 then 1 else if b < 0xE0 then 2
    else if b < 0xF0 then 3 else if b < 0xF8 then 4 else 5
  }

  /** Reads `k` further escapes, each of which must be a `10xxxxxx` byte. */
  function ReadContinuations(s: string, k: nat): (r: Option<seq<Byte>>)
    ensures r.Some? ==> |r.value| == k && |s| >= 3 * k
  {
    if k == 0 then Some([])
    else match ReadEscape(s)
      case None => None
      case Some(b) =>
        if !IsContinuation(b) then None
        else match ReadContinuations(s[3..], k - 1)
          case None => None
          case Some(bs) => Some([b] + bs)
  }

  function Prepend(c: char, r: Option<string>): Option<string> {
    if r.Some? then Some([c] + r.value) else None
  }

  /**
   * `decodeURIComponent`: `None` where the ECMA-262 Decode operation throws
   * URIError: a `%` without two hex digits, a lead byte of a bad length, a
   * missing or non-continuation escape, or a sequence that is not valid UTF-8.
   */
  function Decode(s: string): (r: Option<string>)
    decreases |s|
  {
    if s == [] then Some([])
    else if s[0] != '%' then Prepend(s[0], Decode(s[1..]))
    else match ReadEscape(s)
      case None => None
      case Some(b) =>
        if b < 0x80 then Prepend(b as char, Decode(s[3..]))
        else
          var n := LeadingOnes(b);
          if n == 1 || n > 4 then None
          else match ReadContinuations(s[3..], n - 1)
            case None => None
            case Some(conts) =>
              var step := DecodeStep([b] + conts);
              if step.Scalar? && step.len == n then Prepend(step.c, Decode(s[3 * n..]))
              else None
  }

  lemma ReadEscapeOf(b: Byte, rest: string)
    ensures ReadEscape(['%'] + HexPair(b) + rest) == Some(b)
    ensures (['%'] + HexPair(b) + rest)[3..] == rest
  {
  }

  /** Escaped bytes at the front of a string, peeled one escape at a time. */
  lemma EscapeBytesCons(bs: seq<Byte>, rest: string)
    requires bs != []
    ensures EscapeBytes(bs) + rest == ['%'] + HexPair(bs[0]) + (EscapeBytes(bs[1..]) + rest)
  {
  }

  lemma {:induction false} ReadEscapedContinuations(bs: seq<Byte>, rest: string)
    requires forall i :: 0 <= i < |bs| ==> IsContinuation(bs[i])
    ensures ReadContinuations(EscapeBytes(bs) + rest, |bs|) == Some(bs)
  {
    if bs != [] {
      var tail := EscapeBytes(bs[1..]) + rest;
      EscapeBytesCons(bs, rest);
      ReadEscapeOf(bs[0], tail);
      ReadEscapedContinuations(bs[1..], rest);
      assert [bs[0]] + bs[1..] == bs;
    }
  }

  /** The leading one bits of an encoded lead byte announce the length of its encoding. */
  lemma LeadingOnesOfEncoding(c: char)
    requires c as int >= 0x80
    ensures LeadingOnes(Utf8.EncodeChar(c)[0]) == |Utf8.EncodeChar(c)|
  {
  }

  /** Decoding the encoding of one character yields that character in front of what follows. */
  lemma DecodeEncodedChar(c: char, rest: string)
    ensures Decode(EncodeChar(c) + rest) == Prepend(c, Decode(rest))
  {
    if !IsUnreserved(c) {
      if c as int < 0x80 {
        DecodeEscapedAscii(c, rest);
      } else {
        DecodeEscapedMulti(c, rest);
      }
    }
  }

  lemma DecodeEscapedAscii(c: char, rest: string)
    requires c as int < 0x80
    ensures Decode(EscapeBytes(Utf8.EncodeChar(c)) + rest) == Prepend(c, Decode(rest))
  {
    var bs := Utf8.EncodeChar(c);
    var s := EscapeBytes(bs) + rest;
    assert s == ['%'] + HexPair(bs[0]) + (EscapeBytes(bs[1..]) + rest);
    ReadEscapeOf(bs[0], EscapeBytes(bs[1..]) + rest);
    assert s[3..] == rest;
  }

  lemma DecodeEscapedMulti(c: char, rest: string)
    requires c as int >= 0x80
    ensures Decode(EscapeBytes(Utf8.EncodeChar(c)) + rest) == Prepend(c, Decode(rest))
  {
    var bs := Utf8.EncodeChar(c);
    var s := EscapeBytes(bs) + rest;
    assert s == ['%'] + HexPair(bs[0]) + (EscapeBytes(bs[1..]) + rest);
    ReadEscapeOf(bs[0], EscapeBytes(bs[1..]) + rest);
    LeadingOnesOfEncoding(c);
    assert s[3..] == EscapeBytes(bs[1..]) + rest;
    ReadEscapedContinuations(bs[1..], rest);
    assert [bs[0]] + bs[1..] == bs + [];
    Utf8.DecodeEncodedChar(c, []);
    assert s[3 * |bs|..] == rest;
  }

  /** `decodeURIComponent(encodeURIComponent(s)) == s`, and it never throws on such input. */
  lemma {:induction false} DecodeEncode(s: string)
    ensures Decode(Encode(s)) == Some(s)
  {
    if s != [] {
      var e := Encode(s[1..]);
      assert Encode(s) == EncodeChar(s[0]) + e;
      DecodeEncodedChar(s[0], e);
      DecodeEncode(s[1..]);
      assert Decode(Encode(s)) == Prepend(s[0], Some(s[1..]));
      assert [s[0]] + s[1..] == s;
    }
  }

  /** A non-empty string never decodes to the empty string. */
  lemma DecodeNonEmpty(s: string)
    requires s != [] && Decode(s).Some?
    ensures Decode(s).value != []
  {
  }

  /** A `%` that is not followed by two hex digits makes the decoder throw. */
  lemma MalformedEscapeThrows(s: string)
    requires |s| > 0 && s[0] == '%' && ReadEscape(s).None?
    ensures Decode(s) == None
  {
  }
}
