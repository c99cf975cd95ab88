/**
 * UTF-8, the byte form of a Go string. HAR text decoded from JSON is valid
 * UTF-8, so this model keeps strings as code points and goes to bytes only
 * where the source counts bytes: the request and response bodies.
 */
module Utf8 {
  import opened Wrappers

  newtype uint8 = x: int | 0 <= x < 0x100

  /** The one-to-four byte encoding of a code point. */
  function EncodeChar(c: char): (bs: seq<uint8>)
    ensures 1 <= |bs| <= 4
    ensures (c as int < 0x80) <==> |bs| == 1
  {
    var n := c as int;
    if n < 0x80 then
      [n as uint8]
    else if n < 0x800 then
      [(0xC0 + n / 0x40) as uint8, (0x80 + n % 0x40) as uint8]
    else if n < 0x1_0000 then
      [(0xE0 + n / 0x1000) as uint8, (0x80 + n / 0x40 % 0x40) as uint8, (0x80 + n % 0x40) as uint8]
    else
      [(0xF0 + n / 0x4_0000) as uint8, (0x80 + n / 0x1000 % 0x40) as uint8,
       (0x80 + n / 0x40 % 0x40) as uint8, (0x80 + n % 0x40) as uint8]
  }

  /** The bytes of a string: `[]byte(s)` in Go. */
  function Encode(s: string): (bs: seq<uint8>)
    ensures |s| <= |bs| <= 4 * |s|
  {
    if s == [] then [] else EncodeChar(s[0]) + Encode(s[1..])
  }

  /** How many bytes the sequence that starts with `lead` takes (0: not a lead byte). */
  function SequenceLength(lead: uint8): nat
  {
    if lead < 0x80 then 1
    else if 0xC0 <= lead < 0xE0 then 2
    else if 0xE0 <= lead < 0xF0 then 3
    else if 0xF0 <= lead < 0xF8 then 4
    else 0
  }

  /** The code point number that a lead byte and its continuation bytes carry. */
  function ScalarOf(bs: seq<uint8>): int
    requires 1 <= |bs| <= 4 && SequenceLength(bs[0]) == |bs|
  {
    if |bs| == 1 then bs[0] as int
    else if |bs| == 2 then (bs[0] as int - 0xC0) * 0x40 + (bs[1] as int - 0x80)
    else if |bs| == 3 then
      (bs[0] as int - 0xE0) * 0x1000 + (bs[1] as int - 0x80) * 0x40 + (bs[2] as int - 0x80)
    else
      (bs[0] as int - 0xF0) * 0x4_0000 + (bs[1] as int - 0x80) * 0x1000
      + (bs[2] as int - 0x80) * 0x40 + (bs[3] as int - 0x80)
  }

  predicate IsScalarValue(n: int) {
    0 <= n < 0xD800 || 0xE000 <= n < 0x11_0000
  }

  /**
   * The code points of a byte sequence, or None when it is not well-formed
   * UTF-8 (a stray continuation byte, a truncated sequence, an overlong form,
   * a surrogate or a value past U+10FFFF).
   */
  function Decode(bs: seq<uint8>): Option<string>
    decreases |bs|
  {
    if bs == [] then Some([])
    else
      var k := SequenceLength(bs[0]);
      if k == 0 || |bs| < k then None
      else
        var v := ScalarOf(bs[..k]);
        if !IsScalarValue(v) || EncodeChar(v as char) != bs[..k] then None
        else
          match Decode(bs[k..])
          case None => None
          case Some(rest) => Some([v as char] + rest)
  }

  /** The three-byte form: the lead carries n / 0x1000 and two continuations the rest. */
  lemma ThreeByteScalar(n: int)
    requires 0x800 <= n < 0x1_0000
    ensures (n / 0x1000) * 0x1000 + (n / 0x40 % 0x40) * 0x40 + n % 0x40 == n
  {
    var q := n / 0x40;
    assert q == (n / 0x1000) * 0x40 + q % 0x40;
    assert n == q * 0x40 + n % 0x40;
  }

  /** The four-byte form: the lead carries n / 0x4_0000 and three continuations the rest. */
  lemma FourByteScalar(n: int)
    requires 0x1_0000 <= n < 0x11_0000
    ensures (n / 0x4_0000) * 0x4_0000 + (n / 0x1000 % 0x40) * 0x1000 + (n / 0x40 % 0x40) * 0x40 + n % 0x40 == n
  {
    var q := n / 0x40;
    var p := n / 0x1000;
    assert p == (n / 0x4_0000) * 0x40 + p % 0x40;
    assert q == p * 0x40 + q % 0x40;
    assert n == q * 0x40 + n % 0x40;
  }

  lemma {:induction false} EncodeCharScalar(c: char)
    ensures SequenceLength(EncodeChar(c)[0]) == |EncodeChar(c)|
    ensures ScalarOf(EncodeChar(c)) == c as int
  {
    var n := c as int;
    if n < 0x80 {
    } else if n < 0x800 {
      assert n == (n / 0x40) * 0x40 + n % 0x40;
    } else if n < 0x1_0000 {
      ThreeByteScalar(n);
    } else {
      FourByteScalar(n);
    }
  }

  /** Decoding the bytes of a string gives the string back: no code point is lost or altered. */
  lemma {:induction false} DecodeEncode(s: string)
    ensures Decode(Encode(s)) == Some(s)
  {
    if s != [] {
      var e := EncodeChar(s[0]);
      var bs := Encode(s);
      EncodeCharScalar(s[0]);
      assert bs[..|e|] == e;
      assert bs[|e|..] == Encode(s[1..]);
      DecodeEncode(s[1..]);
      assert [s[0]] + s[1..] == s;
    }
  }

  /** A string of ASCII characters takes one byte per character. */
  lemma {:induction false} EncodeAsciiLength(s: string)
    requires forall i :: 0 <= i < |s| ==> s[i] as int < 0x80
    ensures |Encode(s)| == |s|
  {
    if s != [] {
      EncodeAsciiLength(s[1..]);
    }
  }
}
