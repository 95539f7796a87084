/**
 * The string serialiser of the primary cache store: a string goes to the store
 * as its UTF-8 bytes and comes back by decoding them.  Strings here are
 * sequences of Unicode scalar values.
 */
module Utf8 {
  import opened Wrappers

  type Byte = b: int | 0 <= b < 256

  /** A character below U+0080, which UTF-8 writes as the one byte of its value. */
  predicate IsAscii(c: char) {
    c as int < 0x80
  }

  /** The UTF-8 encoding of one scalar value: one to four bytes, one exactly for ASCII. */
  function EncodeChar(c: char): (bs: seq<Byte>)
    ensures 1 <= |bs| <= 4
    ensures |bs| == 1 <==> IsAscii(c)
    ensures IsAscii(c) ==> bs == [c as int]
  {
    var n := c as int;
    if n < 0x80 then [n]
    else if n < 0x800 then [0xC0 + n / 64, 0x80 + n % 64]
    else if n < 0x1_0000 then [0xE0 + n / 4096, 0x80 + (n / 64) % 64, 0x80 + n % 64]
    else [0xF0 + n / 262144, 0x80 + (n / 4096) % 64, 0x80 + (n / 64) % 64, 0x80 + n % 64]
  }

  /**
   * The UTF-8 encoding of a string: the encodings of its characters, in order;
   * one byte per character exactly when the string is ASCII.
   */
  function Encode(s: string): (bs: seq<Byte>)
    ensures |s| <= |bs| <= 4 * |s|
    ensures |bs| == |s| <==> forall i :: 0 <= i < |s| ==> IsAscii(s[i])
  {
    if s == [] then []
    else
      var rest := Encode(s[1..]);
      assert forall i :: 1 <= i < |s| ==> s[i] == s[1..][i - 1];
      EncodeChar(s[0]) + rest
  }

  predicate IsContinuation(b: Byte) {
    0x80 <= b < 0xC0
  }

  /** The six payload bits of a continuation byte. */
  function Payload(b: Byte): int {
    b as int - 0x80
  }

  /** One decoded character and the number of bytes it took. */
  datatype Decoded = Decoded(c: char, length: nat)

  /**
   * Decodes the character at the front of `bs`, refusing overlong forms,
   * surrogates, values above U+10FFFF and truncated or stray bytes.
   */
  function DecodeChar(bs: seq<Byte>): (r: Option<Decoded>)
    requires |bs| > 0
    ensures r.Some? ==> 1 <= r.value.length <= |bs| && r.value.length <= 4
  {
    var b0: int := bs[0];
    if b0 < 0x80 then
      Some(Decoded(b0 as char, 1))
    else if 0xC2 <= b0 < 0xE0 then
      if |bs| >= 2 && IsContinuation(bs[1]) then
        Some(Decoded(((b0 - 0xC0) * 64 + Payload(bs[1])) as char, 2))
      else None
    else if 0xE0 <= b0 < 0xF0 then
      if |bs| >= 3 && IsContinuation(bs[1]) && IsContinuation(bs[2]) then
        var n := (b0 - 0xE0) * 4096 + Payload(bs[1]) * 64 + Payload(bs[2]);
        if 0x800 <= n && !(0xD800 <= n < 0xE000) then Some(Decoded(n as char, 3)) else None
      else None
    else if 0xF0 <= b0 < 0xF5 then
      if |bs| >= 4 && IsContinuation(bs[1]) && IsContinuation(bs[2]) && IsContinuation(bs[3]) then
        var n := (b0 - 0xF0) * 262144 + Payload(bs[1]) * 4096 + Payload(bs[2]) * 64 + Payload(bs[3]);
        if 0x1_0000 <= n <= 0x10_FFFF then Some(Decoded(n as char, 4)) else None
      else None
    else None
  }

  /** Decodes a whole byte sequence, or None when it is not well-formed UTF-8. */
  function Decode(bs: seq<Byte>): (r: Option<string>)
    ensures r.Some? ==> |r.value| <= |bs|
    decreases |bs|
  {
    if bs == [] then Some([])
    else
      match DecodeChar(bs)
      case None => None
      case Some(d) =>
        match Decode(bs[d.length..])
        case None => None
        case Some(rest) => Some([d.c] + rest)
  }

  lemma SplitSixBitDigits(n: nat)
    ensures n == (n / 64) * 64 + n % 64
    ensures n / 4096 == (n / 64) / 64
    ensures n / 262144 == (n / 4096) / 64
  {
  }

  /** Decoding the encoding of a character gives it back and consumes exactly its bytes. */
  lemma DecodeEncodeChar(c: char, rest: seq<Byte>)
    ensures DecodeChar(EncodeChar(c) + rest) == Some(Decoded(c, |EncodeChar(c)|))
  {
    var n := c as int;
    var bs := EncodeChar(c) + rest;
    SplitSixBitDigits(n);
    SplitSixBitDigits(n / 64);
    SplitSixBitDigits(n / 4096);
    if n < 0x80 {
    } else if n < 0x800 {
      assert (bs[0] as int - 0xC0) * 64 + Payload(bs[1]) == n;
    } else if n < 0x1_0000 {
      assert (bs[0] as int - 0xE0) * 4096 + Payload(bs[1]) * 64 + Payload(bs[2]) == n;
    } else {
      assert (bs[0] as int - 0xF0) * 262144 + Payload(bs[1]) * 4096 + Payload(bs[2]) * 64 + Payload(bs[3]) == n;
    }
  }

  /** A stored string reads back unchanged: decoding inverts encoding. */
  lemma {:induction false} DecodeEncode(s: string)
    ensures Decode(Encode(s)) == Some(s)
  {
    if s != [] {
      var head := EncodeChar(s[0]);
      DecodeEncodeChar(s[0], Encode(s[1..]));
      assert (head + Encode(s[1..]))[|head|..] == Encode(s[1..]);
      DecodeEncode(s[1..]);
      assert [s[0]] + s[1..] == s;
    }
  }

  /** Distinct strings have distinct encodings. */
  lemma EncodeInjective(a: string, b: string)
    requires Encode(a) == Encode(b)
    ensures a == b
  {
    DecodeEncode(a);
    DecodeEncode(b);
  }

  /** An ASCII character is one byte; "é" takes two bytes, "€" three. */
  lemma EncodingExamples()
    ensures Encode("A") == [0x41]
    ensures Encode("é") == [0xC3, 0xA9]
    ensures Encode("€") == [0xE2, 0x82, 0xAC]
  {
  }
}
