/**
 UTF-16 as Go's unicode/utf16 decodes it. A Dafny `char` is a Unicode scalar value, so a
 `string` is what a Go string built from decoded runes holds.
 */
module Utf16 {
  import opened Bytes
  import opened Seqs

  const REPLACEMENT: char := '\U{FFFD}'

  predicate IsHighSurrogate(u: u16) { 0xD800 <= u < 0xDC00 }

  predicate IsLowSurrogate(u: u16) { 0xDC00 <= u < 0xE000 }

  /** An unpaired surrogate decodes to U+FFFD, so decoding never fails. */
  function Decode(units: seq<u16>): string {
    if units == [] then ""
    else if IsHighSurrogate(units[0]) && |units| > 1 && IsLowSurrogate(units[1]) then
      var high: int, low: int := units[0] - 0xD800, units[1] - 0xDC00;
      [(0x1_0000 + high * 0x400 + low) as char] + Decode(units[2..])
    else if IsHighSurrogate(units[0]) || IsLowSurrogate(units[0]) then
      [REPLACEMENT] + Decode(units[1..])
    else
      [units[0] as char] + Decode(units[1..])
  }

  function EncodeChar(c: char): (units: seq<u16>)
    ensures 1 <= |units| <= 2
    ensures c != '\0' ==> 0 !in units
  {
    var v := c as int;
    if v < 0x1_0000 then [v]
    else [0xD800 + (v - 0x1_0000) / 0x400, 0xDC00 + (v - 0x1_0000) % 0x400]
  }

  function Encode(s: string): seq<u16> {
    if s == "" then [] else EncodeChar(s[0]) + Encode(s[1..])
  }

  lemma {:induction false} DecodeEncode(s: string)
    ensures Decode(Encode(s)) == s
  {
    if s != "" {
      var head, tail := EncodeChar(s[0]), Encode(s[1..]);
      assert Encode(s)[|head|..] == tail;
      DecodeEncode(s[1..]);
    }
  }

  lemma {:induction false} EncodeHasNoZero(s: string)
    requires '\0' !in s
    ensures 0 !in Encode(s)
  {
    if s != "" {
      EncodeHasNoZero(s[1..]);
    }
  }

  /** Text is not broken up by a unit that is not the second half of a pair. */
  lemma {:induction false} DecodeAfter(s: string, rest: seq<u16>)
    ensures Decode(Encode(s) + rest) == s + Decode(rest)
    decreases |s|
  {
    if s == "" {
      EmptyConcat(rest);
      EmptyConcat(Decode(rest));
    } else {
      var head, tail := EncodeChar(s[0]), Encode(s[1..]);
      Assoc(head, tail, rest);
      DecodeAfter(s[1..], rest);
      assert (head + (tail + rest))[|head|..] == tail + rest;
      assert s == [s[0]] + s[1..];
      Assoc([s[0]], s[1..], Decode(rest));
    }
  }

  /** A surrogate on its own, anywhere in a text, decodes to U+FFFD and leaves the text around it. */
  lemma LoneSurrogate(a: string, u: u16, b: string)
    requires 0xD800 <= u < 0xE000
    ensures Decode(Encode(a) + ([u] + Encode(b))) == a + ("\U{FFFD}" + b)
  {
    DecodeAfter(a, [u] + Encode(b));
    DecodeEncode(b);
    var rest := [u] + Encode(b);
    assert rest[1..] == Encode(b);
    if b != "" {
      assert rest[1] == EncodeChar(b[0])[0];
    }
  }
}
