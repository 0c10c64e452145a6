/** UTF-8 as section 3 of RFC 3629 defines it and Go's `unicode/utf8` accepts it. */
module Utf8 {

  type Byte = b: int | 0 <= b < 256

  type Bytes = seq<Byte>

  /** A Unicode scalar value: every code point but the surrogates. */
  type Scalar = c: int | 0 <= c < 0xD800 || 0xE000 <= c < 0x110000

  predicate IsTail(b: Byte) {
    0x80 <= b < 0xC0
  }

  /** The lead byte of a longer form together with the second bytes it admits. */
  predicate LeadPair(lead: Byte, second: Byte) {
    && (lead == 0xE0 ==> 0xA0 <= second)
    && (lead == 0xED ==> second < 0xA0)
    && (lead == 0xF0 ==> 0x90 <= second)
    && (lead == 0xF4 ==> second < 0x90)
    && IsTail(second)
  }

  /** Length of the well-formed sequence at the front of `s`; 0 when there is none. */
  function Width(s: Bytes): (w: nat)
    ensures w <= 4 && w <= |s|
  {
    if s == [] then 0
    else if s[0] < 0x80 then 1
    else if 0xC2 <= s[0] < 0xE0 && |s| >= 2 && IsTail(s[1]) then 2
    else if 0xE0 <= s[0] < 0xF0 && |s| >= 3 && LeadPair(s[0], s[1]) && IsTail(s[2]) then 3
    else if 0xF0 <= s[0] < 0xF5 && |s| >= 4 && LeadPair(s[0], s[1]) && IsTail(s[2]) && IsTail(s[3]) then 4
    else 0
  }

  /** utf8.Valid */
  predicate Valid(s: Bytes) {
    s == [] || (Width(s) > 0 && Valid(s[Width(s)..]))
  }

  // ---------- Encoding ----------

  function Encode(c: Scalar): (s: Bytes)
    ensures 1 <= |s| <= 4
  {
    if c < 0x80 then [c]
    else if c < 0x800 then [0xC0 + c / 64, 0x80 + c % 64]
    else if c < 0x10000 then [0xE0 + c / 4096, 0x80 + c / 64 % 64, 0x80 + c % 64]
    else [0xF0 + c / 262144, 0x80 + c / 4096 % 64, 0x80 + c / 64 % 64, 0x80 + c % 64]
  }

  function EncodeAll(cs: seq<Scalar>): Bytes {
    if cs == [] then [] else Encode(cs[0]) + EncodeAll(cs[1..])
  }

  /** Base-64 digits: what dividing out the tail bits of a sequence recovers. */
  lemma TailDigits(w: int, x: int, y: int, z: int)
    requires 0 <= w && 0 <= x < 64 && 0 <= y < 64 && 0 <= z < 64
    ensures var c := w * 262144 + x * 4096 + y * 64 + z;
            c % 64 == z && c / 64 == w * 4096 + x * 64 + y && c / 64 % 64 == y
            && c / 4096 == w * 64 + x && c / 4096 % 64 == x && c / 262144 == w
  {
  }

  function DecodeFirst(s: Bytes): (c: Scalar)
    requires Width(s) > 0
    ensures Encode(c) == s[..Width(s)]
  {
    var b0: int := s[0];
    if Width(s) == 1 then
      b0
    else
      var b1: int := s[1];
      if Width(s) == 2 then
        TailDigits(0, 0, b0 - 0xC0, b1 - 0x80);
        (b0 - 0xC0) * 64 + (b1 - 0x80)
      else
        var b2: int := s[2];
        if Width(s) == 3 then
          TailDigits(0, b0 - 0xE0, b1 - 0x80, b2 - 0x80);
          (b0 - 0xE0) * 4096 + (b1 - 0x80) * 64 + (b2 - 0x80)
        else
          var b3: int := s[3];
          TailDigits(b0 - 0xF0, b1 - 0x80, b2 - 0x80, b3 - 0x80);
          (b0 - 0xF0) * 262144 + (b1 - 0x80) * 4096 + (b2 - 0x80) * 64 + (b3 - 0x80)
  }

  function DecodeAll(s: Bytes): (cs: seq<Scalar>)
    requires Valid(s)
  {
    if s == [] then [] else [DecodeFirst(s)] + DecodeAll(s[Width(s)..])
  }

  /** An encoding is well-formed and self-delimiting, whatever follows it. */
  lemma EncodeWidth(c: Scalar, rest: Bytes)
    ensures Width(Encode(c) + rest) == |Encode(c)|
  {
    var s := Encode(c) + rest;
    assert forall i :: 0 <= i < |Encode(c)| ==> s[i] == Encode(c)[i];
  }

  lemma {:induction false} EncodeAllValid(cs: seq<Scalar>)
    ensures Valid(EncodeAll(cs))
  {
    if cs != [] {
      EncodeWidth(cs[0], EncodeAll(cs[1..]));
      EncodeAllValid(cs[1..]);
      assert EncodeAll(cs)[|Encode(cs[0])|..] == EncodeAll(cs[1..]);
    }
  }

  /** The valid byte strings are exactly the encodings, and decoding finds what was encoded. */
  lemma {:induction false} EncodeDecodeAll(s: Bytes)
    requires Valid(s)
    ensures EncodeAll(DecodeAll(s)) == s
    ensures |DecodeAll(s)| <= |s|
  {
    if s != [] {
      EncodeDecodeAll(s[Width(s)..]);
      assert s == s[..Width(s)] + s[Width(s)..];
    }
  }

  /** No valid text holds a byte from 0xF5 on. */
  lemma {:induction false} ValidBytes(s: Bytes, i: nat)
    requires Valid(s) && i < |s|
    ensures s[i] < 0xF5
    decreases |s|
  {
    if i >= Width(s) {
      ValidBytes(s[Width(s)..], i - Width(s));
    }
  }
}
