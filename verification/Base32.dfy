/** Base32 without padding (section 6 of RFC 4648), and secrets typed by hand. */
module Base32 {
  import opened Utf8

  type Bit = b: int | 0 <= b < 2

  type Digit = d: int | 0 <= d < 32

  // ---------- Regrouping bits ----------

  function Power2(w: nat): (p: nat)
    ensures p > 0
  {
    if w == 0 then 1 else 2 * Power2(w - 1)
  }

  /** The low `w` bits of v, most significant first. */
  function BitsOf(w: nat, v: nat): (bits: seq<Bit>)
    ensures |bits| == w
  {
    if w == 0 then [] else BitsOf(w - 1, v / 2) + [v % 2]
  }

  function NumberOf(bits: seq<Bit>): (v: nat)
    ensures v < Power2(|bits|)
  {
    if bits == [] then 0 else NumberOf(bits[..|bits| - 1]) * 2 + bits[|bits| - 1]
  }

  lemma {:induction false} NumberOfBits(w: nat, v: nat)
    requires v < Power2(w)
    ensures NumberOf(BitsOf(w, v)) == v
  {
    if w > 0 {
      NumberOfBits(w - 1, v / 2);
      assert BitsOf(w, v)[..w - 1] == BitsOf(w - 1, v / 2);
    }
  }

  lemma {:induction false} BitsOfNumber(bits: seq<Bit>)
    ensures BitsOf(|bits|, NumberOf(bits)) == bits
  {
    if bits != [] {
      BitsOfNumber(bits[..|bits| - 1]);
    }
  }

  predicate Below(vs: seq<nat>, bound: nat) {
    forall i :: 0 <= i < |vs| ==> vs[i] < bound
  }

  /** The bits of numbers of `w` bits each. */
  function Spread(w: nat, vs: seq<nat>): (bits: seq<Bit>)
    ensures |bits| == w * |vs|
  {
    if vs == [] then [] else BitsOf(w, vs[0]) + Spread(w, vs[1..])
  }

  /** The numbers of whole groups of `w` bits. */
  function Group(w: nat, bits: seq<Bit>): (vs: seq<nat>)
    requires w > 0
    ensures Below(vs, Power2(w)) && w * |vs| <= |bits| < w * |vs| + w
  {
    if |bits| < w then [] else [NumberOf(bits[..w])] + Group(w, bits[w..])
  }

  lemma {:induction false} GroupSpread(w: nat, vs: seq<nat>)
    requires w > 0 && Below(vs, Power2(w))
    ensures Group(w, Spread(w, vs)) == vs
  {
    if vs != [] {
      GroupSpread(w, vs[1..]);
      NumberOfBits(w, vs[0]);
      assert Spread(w, vs)[..w] == BitsOf(w, vs[0]) && Spread(w, vs)[w..] == Spread(w, vs[1..]);
    }
  }

  lemma {:induction false} SpreadGroup(w: nat, bits: seq<Bit>)
    requires w > 0 && w * |Group(w, bits)| == |bits|
    ensures Spread(w, Group(w, bits)) == bits
    decreases |bits|
  {
    if |bits| >= w {
      SpreadGroup(w, bits[w..]);
      BitsOfNumber(bits[..w]);
      assert Group(w, bits)[1..] == Group(w, bits[w..]);
    }
  }

  // ---------- The code ----------

  function ToBytes(vs: seq<nat>): Bytes
    requires Below(vs, 256)
  {
    seq(|vs|, i requires 0 <= i < |vs| => vs[i])
  }

  function ToNats(bs: Bytes): (vs: seq<nat>)
    ensures Below(vs, 256) && |vs| == |bs| && ToBytes(vs) == bs
  {
    seq(|bs|, i requires 0 <= i < |bs| => bs[i])
  }

  /** Zero bits that complete the last digit. */
  function PaddingBits(bytes: nat): (n: nat)
    ensures n < 5 && (8 * bytes + n) % 5 == 0
  {
    2 * bytes % 5
  }

  function Encode(bs: Bytes): (digits: seq<nat>)
    ensures Below(digits, 32)
  {
    assert Power2(5) == 32 by { assert Power2(2) == 4; }
    Group(5, Spread(8, ToNats(bs)) + seq(PaddingBits(|bs|), _ => 0))
  }

  /** Bytes that a last, incomplete group of digits yields; lengths no encoding has yield none. */
  function LastBytes(digits: nat): nat
    requires digits < 8
  {
    match digits
    case 2 => 1
    case 4 => 2
    case 5 => 3
    case 7 => 4
    case _ => 0
  }

  function DecodedLength(digits: nat): (n: nat)
    ensures 8 * n <= 5 * digits
  {
    5 * (digits / 8) + LastBytes(digits % 8)
  }

  function Decode(digits: seq<nat>): Bytes
    requires Below(digits, 32)
  {
    assert Power2(8) == 256 by { assert Power2(4) == 16; }
    ToBytes(Group(8, Spread(5, digits)[..8 * DecodedLength(|digits|)]))
  }

  /** Decoding inverts encoding on byte strings of every length. */
  lemma DecodeEncode(bs: Bytes)
    ensures Decode(Encode(bs)) == bs
  {
    var vs := ToNats(bs);
    var bits := Spread(8, vs);
    var padded := bits + seq(PaddingBits(|bs|), _ => 0);
    var digits := Encode(bs);
    assert 5 * |digits| == |padded|;
    SpreadGroup(5, padded);
    assert DecodedLength(|digits|) == |bs|;
    assert padded[..8 * |bs|] == bits;
    assert Power2(8) == 256 by { assert Power2(4) == 16; }
    GroupSpread(8, vs);
  }

  // ---------- Text ----------

  function Letter(d: nat): (c: char)
    requires d < 32
    ensures DigitOf(c) == [d]
  {
    if d < 26 then 'A' + d as char else '2' + (d - 26) as char
  }

  /** The digit a character stands for, in either case; none for a character that is passed over. */
  function DigitOf(c: char): (d: seq<nat>)
    ensures Below(d, 32)
  {
    if 'A' <= c <= 'Z' then [c as int - 'A' as int]
    else if 'a' <= c <= 'z' then [c as int - 'a' as int]
    else if '2' <= c <= '7' then [26 + (c as int - '2' as int)]
    else []
  }

  function EncodeToString(bs: Bytes): string {
    var digits := Encode(bs);
    seq(|digits|, i requires 0 <= i < |digits| => Letter(digits[i]))
  }

  function DigitsIn(text: string): (digits: seq<nat>)
    ensures Below(digits, 32)
  {
    if text == "" then [] else DigitsIn(text[..|text| - 1]) + DigitOf(text[|text| - 1])
  }

  /** The bytes of a secret as it was typed: case, blanks and other separators do not matter. */
  function DecodeSecret(text: string): Bytes {
    Decode(DigitsIn(text))
  }

  lemma {:induction false} LettersReadBack(text: string, digits: seq<nat>)
    requires Below(digits, 32) && |text| == |digits|
    requires forall i :: 0 <= i < |text| ==> text[i] == Letter(digits[i])
    ensures DigitsIn(text) == digits
  {
    if text != "" {
      LettersReadBack(text[..|text| - 1], digits[..|text| - 1]);
      assert digits == digits[..|text| - 1] + [digits[|text| - 1]];
    }
  }

  lemma {:induction false} DigitsInConcat(a: string, b: string)
    ensures DigitsIn(a + b) == DigitsIn(a) + DigitsIn(b)
  {
    if b == "" {
      assert a + b == a;
    } else {
      var front, middle, last := DigitsIn(a), DigitsIn(b[..|b| - 1]), DigitOf(b[|b| - 1]);
      DigitsInConcat(a, b[..|b| - 1]);
      assert (a + b)[|a + b| - 1] == b[|b| - 1] && (a + b)[..|a + b| - 1] == a + b[..|b| - 1];
      assert DigitsIn(a + b) == front + middle + last;
      assert front + middle + last == front + (middle + last);
    }
  }

  /** Two characters that differ in case only. */
  predicate SameLetter(c: char, d: char) {
    c == d || ('A' <= c <= 'Z' && d == c + 32 as char) || ('A' <= d <= 'Z' && c == d + 32 as char)
  }

  predicate SameText(text: string, typed: string) {
    |typed| == |text| && forall i :: 0 <= i < |text| ==> SameLetter(text[i], typed[i])
  }

  lemma {:induction false} CaseDoesNotMatter(text: string, typed: string)
    requires SameText(text, typed)
    ensures DigitsIn(typed) == DigitsIn(text)
  {
    if text != "" {
      CaseDoesNotMatter(text[..|text| - 1], typed[..|text| - 1]);
    }
  }

  predicate PassedOver(separator: string) {
    forall i :: 0 <= i < |separator| ==> DigitOf(separator[i]) == []
  }

  lemma TypedReadsBack(secret: Bytes, typed: string)
    requires SameText(EncodeToString(secret), typed)
    ensures DecodeSecret(typed) == secret
  {
    LettersReadBack(EncodeToString(secret), Encode(secret));
    CaseDoesNotMatter(EncodeToString(secret), typed);
    DecodeEncode(secret);
  }

  /** A secret given out and typed in again, in any case and with a separator anywhere, is the same secret. */
  lemma SecretReadsBack(secret: Bytes, front: string, separator: string, back: string)
    requires SameText(EncodeToString(secret), front + back) && PassedOver(separator)
    ensures DecodeSecret(front + separator + back) == secret
  {
    TypedReadsBack(secret, front + back);
    SeparatorIgnored(front, separator, back);
  }

  lemma SeparatorIgnored(a: string, separator: string, b: string)
    requires PassedOver(separator)
    ensures DigitsIn(a + separator + b) == DigitsIn(a + b)
  {
    SeparatorsVanish(separator);
    DigitsInConcat(a, separator);
    DigitsInConcat(a + separator, b);
    DigitsInConcat(a, b);
  }

  lemma {:induction false} SeparatorsVanish(separator: string)
    requires PassedOver(separator)
    ensures DigitsIn(separator) == []
  {
    if separator != "" {
      SeparatorsVanish(separator[..|separator| - 1]);
    }
  }
}
