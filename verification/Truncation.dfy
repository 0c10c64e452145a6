/** Cutting UTF-8 text at a number of bytes, and text at a number of UTF-16 units. */
module Truncation {
  import opened Utf8

  // ---------- Bytes ----------

  /** The longest well-formed prefix within the bound, for text over the bound. */
  method TruncateDomainMessageText(value: Bytes, maximumBytes: int) returns (r: Bytes)
    ensures maximumBytes < 1 ==> r == []
    ensures 1 <= maximumBytes && |value| <= maximumBytes ==> r == value
    ensures 1 <= maximumBytes < |value| ==>
              && r <= value && |r| <= maximumBytes && Valid(r)
              && forall n :: |r| < n <= maximumBytes ==> !Valid(value[..n])
  {
    if maximumBytes < 1 {
      return [];
    }
    if |value| <= maximumBytes {
      return value;
    }
    var end := maximumBytes;
    while end > 0 && !Valid(value[..end])
      invariant 0 <= end <= maximumBytes
      invariant forall n :: end < n <= maximumBytes ==> !Valid(value[..n])
    {
      end := end - 1;
    }
    return value[..end];
  }

  /** How many whole code points from the front fit into `room` bytes. */
  function Fit(cs: seq<Scalar>, room: int): (k: nat)
    ensures k <= |cs|
  {
    if cs == [] || |Encode(cs[0])| > room then 0 else 1 + Fit(cs[1..], room - |Encode(cs[0])|)
  }

  /** The front sequence of a well-formed prefix is that of the whole. */
  lemma WidthOfPrefix(s: Bytes, n: nat)
    requires n <= |s| && Width(s[..n]) > 0
    ensures Width(s) == Width(s[..n])
  {
    assert forall i :: 0 <= i < n ==> s[..n][i] == s[i];
  }

  /** The code points that fit encode to the longest well-formed prefix within the room. */
  lemma {:induction false} FitIsLongest(cs: seq<Scalar>, room: nat)
    ensures var fits, all := EncodeAll(cs[..Fit(cs, room)]), EncodeAll(cs);
            && fits <= all && |fits| <= room
            && (|all| > room ==> |fits| + 3 >= room)
            && forall n :: |fits| < n <= room && n <= |all| ==> !Valid(all[..n])
  {
    var k, all := Fit(cs, room), EncodeAll(cs);
    if cs != [] {
      var first := Encode(cs[0]);
      EncodeWidth(cs[0], EncodeAll(cs[1..]));
      if k == 0 {
        assert cs[..0] == [];
        forall n | 0 < n <= room && n <= |all|
          ensures !Valid(all[..n])
        {
          if Width(all[..n]) > 0 {
            WidthOfPrefix(all, n);
          }
        }
      } else {
        var rest := EncodeAll(cs[1..]);
        var fits := EncodeAll(cs[..k]);
        FitIsLongest(cs[1..], room - |first|);
        assert cs[..k][1..] == cs[1..][..k - 1];
        assert fits == first + EncodeAll(cs[1..][..k - 1]);
        forall n | |fits| < n <= room && n <= |all|
          ensures !Valid(all[..n])
        {
          ValidTail(all, n, rest);
        }
      }
    }
  }

  lemma ValidTail(all: Bytes, n: nat, rest: Bytes)
    requires 0 < n <= |all| && Width(all) > 0 && all[Width(all)..] == rest && n >= Width(all)
    ensures Valid(all[..n]) ==> Valid(rest[..n - Width(all)])
  {
    if Width(all[..n]) > 0 {
      WidthOfPrefix(all, n);
      assert all[..n][Width(all)..] == rest[..n - Width(all)];
    }
  }

  /** The code points up to any place encode to a prefix, longer than that up to an earlier place. */
  lemma {:induction false} PrefixEncodes(cs: seq<Scalar>, k: nat, j: nat)
    requires k < j <= |cs|
    ensures EncodeAll(cs[..j]) <= EncodeAll(cs) && |EncodeAll(cs[..j])| > |EncodeAll(cs[..k])|
    decreases j
  {
    var rest := cs[1..];
    assert cs[..j][1..] == rest[..j - 1];
    if j == 1 {
      assert cs[..0] == [] && EncodeAll(cs[..1]) == Encode(cs[0]);
    } else if k == 0 {
      PrefixEncodes(rest, 0, j - 1);
    } else {
      assert cs[..k][1..] == rest[..k - 1];
      PrefixEncodes(rest, k - 1, j - 1);
    }
  }

  /**
   Well-formed text is cut to its longest prefix of whole code points within the bound, at most three bytes
   below it.
   */
  lemma TruncatedText(cs: seq<Scalar>, maximumBytes: nat, r: Bytes)
    requires 1 <= maximumBytes < |EncodeAll(cs)|
    requires var value := EncodeAll(cs);
             r <= value && |r| <= maximumBytes && Valid(r) && forall n :: |r| < n <= maximumBytes ==> !Valid(value[..n])
    ensures r == EncodeAll(cs[..Fit(cs, maximumBytes)])
    ensures maximumBytes - 3 <= |r| <= maximumBytes
    ensures forall k :: Fit(cs, maximumBytes) < k <= |cs| ==> |EncodeAll(cs[..k])| > maximumBytes
  {
    var k := Fit(cs, maximumBytes);
    var value, fits := EncodeAll(cs), EncodeAll(cs[..k]);
    FitIsLongest(cs, maximumBytes);
    EncodeAllValid(cs[..k]);
    assert value[..|fits|] == fits;
    assert value[..|r|] == r;
    forall j | k < j <= |cs|
      ensures |EncodeAll(cs[..j])| > maximumBytes
    {
      PrefixEncodes(cs, k, j);
      EncodeAllValid(cs[..j]);
      assert value[..|EncodeAll(cs[..j])|] == EncodeAll(cs[..j]);
    }
  }

  // ---------- UTF-16 units ----------

  type Unit = u: int | 0 <= u < 0x10000

  const REPLACEMENT: Scalar := 0xFFFD
  const ELLIPSIS: Scalar := 0x2026
  const LIMIT: nat := 160

  function Units(c: Scalar): (u: seq<Unit>)
    ensures 1 <= |u| <= 2
  {
    if c < 0x10000 then [c] else [0xD800 + (c - 0x10000) / 0x400, 0xDC00 + (c - 0x10000) % 0x400]
  }

  function Encode16(cs: seq<Scalar>): seq<Unit> {
    if cs == [] then [] else Units(cs[0]) + Encode16(cs[1..])
  }

  predicate IsHigh(u: Unit) {
    0xD800 <= u < 0xDC00
  }

  predicate IsLow(u: Unit) {
    0xDC00 <= u < 0xE000
  }

  /** utf16.Decode: a surrogate without its partner becomes U+FFFD. */
  function Decode16(us: seq<Unit>): seq<Scalar> {
    if us == [] then []
    else if |us| >= 2 && IsHigh(us[0]) && IsLow(us[1]) then
      var high: int, low: int := us[0], us[1];
      [(high - 0xD800) * 0x400 + (low - 0xDC00) + 0x10000] + Decode16(us[2..])
    else [if IsHigh(us[0]) || IsLow(us[0]) then REPLACEMENT else us[0]] + Decode16(us[1..])
  }

  lemma SurrogateHalves(c: Scalar)
    requires c >= 0x10000
    ensures IsHigh(Units(c)[0]) && IsLow(Units(c)[1])
    ensures var high: int, low: int := Units(c)[0], Units(c)[1];
            (high - 0xD800) * 0x400 + (low - 0xDC00) + 0x10000 == c
  {
  }

  function TruncateForwardingJobLastError(value: seq<Scalar>): seq<Scalar> {
    var units := Encode16(value);
    if |units| <= LIMIT then value else Decode16(units[..LIMIT - 1]) + [ELLIPSIS]
  }

  /** How many whole code points from the front fit into `room` units. */
  function Fit16(cs: seq<Scalar>, room: nat): (k: nat)
    ensures k <= |cs|
  {
    if cs == [] || |Units(cs[0])| > room then 0 else 1 + Fit16(cs[1..], room - |Units(cs[0])|)
  }

  /** A whole code point at the front is decoded on its own. */
  lemma DecodeFront(c: Scalar, us: seq<Unit>)
    ensures Decode16(Units(c) + us) == [c] + Decode16(us)
  {
    if c >= 0x10000 {
      SurrogateHalves(c);
    }
    assert (Units(c) + us)[|Units(c)|..] == us;
  }

  /** Half a pair is decoded as U+FFFD. */
  lemma DecodeHalf(c: Scalar)
    requires |Units(c)| == 2
    ensures Decode16(Units(c)[..1]) == [REPLACEMENT]
  {
    SurrogateHalves(c);
    assert Units(c)[..1][1..] == [];
  }

  /** A cut after `room` units keeps the code points that fit, and U+FFFD for a pair cut in two. */
  lemma {:induction false} CutDecodes(cs: seq<Scalar>, room: nat)
    requires room <= |Encode16(cs)|
    ensures var kept := cs[..Fit16(cs, room)];
            && Decode16(Encode16(cs)[..room]) == kept + (if |Encode16(kept)| < room then [REPLACEMENT] else [])
            && room - 1 <= |Encode16(kept)| <= room
    decreases |cs|
  {
    if room == 0 {
      assert Encode16(cs)[..0] == [];
      assert cs[..0] == [];
    } else if |Units(cs[0])| > room {
      assert Encode16(cs)[..1] == Units(cs[0])[..1];
      DecodeHalf(cs[0]);
      assert cs[..0] == [];
    } else {
      var first, left := Units(cs[0]), room - |Units(cs[0])|;
      CutDecodes(cs[1..], left);
      assert Encode16(cs)[..room] == first + Encode16(cs[1..])[..left];
      DecodeFront(cs[0], Encode16(cs[1..])[..left]);
      KeptOneMore(cs, Fit16(cs[1..], left));
    }
  }

  lemma KeptOneMore(cs: seq<Scalar>, k: nat)
    requires cs != [] && k <= |cs[1..]|
    ensures cs[..k + 1] == [cs[0]] + cs[1..][..k]
    ensures Encode16(cs[..k + 1]) == Units(cs[0]) + Encode16(cs[1..][..k])
  {
    assert cs[..k + 1][1..] == cs[1..][..k];
  }

  /** UTF-16 decoding inverts encoding. */
  lemma {:induction false} Decode16Encode16(cs: seq<Scalar>)
    ensures Decode16(Encode16(cs)) == cs
  {
    if cs != [] {
      Decode16Encode16(cs[1..]);
      DecodeFront(cs[0], Encode16(cs[1..]));
    }
  }

  lemma Encode16Head(c: Scalar, rest: seq<Scalar>)
    ensures Encode16([c] + rest) == Units(c) + Encode16(rest)
  {
    assert ([c] + rest)[1..] == rest;
  }

  lemma {:induction false} Encode16Concat(a: seq<Scalar>, b: seq<Scalar>)
    ensures Encode16(a + b) == Encode16(a) + Encode16(b)
  {
    if a == [] {
      assert a + b == b;
    } else {
      Encode16Head(a[0], a[1..]);
      Encode16Head(a[0], a[1..] + b);
      Encode16Concat(a[1..], b);
      assert a == [a[0]] + a[1..] && a + b == [a[0]] + (a[1..] + b);
    }
  }

  /**
   A text over the limit becomes the code points that fit into 159 units, U+FFFD where the cut split a
   pair, and an ellipsis: always exactly 160 units. Repeating the cut changes nothing.
   */
  lemma TruncatedError(value: seq<Scalar>)
    ensures var r := TruncateForwardingJobLastError(value);
            && |Encode16(r)| == (if |Encode16(value)| <= LIMIT then |Encode16(value)| else LIMIT)
            && TruncateForwardingJobLastError(r) == r
            && (|Encode16(value)| > LIMIT ==>
                  var kept := value[..Fit16(value, LIMIT - 1)];
                  r == kept + (if |Encode16(kept)| < LIMIT - 1 then [REPLACEMENT] else []) + [ELLIPSIS])
  {
    if |Encode16(value)| > LIMIT {
      CutDecodes(value, LIMIT - 1);
      var kept := value[..Fit16(value, LIMIT - 1)];
      var mark := if |Encode16(kept)| < LIMIT - 1 then [REPLACEMENT] else [];
      Encode16Concat(kept, mark);
      Encode16Concat(kept + mark, [ELLIPSIS]);
      assert Encode16([ELLIPSIS]) == [0x2026];
      assert Encode16(mark) == mark;
    }
  }
}
