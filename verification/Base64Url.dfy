/** base64.RawURLEncoding: section 5 of RFC 4648 without padding. */
module Base64Url {
  import opened Text
  import opened Utf8
  import opened Wrappers

  type Sextet = d: int | 0 <= d < 64

  function SextetChar(d: Sextet): (c: char) {
    if d < 26 then 'A' + d as char
    else if d < 52 then 'a' + (d - 26) as char
    else if d < 62 then '0' + (d - 52) as char
    else if d == 62 then '-'
    else '_'
  }

  function CharSextet(c: char): (r: Option<Sextet>) {
    if 'A' <= c <= 'Z' then Some(c as int - 'A' as int)
    else if 'a' <= c <= 'z' then Some(c as int - 'a' as int + 26)
    else if '0' <= c <= '9' then Some(c as int - '0' as int + 52)
    else if c == '-' then Some(62)
    else if c == '_' then Some(63)
    else None
  }

  lemma SextetRoundTrip(d: Sextet)
    ensures CharSextet(SextetChar(d)) == Some(d)
    ensures SextetChar(d) == '-' <==> d == 62
    ensures !IsSpace(SextetChar(d)) && SextetChar(d) !in {'\r', '\n'}
  {
  }

  // ---------- Regrouping bits ----------

  /** Eight-bit groups to six-bit groups, from the most significant end; a short tail is padded with zero bits. */
  function Sextets(b: Bytes): seq<Sextet>
    decreases |b|
  {
    if |b| == 0 then []
    else if |b| == 1 then [b[0] / 4, b[0] % 4 * 16]
    else if |b| == 2 then [b[0] / 4, b[0] % 4 * 16 + b[1] / 16, b[1] % 16 * 4]
    else [b[0] / 4, b[0] % 4 * 16 + b[1] / 16, b[1] % 16 * 4 + b[2] / 64, b[2] % 64] + Sextets(b[3..])
  }

  /** The inverse; the unused low bits of a short tail are ignored and a lone sextet is an error. */
  function Octets(d: seq<Sextet>): Option<Bytes>
    decreases |d|
  {
    if |d| == 0 then Some([])
    else if |d| == 1 then None
    else if |d| == 2 then Some([Octet0(d[0], d[1])])
    else if |d| == 3 then Some([Octet0(d[0], d[1]), Octet1(d[1], d[2])])
    else
      match Octets(d[4..])
      case None => None
      case Some(rest) => Some([Octet0(d[0], d[1]), Octet1(d[1], d[2]), Octet2(d[2], d[3])] + rest)
  }

  function Octet0(d0: int, d1: int): Byte
    requires 0 <= d0 < 64 && 0 <= d1 < 64
  {
    d0 * 4 + d1 / 16
  }

  function Octet1(d1: int, d2: int): Byte
    requires 0 <= d1 < 64 && 0 <= d2 < 64
  {
    d1 % 16 * 16 + d2 / 4
  }

  function Octet2(d2: int, d3: int): Byte
    requires 0 <= d2 < 64 && 0 <= d3 < 64
  {
    d2 % 4 * 64 + d3
  }

  /** One group of three bytes. */
  lemma GroupRoundTrip(b0: Byte, b1: Byte, b2: Byte)
    ensures Octet0(b0 / 4, b0 % 4 * 16 + b1 / 16) == b0
    ensures Octet1(b0 % 4 * 16 + b1 / 16, b1 % 16 * 4 + b2 / 64) == b1
    ensures Octet2(b1 % 16 * 4 + b2 / 64, b2 % 64) == b2
  {
  }

  /** Regrouping bits loses nothing. */
  lemma {:induction false} OctetsSextets(b: Bytes)
    ensures Octets(Sextets(b)) == Some(b)
    decreases |b|
  {
    if |b| == 0 {
    } else if |b| == 1 {
      GroupRoundTrip(b[0], 0, 0);
      assert b == [b[0]];
      assert Sextets(b)[0] == b[0] / 4 && Sextets(b)[1] == b[0] % 4 * 16;
    } else if |b| == 2 {
      GroupRoundTrip(b[0], b[1], 0);
      assert b == [b[0], b[1]];
    } else {
      GroupRoundTrip(b[0], b[1], b[2]);
      OctetsSextets(b[3..]);
      assert Sextets(b)[4..] == Sextets(b[3..]);
      assert b == [b[0], b[1], b[2]] + b[3..];
    }
  }

  // ---------- Encoding and decoding ----------

  function Letters(d: seq<Sextet>): (s: string)
    ensures |s| == |d| && forall i :: 0 <= i < |d| ==> s[i] == SextetChar(d[i])
  {
    seq(|d|, i requires 0 <= i < |d| => SextetChar(d[i]))
  }

  function EncodeToString(b: Bytes): string {
    Letters(Sextets(b))
  }

  /** The letters of `s`; carriage returns and line feeds are skipped, any other foreign character is an error. */
  function ReadLetters(s: string): Option<seq<Sextet>> {
    if s == "" then Some([])
    else if s[0] in {'\r', '\n'} then ReadLetters(s[1..])
    else
      match (CharSextet(s[0]), ReadLetters(s[1..]))
      case (Some(d), Some(rest)) => Some([d] + rest)
      case _ => None
  }

  function DecodeString(s: string): Option<Bytes> {
    match ReadLetters(s)
    case None => None
    case Some(d) => Octets(d)
  }

  lemma {:induction false} ReadLettersInverts(d: seq<Sextet>)
    ensures ReadLetters(Letters(d)) == Some(d)
  {
    if d != [] {
      SextetRoundTrip(d[0]);
      ReadLettersInverts(d[1..]);
      assert Letters(d)[1..] == Letters(d[1..]);
      assert d == [d[0]] + d[1..];
    }
  }

  /** Decoding inverts encoding on every byte string. */
  lemma DecodeEncode(b: Bytes)
    ensures DecodeString(EncodeToString(b)) == Some(b)
  {
    ReadLettersInverts(Sextets(b));
    OctetsSextets(b);
  }

  lemma EncodeTrimmed(b: Bytes)
    ensures Trimmed(EncodeToString(b))
    ensures forall i :: 0 <= i < |EncodeToString(b)| ==> !IsSpace(EncodeToString(b)[i])
  {
    var d := Sextets(b);
    forall i | 0 <= i < |d|
      ensures !IsSpace(EncodeToString(b)[i])
    {
      SextetRoundTrip(d[i]);
    }
  }

  // ---------- The default separator ----------

  /** Every fourth letter holds the top six bits of one byte. */
  lemma {:induction false} AlignedSextet(b: Bytes, k: nat)
    requires 4 * k < |Sextets(b)|
    ensures 3 * k < |b| && Sextets(b)[4 * k] == b[3 * k] / 4
    decreases k
  {
    if k > 0 {
      assert |b| >= 3;
      AlignedSextet(b[3..], k - 1);
      assert Sextets(b)[4 * k] == Sextets(b[3..])[4 * (k - 1)];
    }
  }

  /** An aligned hyphen needs a byte from 0xF8 to 0xFB. */
  lemma AlignedHyphen(b: Bytes, k: nat)
    requires 4 * k < |EncodeToString(b)|
    ensures 3 * k < |b|
    ensures EncodeToString(b)[4 * k] == '-' <==> 0xF8 <= b[3 * k] <= 0xFB
  {
    AlignedSextet(b, k);
    SextetRoundTrip(Sextets(b)[4 * k]);
  }

  /** Encoded UTF-8 never holds four hyphens in a row, since one of any four places is aligned. */
  lemma Utf8HasNoHyphenRun(b: Bytes)
    requires Valid(b)
    ensures Index(EncodeToString(b), "----") == None
  {
    var s := EncodeToString(b);
    if Index(s, "----").Some? {
      var i := Index(s, "----").value;
      var k := (i + 3) / 4;
      assert s[i..i + 4][4 * k - i] == '-';
      AlignedHyphen(b, k);
      ValidBytes(b, 3 * k);
      assert false;
    }
  }

  /** The restriction to UTF-8 is needed: three bytes whose encoding is the separator itself. */
  lemma ArbitraryBytesMayHoldHyphenRun()
    ensures EncodeToString([0xFB, 0xEF, 0xBE]) == "----" && !Valid([0xFB, 0xEF, 0xBE])
  {
    assert Sextets([0xFB, 0xEF, 0xBE]) == [62, 62, 62, 62];
  }
}
