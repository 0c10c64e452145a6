/** Decimal rendering and parsing: strconv.Itoa, strconv.Atoi and zero-padded `%0*d`. */
module Decimal {
  import opened Wrappers

  const MIN_INT64 := -0x8000_0000_0000_0000
  const MAX_INT64 := 0x7FFF_FFFF_FFFF_FFFF

  /** 64-bit two's complement wrap-around */
  function Wrap64(n: int): int {
    (n - MIN_INT64) % 0x1_0000_0000_0000_0000 + MIN_INT64
  }

  predicate IsDigit(c: char) {
    '0' <= c <= '9'
  }

  predicate AllDigits(s: string) {
    forall i :: 0 <= i < |s| ==> IsDigit(s[i])
  }

  function DigitChar(d: nat): (c: char)
    requires d < 10
    ensures IsDigit(c) && c as int - '0' as int == d
  {
    '0' + d as char
  }

  function Digits(n: nat): (s: string)
    ensures s != "" && AllDigits(s)
  {
    if n < 10 then [DigitChar(n)] else Digits(n / 10) + [DigitChar(n % 10)]
  }

  /** The number a digit string denotes; leading zeros add nothing. */
  function Value(s: string): nat
    requires AllDigits(s)
  {
    if s == "" then 0 else Value(s[..|s| - 1]) * 10 + (s[|s| - 1] as int - '0' as int)
  }

  lemma {:induction false} ValueDigits(n: nat)
    ensures Value(Digits(n)) == n
  {
    if n >= 10 {
      ValueDigits(n / 10);
      assert Digits(n)[..|Digits(n)| - 1] == Digits(n / 10);
    }
  }

  /** strconv.Itoa */
  function Itoa(n: int): string {
    if n < 0 then "-" + Digits(-n) else Digits(n)
  }

  /** strconv.ParseInt(s, 10, 64), and strconv.Atoi on a 64-bit platform. */
  function ParseInt(s: string): (r: Option<int>)
    ensures r.Some? ==> MIN_INT64 <= r.value <= MAX_INT64
  {
    if s == "" then None
    else
      var negative := s[0] == '-';
      var body := if s[0] == '-' || s[0] == '+' then s[1..] else s;
      if body == "" || !AllDigits(body) then None
      else
        var n: int := if negative then 0 - Value(body) else Value(body);
        if MIN_INT64 <= n <= MAX_INT64 then Some(n) else None
  }

  /** Parsing inverts rendering on every 64-bit integer, and on no other. */
  lemma ParseItoa(n: int)
    ensures ParseInt(Itoa(n)) == (if MIN_INT64 <= n <= MAX_INT64 then Some(n) else None)
  {
    if n < 0 {
      ValueDigits(-n);
      assert Itoa(n)[1..] == Digits(-n);
    } else {
      ValueDigits(n);
      assert IsDigit(Itoa(n)[0]);
    }
  }

  // ---------- Zero padding ----------

  function Zeros(k: int): string
    requires k >= 0
  {
    seq(k, _ => '0')
  }

  /** At least `width` characters, zeros in front. */
  function Pad(s: string, width: int): string {
    if |s| >= width then s else Zeros(width - |s|) + s
  }

  lemma {:induction false} ValueZeros(k: nat, s: string)
    requires AllDigits(s)
    ensures AllDigits(Zeros(k) + s) && Value(Zeros(k) + s) == Value(s)
    decreases |s| + k
  {
    if s != "" {
      ValueZeros(k, s[..|s| - 1]);
      assert (Zeros(k) + s)[..k + |s| - 1] == Zeros(k) + s[..|s| - 1];
    } else if k > 0 {
      ValueZeros(k - 1, s);
      assert Zeros(k) + s == Zeros(k);
      assert Zeros(k - 1) + s == Zeros(k - 1);
      assert Zeros(k)[..k - 1] == Zeros(k - 1);
    }
  }

  lemma ValuePad(s: string, width: int)
    requires AllDigits(s) && s != ""
    ensures AllDigits(Pad(s, width)) && Value(Pad(s, width)) == Value(s)
    ensures Pad(s, width) != "" && IsDigit(Pad(s, width)[0]) && IsDigit(Pad(s, width)[|Pad(s, width)| - 1])
  {
    if |s| < width {
      ValueZeros(width - |s|, s);
    }
  }

  /** fmt.Sprintf("%0*d", width, n): the sign counts as one character of the width. */
  function PaddedItoa(width: int, n: int): string {
    if n < 0 then "-" + Pad(Digits(-n), width - 1) else Pad(Digits(n), width)
  }

  /** The integer a padded or unpadded rendering denotes. */
  function Denotes(s: string): Option<int> {
    if s != "" && s[0] == '-' then
      if AllDigits(s[1..]) then Some(0 - Value(s[1..])) else None
    else if AllDigits(s) then Some(Value(s))
    else None
  }

  /** A rendering determines its integer, whatever widths were used. */
  lemma PaddedItoaDenotes(width: int, n: int)
    ensures Denotes(PaddedItoa(width, n)) == Some(n)
    ensures PaddedItoa(width, n) != ""
    ensures IsDigit(PaddedItoa(width, n)[|PaddedItoa(width, n)| - 1])
  {
    var magnitude := if n < 0 then -n else n;
    var room := if n < 0 then width - 1 else width;
    var padded := Pad(Digits(magnitude), room);
    ValueDigits(magnitude);
    ValuePad(Digits(magnitude), room);
    if n < 0 {
      assert PaddedItoa(width, n) == "-" + padded;
      assert ("-" + padded)[1..] == padded;
    }
  }

  /** Digit strings of one length are told apart by their values. */
  lemma {:induction false} ValueDetermines(a: string, b: string)
    requires |a| == |b| && AllDigits(a) && AllDigits(b) && Value(a) == Value(b)
    ensures a == b
  {
    if a != "" {
      var x, y := a[..|a| - 1], b[..|b| - 1];
      assert Value(a) % 10 == a[|a| - 1] as int - '0' as int && Value(b) % 10 == b[|b| - 1] as int - '0' as int;
      assert Value(a) / 10 == Value(x) && Value(b) / 10 == Value(y);
      ValueDetermines(x, y);
      assert a == x + [a[|a| - 1]] && b == y + [b[|b| - 1]];
    }
  }
}
