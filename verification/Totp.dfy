/** Time-based one-time codes (RFC 6238) over HMAC-based ones (RFC 4226). HMAC-SHA-1 is a parameter. */
module Totp {
  import opened Base32
  import opened Decimal
  import opened Utf8

  const PERIOD := 30
  const DIGEST := 20

  /** The HMAC of a counter under a secret. */
  type Hmac = (Bytes, int) -> Bytes

  ghost predicate IsHmac(hmac: Hmac) {
    forall secret, counter :: |hmac(secret, counter)| == DIGEST
  }

  /** uint64(step), the two's complement of a negative step */
  function Counter(step: int): int {
    step % 0x1_0000_0000_0000_0000
  }

  function Offset(digest: Bytes): (o: nat)
    requires |digest| == DIGEST
    ensures o <= 15
  {
    digest[DIGEST - 1] as int % 16
  }

  /** Dynamic truncation, section 5.3 of RFC 4226: four bytes from the offset, the top bit masked. */
  function Truncate(digest: Bytes): (value: nat)
    requires |digest| == DIGEST
  {
    var o := Offset(digest);
    var b0: int, b1: int, b2: int, b3: int := digest[o], digest[o + 1], digest[o + 2], digest[o + 3];
    b0 % 128 * 0x100_0000 + b1 * 0x1_0000 + b2 * 0x100 + b3
  }

  function TotpCode(hmac: Hmac, secret: Bytes, step: int): string
    requires IsHmac(hmac)
  {
    PaddedItoa(6, Truncate(hmac(secret, Counter(step))) % 1_000_000)
  }

  /** The number the four bytes denote in base 256. */
  function BigEndian(s: Bytes): nat {
    if s == [] then 0 else BigEndian(s[..|s| - 1]) * 256 + s[|s| - 1]
  }

  /** The four bytes lie inside the digest, and the value is their big-endian number modulo 2^31. */
  lemma TruncateIsDynamic(digest: Bytes)
    requires |digest| == DIGEST
    ensures Offset(digest) + 4 <= DIGEST
    ensures Truncate(digest) == BigEndian(digest[Offset(digest)..Offset(digest) + 4]) % 0x8000_0000
    ensures Truncate(digest) < 0x8000_0000
  {
    var o := Offset(digest);
    var four := digest[o..o + 4];
    assert four[..3][..2] == four[..2] && four[..3][..2][..1] == four[..1] && four[..2][..1] == four[..1];
    assert four[..1][..0] == [];
    assert BigEndian(four[..1]) == four[0] as int;
    assert BigEndian(four[..2]) == four[0] as int * 256 + four[1] as int;
    assert BigEndian(four[..3]) == (four[0] as int * 256 + four[1] as int) * 256 + four[2] as int;
    var b0: int := digest[o];
    assert BigEndian(four) == b0 * 0x100_0000 + digest[o + 1] as int * 0x1_0000
                              + digest[o + 2] as int * 0x100 + digest[o + 3] as int;
    assert b0 == b0 / 128 * 128 + b0 % 128;
    assert BigEndian(four) == b0 / 128 * 0x8000_0000 + Truncate(digest);
  }

  predicate SixDigits(token: string) {
    |token| == 6 && AllDigits(token)
  }

  lemma {:induction false} DigitsFit(n: nat, k: nat)
    requires k >= 1 && n < Power10(k)
    ensures |Digits(n)| <= k
    decreases k
  {
    if n >= 10 {
      DigitsFit(n / 10, k - 1);
    }
  }

  function Power10(k: nat): nat {
    if k == 0 then 1 else 10 * Power10(k - 1)
  }

  /** A code is six digits and denotes the truncated value modulo a million. */
  lemma CodeIsSixDigits(hmac: Hmac, secret: Bytes, step: int)
    requires IsHmac(hmac)
    ensures SixDigits(TotpCode(hmac, secret, step))
    ensures Value(TotpCode(hmac, secret, step)) == Truncate(hmac(secret, Counter(step))) % 1_000_000
  {
    var n := Truncate(hmac(secret, Counter(step))) % 1_000_000;
    assert Power10(6) == 1_000_000 by {
      assert Power10(3) == 1000;
    }
    DigitsFit(n, 6);
    ValuePad(Digits(n), 6);
    ValueDigits(n);
  }

  /** Go's division, which rounds towards zero. */
  function Quotient(n: int, d: int): int
    requires d > 0
  {
    if n >= 0 then n / d else 0 - (0 - n) / d
  }

  function Step(now: int): int {
    Quotient(now, PERIOD)
  }

  function Clamp(window: int): (w: int)
    ensures 0 <= w <= 5
  {
    if window < 0 then 0 else if window > 5 then 5 else window
  }

  /** Some step within the window has the token as its code. */
  ghost predicate Matches(hmac: Hmac, secret: Bytes, token: string, window: int, now: int)
    requires IsHmac(hmac)
  {
    exists step :: Step(now) - Clamp(window) <= step <= Step(now) + Clamp(window)
                   && TotpCode(hmac, secret, step) == token
  }

  method VerifyTOTP(hmac: Hmac, text: string, token: string, window: int, now: int) returns (ok: bool)
    requires IsHmac(hmac)
    ensures ok <==> DecodeSecret(text) != [] && Matches(hmac, DecodeSecret(text), token, window, now)
    ensures ok ==> SixDigits(token)
  {
    if |token| != 6 {
      NoCode(hmac, DecodeSecret(text), token);
      return false;
    }
    for i := 0 to |token|
      invariant AllDigits(token[..i])
    {
      if token[i] < '0' || token[i] > '9' {
        NoCode(hmac, DecodeSecret(text), token);
        return false;
      }
    }
    assert token[..6] == token;
    var secret := DecodeSecret(text);
    if |secret| == 0 {
      return false;
    }
    var w := window;
    if w < 0 {
      w := 0;
    } else if w > 5 {
      w := 5;
    }
    var step := Step(now);
    for offset := 0 - w to w + 1
      invariant forall o :: step - w <= o < step + offset ==> TotpCode(hmac, secret, o) != token
    {
      if TotpCode(hmac, secret, step + offset) == token {
        return true;
      }
    }
    return false;
  }

  lemma NoCode(hmac: Hmac, secret: Bytes, token: string)
    requires IsHmac(hmac) && !SixDigits(token)
    ensures forall step :: TotpCode(hmac, secret, step) != token
  {
    forall step
      ensures TotpCode(hmac, secret, step) != token
    {
      CodeIsSixDigits(hmac, secret, step);
    }
  }

  // ---------- The window in seconds ----------

  /** A code made at t is accepted at every time within 30 seconds for each step of the window. */
  lemma AcceptedWithinWindow(hmac: Hmac, secret: Bytes, t: int, now: int, window: int)
    requires IsHmac(hmac) && -PERIOD * Clamp(window) <= now - t <= PERIOD * Clamp(window)
    ensures Matches(hmac, secret, TotpCode(hmac, secret, Step(t)), window, now)
  {
    var d := Step(now) - Step(t);
    assert -Clamp(window) <= d <= Clamp(window);
    assert TotpCode(hmac, secret, Step(t)) == TotpCode(hmac, secret, Step(t));
  }

  /** The step of the code made at t is one of those tried at `now`. */
  predicate InWindow(t: int, now: int, window: int) {
    Step(now) - Clamp(window) <= Step(t) <= Step(now) + Clamp(window)
  }

  /**
   From 30 seconds beyond the window on, the step of the code lies outside it, whichever of the two times
   is the later; for times on different sides of 1970, where the division rounds both ways to one step,
   from one second less than 60 seconds beyond on.
   */
  lemma OutsideWindow(t: int, now: int, window: int)
    ensures var w, d := Clamp(window), now - t;
            var sameSide := (0 <= t && 0 <= now) || (t <= 0 && now <= 0);
            var apart := if sameSide then PERIOD * (w + 1) else PERIOD * (w + 2) - 1;
            d >= apart || d <= -apart ==> !InWindow(t, now, window)
  {
  }

  /** Both bounds are the best: times one second closer whose step is still tried, on one side of 1970 and across it. */
  lemma OutsideBoundsAreTight(window: int)
    ensures var now := PERIOD * (Clamp(window) + 1) - 1;
            && InWindow(0, now, window) && now - 0 == PERIOD * (Clamp(window) + 1) - 1
            && InWindow(1 - PERIOD, now, window) && now - (1 - PERIOD) == PERIOD * (Clamp(window) + 2) - 2
  {
  }

  // ---------- Steps and counters ----------

  /** The counter of a step is the step itself from 1970 on, and its two's complement before. */
  lemma CounterIs(step: int)
    requires -0x8000_0000_0000_0000 <= step < 0x8000_0000_0000_0000
    ensures Counter(step) == if step >= 0 then step else 0x1_0000_0000_0000_0000 + step
  {
  }

  /** Different steps have different counters. */
  lemma CountersDiffer(a: int, b: int)
    requires -0x8000_0000_0000_0000 <= a < b < 0x8000_0000_0000_0000
    ensures Counter(a) != Counter(b)
  {
  }

  /** Windows of none to five steps are taken as they are, others cut to that range. */
  lemma WindowIs(window: int)
    ensures 0 <= window <= 5 ==> Clamp(window) == window
    ensures window < 0 ==> Clamp(window) == 0
    ensures window > 5 ==> Clamp(window) == 5
  {
  }

  /**
   Six digits that denote the HMAC's four bytes at the offset in its last half byte, without the top bit,
   modulo a million.
   */
  ghost predicate IsCode(hmac: Hmac, secret: Bytes, counter: int, token: string)
    requires IsHmac(hmac)
  {
    var digest := hmac(secret, counter);
    var offset := digest[19] as int % 16;
    && |token| == 6 && AllDigits(token)
    && Value(token) == BigEndian(digest[offset..offset + 4]) % 0x8000_0000 % 1_000_000
  }

  lemma CodeIs(hmac: Hmac, secret: Bytes, step: int, token: string)
    requires IsHmac(hmac) && 0 <= step < 0x8000_0000_0000_0000
    ensures TotpCode(hmac, secret, step) == token <==> IsCode(hmac, secret, step, token)
  {
    CounterIs(step);
    CodeIsSixDigits(hmac, secret, step);
    TruncateIsDynamic(hmac(secret, step));
    if IsCode(hmac, secret, step, token) {
      ValueDetermines(token, TotpCode(hmac, secret, step));
    }
  }

  /**
   From 1970 on and for windows of none to five steps: accepted is exactly a code of some counter at most `window`
   from the number of whole half minutes since 1970.
   */
  lemma AcceptedIs(hmac: Hmac, secret: Bytes, token: string, window: int, now: int)
    requires IsHmac(hmac) && 0 <= window <= 5 && 30 * window <= now < 0x8000_0000_0000_0000
    ensures Matches(hmac, secret, token, window, now)
            <==> exists counter :: now / 30 - window <= counter <= now / 30 + window
                                   && IsCode(hmac, secret, counter, token)
  {
    forall step | now / 30 - window <= step <= now / 30 + window
      ensures TotpCode(hmac, secret, step) == token <==> IsCode(hmac, secret, step, token)
    {
      CodeIs(hmac, secret, step, token);
    }
    WindowIs(window);
  }
}
