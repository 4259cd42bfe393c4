/** One-time passwords (src/utils/otp.ts): a zero-padded decimal code and an
    expiry instant, plus the expiry test the auth service applies to it. */
module Otp {
  import opened Common
  import opened Text

  /** Digits in a code when `generateOTP` is called without an argument. */
  const DefaultLength: nat := 4

  /** Minutes of validity when `otpExpiry` is called without an argument. */
  const DefaultMinutes: nat := 10

  const MillisPerMinute: nat := 60 * 1000

  /** `generateOTP(length)`. The random draw `Math.floor(Math.random() *
      10 ** length)` is the parameter `draw`; `Math.random()` lies in [0, 1),
      so the draw is below `10 ** length`. */
  function GenerateOtp(draw: nat, length: nat): (otp: string)
    requires draw < Pow10(length)
    ensures AllDigits(otp)
    ensures |otp| == if length == 0 then 1 else length
  {
    var digits := NatToDecimal(draw);
    assert length >= 1 ==> |digits| <= length by {
      if length >= 1 { NatToDecimalLength(draw, length); }
    }
    PadStart(digits, length, '0')
  }

  /** `generateOTP()` with its default length of four. */
  function GenerateDefaultOtp(draw: nat): (otp: string)
    requires draw < 10000
    ensures |otp| == 4 && AllDigits(otp)
  {
    assert Pow10(DefaultLength) == 10000;
    GenerateOtp(draw, DefaultLength)
  }

  /** Reading the code back as a decimal number gives the draw: the
      leading zeros `padStart` adds carry no value. */
  lemma {:induction false} OtpRoundTrip(draw: nat, length: nat)
    requires draw < Pow10(length)
    ensures DecimalValue(GenerateOtp(draw, length)) == draw
  {
    var digits := NatToDecimal(draw);
    NatToDecimalRoundTrip(draw);
    if |digits| < length {
      var zeros := Repeat('0', length - |digits|);
      assert GenerateOtp(draw, length) == zeros + digits;
      ZerosHaveNoValue(length - |digits|);
      DecimalValueAppend(zeros, digits);
      assert DecimalValue(zeros) * Pow10(|digits|) == 0;
    } else {
      assert GenerateOtp(draw, length) == digits;
    }
  }

  lemma {:induction false} ZerosHaveNoValue(n: nat)
    ensures AllDigits(Repeat('0', n)) && DecimalValue(Repeat('0', n)) == 0
  {
    if n > 0 {
      var z := Repeat('0', n);
      assert z[..n - 1] == Repeat('0', n - 1);
      ZerosHaveNoValue(n - 1);
    }
  }

  /** Distinct draws give distinct codes, so a code identifies its draw. */
  lemma OtpInjective(a: nat, b: nat, length: nat)
    requires a < Pow10(length) && b < Pow10(length)
    requires GenerateOtp(a, length) == GenerateOtp(b, length)
    ensures a == b
  {
    OtpRoundTrip(a, length);
    OtpRoundTrip(b, length);
  }

  /** `otpExpiry(minutes)` evaluated when the clock reads `now` (milliseconds). */
  function OtpExpiry(now: int, minutes: nat): (r: int)
    ensures r >= now
    ensures (r - now) % MillisPerMinute == 0 && (r - now) / MillisPerMinute == minutes
  {
    now + minutes * MillisPerMinute
  }

  /** The auth service's test `user.otpExpiresAt! < new Date()`. A cleared
      (null) expiry compares as the instant 0. */
  predicate Expired(expiresAt: Option<int>, now: int): (b: bool)
    ensures expiresAt.Some? ==> (b <==> expiresAt.value < now)
    ensures expiresAt.None? ==> (b <==> now > 0)
  {
    expiresAt.GetOr(0) < now
  }

  /** A code issued at `issued` with the default lifetime is accepted exactly
      up to and including the instant ten minutes later. */
  lemma DefaultValidityWindow(issued: int, now: int)
    ensures !Expired(Some(OtpExpiry(issued, DefaultMinutes)), now) <==> now <= issued + 600000
  {
  }

  /** A code is never expired at the instant it is issued, whatever its
      lifetime. */
  lemma FreshCodeNotExpired(issued: int, minutes: nat)
    ensures !Expired(Some(OtpExpiry(issued, minutes)), issued)
  {
  }

  /** Expiry is monotone in time: once expired, a code stays expired. */
  lemma ExpiredStaysExpired(expiresAt: Option<int>, now: int, later: int)
    requires Expired(expiresAt, now) && now <= later
    ensures Expired(expiresAt, later)
  {
  }
}
