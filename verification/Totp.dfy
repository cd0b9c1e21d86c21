/**
  Time-based one-time passwords (auth.rs; RFC 6238 over RFC 4226). The keyed hash
  is a parameter: any function that returns twenty bytes, as HMAC-SHA1 does.
 */
module Totp {
  import opened Options
  import opened Base32
  import opened Numerals

  const STEP_SECONDS: nat := 30
  const DIGITS: nat := 6
  const MODULUS: nat := 1_000_000
  const MAX_TIME: nat := WORD - 1

  type Mac = (seq<nat>, seq<nat>) -> seq<Byte>

  ghost predicate TwentyBytes(mac: Mac) {
    forall key, message :: |mac(key, message)| == 20
  }

  // ------------------------------------------------------------ encodings

  /** `to_be_bytes`: the low `width` bytes of `n`, most significant first. */
  function BigEndian(n: nat, width: nat): (bytes: seq<nat>)
    ensures |bytes| == width
  {
    if width == 0 then [] else BigEndian(n / 256, width - 1) + [n % 256]
  }

  /** Different counters are hashed as different messages. */
  lemma {:induction false} BigEndianInjective(a: nat, b: nat, width: nat)
    requires a < Power(256, width) && b < Power(256, width) && BigEndian(a, width) == BigEndian(b, width)
    ensures a == b
  {
    if width > 0 {
      var x, y := BigEndian(a, width), BigEndian(b, width);
      assert x[..width - 1] == BigEndian(a / 256, width - 1) && y[..width - 1] == BigEndian(b / 256, width - 1);
      assert x[width - 1] == a % 256 && y[width - 1] == b % 256;
      BigEndianInjective(a / 256, b / 256, width - 1);
    }
  }

  /** The bytes of a counter, most significant first, spell it. */
  lemma {:induction false} BigEndianSpells(n: nat, width: nat)
    requires n < Power(256, width)
    ensures BytesNumber(BigEndian(n, width)) == n
    ensures forall i :: 0 <= i < width ==> BigEndian(n, width)[i] < 256
  {
    if width > 0 {
      BigEndianSpells(n / 256, width - 1);
      BytesLast(BigEndian(n / 256, width - 1), n % 256);
    }
  }

  predicate IsDecimal(s: string) {
    forall i :: 0 <= i < |s| ==> '0' <= s[i] <= '9'
  }

  /** Zero-padded decimal of fixed width. */
  function Decimal(n: nat, width: nat): (s: string)
    ensures |s| == width && IsDecimal(s)
  {
    if width == 0 then "" else Decimal(n / 10, width - 1) + ['0' + (n % 10) as char]
  }

  function DecimalValue(s: string): nat
    requires IsDecimal(s)
  {
    if s == "" then 0
    else
      DecimalValue(s[..|s| - 1]) * 10 + (s[|s| - 1] as int - '0' as int)
  }

  /** Formatting loses nothing below the modulus. */
  lemma {:induction false} DecimalFaithful(n: nat, width: nat)
    requires n < Power(10, width)
    ensures DecimalValue(Decimal(n, width)) == n
  {
    if width > 0 {
      DecimalFaithful(n / 10, width - 1);
      var s := Decimal(n, width);
      assert s[..|s| - 1] == Decimal(n / 10, width - 1);
    }
  }

  // -------------------------------------------------------------- one code

  /** Dynamic truncation, section 5.3 of RFC 4226. */
  function Truncate(digest: seq<Byte>): (binary: nat)
    requires |digest| == 20
    ensures binary < 0x8000_0000
  {
    var offset := digest[19] % 16;
    var a: int, b: int, c: int, d: int := digest[offset], digest[offset + 1], digest[offset + 2], digest[offset + 3];
    a % 128 * 0x100_0000 + b * 0x1_0000 + c * 0x100 + d
  }

  /** The code of one time step. */
  function CodeAt(mac: Mac, secret: string, counter: nat): (code: Option<string>)
    requires TwentyBytes(mac)
    ensures code.Some? <==> Decoded(secret).Some?
    ensures code.Some? ==> |code.value| == DIGITS && IsDecimal(code.value)
  {
    var key :- Decoded(secret);
    Some(Decimal(Truncate(mac(key, BigEndian(counter, 8))) % MODULUS, DIGITS))
  }

  /** `totp_code`. */
  function TotpCode(mac: Mac, secret: string, time: nat): Option<string>
    requires TwentyBytes(mac)
  {
    CodeAt(mac, secret, time / STEP_SECONDS)
  }

  /** Dynamic truncation takes the four bytes at the offset in the last nibble, without the sign bit. */
  lemma TruncateTakesFourBytes(digest: seq<Byte>)
    requires |digest| == 20
    ensures var o := digest[19] % 16;
            Truncate(digest) == BytesNumber([digest[o] % 128, digest[o + 1], digest[o + 2], digest[o + 3]])
  {
    var o := digest[19] % 16;
    var a: nat, b: nat, c: nat, d: nat := digest[o] % 128, digest[o + 1], digest[o + 2], digest[o + 3];
    SpelledFour(a, b, c, d);
  }

  lemma SpelledFour(a: nat, b: nat, c: nat, d: nat)
    ensures BytesNumber([a, b, c, d]) == a * 0x100_0000 + b * 0x1_0000 + c * 0x100 + d
  {
    BytesLast([], a);
    BytesLast([a], b);
    BytesLast([a, b], c);
    BytesLast([a, b, c], d);
    assert [] + [a] == [a] && [a] + [b] == [a, b] && [a, b] + [c] == [a, b, c] && [a, b, c] + [d] == [a, b, c, d];
  }

  /** The code at a time reads, in decimal, the truncated hash of the secret over the step, modulo a million. */
  lemma CodeIsTruncatedMac(mac: Mac, secret: string, time: nat)
    requires TwentyBytes(mac) && Decoded(secret).Some? && time <= MAX_TIME
    ensures TotpCode(mac, secret, time).Some?
    ensures exists message: seq<nat> ::
              && |message| == 8 && BytesNumber(message) * 30 <= time < BytesNumber(message) * 30 + 30
              && (forall i :: 0 <= i < 8 ==> message[i] < 256)
              && DecimalValue(TotpCode(mac, secret, time).value)
                 == Truncate(mac(Decoded(secret).value, message)) % 1_000_000
  {
    var message := BigEndian(time / STEP_SECONDS, 8);
    PowersOfTwo();
    BigEndianSpells(time / STEP_SECONDS, 8);
    PowersOfTen();
    DecimalFaithful(Truncate(mac(Decoded(secret).value, message)) % MODULUS, DIGITS);
  }

  lemma PowersOfTwo()
    ensures Power(256, 8) == WORD
  {
    assert Power(256, 1) == 256 && Power(256, 2) == 0x1_0000 && Power(256, 3) == 0x100_0000;
    assert Power(256, 4) == 0x1_0000_0000 && Power(256, 5) == 0x100_0000_0000;
    assert Power(256, 6) == 0x1_0000_0000_0000 && Power(256, 7) == 0x100_0000_0000_0000;
  }

  lemma PowersOfTen()
    ensures Power(10, 6) == MODULUS
  {
    assert Power(10, 1) == 10 && Power(10, 2) == 100 && Power(10, 3) == 1000;
    assert Power(10, 4) == 10000 && Power(10, 5) == 100000;
  }

  /** Equal codes are equal truncated values: six digits show all of the remainder. */
  lemma CodesShowTheRemainder(mac: Mac, secret: string, a: nat, b: nat)
    requires TwentyBytes(mac) && Decoded(secret).Some?
    ensures var key := Decoded(secret).value;
            CodeAt(mac, secret, a) == CodeAt(mac, secret, b)
            <==> Truncate(mac(key, BigEndian(a, 8))) % MODULUS == Truncate(mac(key, BigEndian(b, 8))) % MODULUS
  {
    var key := Decoded(secret).value;
    PowersOfTen();
    DecimalFaithful(Truncate(mac(key, BigEndian(a, 8))) % MODULUS, DIGITS);
    DecimalFaithful(Truncate(mac(key, BigEndian(b, 8))) % MODULUS, DIGITS);
  }

  // ---------------------------------------------------------- verification

  /** `saturating_add_signed` on 64-bit seconds. */
  function Saturate(time: int): nat {
    if time < 0 then 0 else if time > MAX_TIME then MAX_TIME else time
  }

  /** The steps a code may come from: the current one and its neighbours, clamped. */
  function Window3(counter: nat): set<nat> {
    {if counter == 0 then 0 else counter - 1,
     counter,
     if counter == MAX_TIME / STEP_SECONDS then counter else counter + 1}
  }

  /** The step tried for one drift of the loop. */
  function DriftedStep(time: nat, drift: int): nat {
    Saturate(time + drift * STEP_SECONDS) / STEP_SECONDS
  }

  lemma DriftedSteps(time: nat)
    requires time <= MAX_TIME
    ensures Window3(time / STEP_SECONDS) == {DriftedStep(time, -1), DriftedStep(time, 0), DriftedStep(time, 1)}
  {
    assert (time + 30) / 30 == time / 30 + 1;
    if time >= 30 {
      assert (time - 30) / 30 == time / 30 - 1;
    }
    if time + 30 > MAX_TIME {
      assert MAX_TIME / 30 == time / 30 || MAX_TIME / 30 == time / 30 + 1;
    }
  }

  predicate AcceptedAt(mac: Mac, secret: string, code: string, counter: nat)
    requires TwentyBytes(mac)
  {
    CodeAt(mac, secret, counter) == Some(code)
  }

  /** A code is that of a step in the window exactly when one of the three drifts finds it. */
  lemma WindowIsDrifts(mac: Mac, secret: string, code: string, time: nat)
    requires TwentyBytes(mac) && time <= MAX_TIME
    ensures (exists c <- Window3(time / STEP_SECONDS) :: AcceptedAt(mac, secret, code, c))
            <==> exists d :: -1 <= d < 2 && AcceptedAt(mac, secret, code, DriftedStep(time, d))
  {
    DriftedSteps(time);
    ThreeDrifts(time, Window3(time / STEP_SECONDS), (counter: nat) => AcceptedAt(mac, secret, code, counter));
  }

  lemma ThreeDrifts(time: nat, window: set<nat>, accepted: nat -> bool)
    requires window == {DriftedStep(time, -1), DriftedStep(time, 0), DriftedStep(time, 1)}
    ensures (exists c <- window :: accepted(c)) <==> exists d :: -1 <= d < 2 && accepted(DriftedStep(time, d))
  {
    if c :| c in window && accepted(c) {
      assert c == DriftedStep(time, -1) || c == DriftedStep(time, 0) || c == DriftedStep(time, 1);
    }
  }

  /** `verify_totp`: the code of a step in the window, and nothing else, is accepted. */
  method VerifyTotp(mac: Mac, secret: string, code: string, time: nat) returns (ok: bool)
    requires TwentyBytes(mac) && time <= MAX_TIME
    ensures ok <==> exists c <- Window3(time / STEP_SECONDS) :: AcceptedAt(mac, secret, code, c)
  {
    WindowIsDrifts(mac, secret, code, time);
    ok := SearchDrifts(mac, secret, code, time);
  }

  /** The loop over the drifts. */
  method SearchDrifts(mac: Mac, secret: string, code: string, time: nat) returns (ok: bool)
    requires TwentyBytes(mac) && time <= MAX_TIME
    ensures ok <==> exists d :: -1 <= d < 2 && AcceptedAt(mac, secret, code, DriftedStep(time, d))
  {
    if |code| != DIGITS {
      return false;
    }
    for drift := -1 to 2
      invariant forall d :: -1 <= d < drift ==> !AcceptedAt(mac, secret, code, DriftedStep(time, d))
    {
      if TotpCode(mac, secret, Saturate(time + drift * STEP_SECONDS)) == Some(code) {
        assert AcceptedAt(mac, secret, code, DriftedStep(time, drift));
        return true;
      }
    }
    return false;
  }

  /** A code issued at `issued` is accepted throughout the half minute on either side. */
  lemma WindowCoversDrift(issued: nat, time: nat)
    requires issued <= MAX_TIME && time <= MAX_TIME && issued <= time + 30 && time <= issued + 30
    ensures issued / STEP_SECONDS in Window3(time / STEP_SECONDS)
  {
    assert time / 30 <= (issued + 30) / 30 == issued / 30 + 1;
    assert issued / 30 <= (time + 30) / 30 == time / 30 + 1;
    assert issued / 30 <= MAX_TIME / 30;
  }

  /** So a code that was right when it was issued is accepted throughout the half minute on either side. */
  lemma IssuedCodeAccepted(mac: Mac, secret: string, code: string, issued: nat, time: nat)
    requires TwentyBytes(mac) && TotpCode(mac, secret, issued) == Some(code)
    requires issued <= MAX_TIME && time <= MAX_TIME && issued <= time + 30 && time <= issued + 30
    ensures exists c <- Window3(time / STEP_SECONDS) :: AcceptedAt(mac, secret, code, c)
  {
    WindowCoversDrift(issued, time);
    assert AcceptedAt(mac, secret, code, issued / STEP_SECONDS);
  }

  /** Beyond two steps the issuing step is out of the window. */
  lemma WindowEnds(issued: nat, time: nat)
    requires issued <= MAX_TIME && time <= MAX_TIME && (issued + 60 <= time || time + 60 <= issued)
    ensures issued / STEP_SECONDS !in Window3(time / STEP_SECONDS)
  {
    if issued + 60 <= time {
      assert issued / 30 + 2 == (issued + 60) / 30 <= time / 30;
    } else {
      assert time / 30 + 2 == (time + 60) / 30 <= issued / 30;
    }
  }
}
