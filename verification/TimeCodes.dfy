/** Six-digit codes from a shared secret: the counter's code (RFC 4226) and the check of a typed code
    against the steps around the present one (RFC 6238).  HMAC-SHA1 is a parameter. */
module TimeCodes {
  import opened Base32
  import opened Wrappers

  const DIGITS := 6
  const STEP_MS := 30000
  const WINDOW := 1

  newtype Byte = n: int | 0 <= n < 256

  /** HMAC-SHA1 answers twenty bytes. */
  type Hmac = f: (seq<bv8>, seq<Byte>) -> seq<Byte> | forall secret, buf :: |f(secret, buf)| == 20
    witness (_, _) => seq(20, _ => 0)

  // ----- The counter as eight bytes ----------------------------------------------------------------

  /** The number a sequence of bytes stands for, most significant first. */
  function BytesNumber(bytes: seq<Byte>): nat {
    if |bytes| == 0 then 0 else 256 * BytesNumber(bytes[..|bytes| - 1]) + bytes[|bytes| - 1] as nat
  }

  /** One 32-bit half of the buffer. */
  method WriteUInt32(buf: array<Byte>, value: nat, at: nat)
    requires value < 0x1_0000_0000 && at + 4 <= buf.Length
    modifies buf
    ensures forall i :: 0 <= i < buf.Length && !(at <= i < at + 4) ==> buf[i] == old(buf[i])
    ensures BytesNumber(buf[at..at + 4]) == value
  {
    buf[at] := (value / 0x100_0000) as Byte;
    buf[at + 1] := (value / 0x1_0000 % 256) as Byte;
    buf[at + 2] := (value / 0x100 % 256) as Byte;
    buf[at + 3] := (value % 256) as Byte;
    FourBytes(buf[at..at + 4]);
    Quarters(value);
  }

  lemma Quarters(value: nat)
    ensures 256 * (256 * (256 * (value / 0x100_0000) + value / 0x1_0000 % 256) + value / 0x100 % 256) + value % 256
      == value
  {
    var a := value / 0x100;
    SecondByte(value);
    SecondByte(a);
    var b := a / 0x100;
    assert 256 * (b / 0x100) + b % 256 == b && 256 * b + a % 256 == a && 256 * a + value % 256 == value;
  }

  lemma SecondByte(value: nat)
    ensures value / 0x1_0000 == value / 0x100 / 0x100 && value / 0x100_0000 == value / 0x100 / 0x1_0000
  {}

  lemma OneMoreByte(b: seq<Byte>, x: Byte)
    ensures BytesNumber(b + [x]) == 256 * BytesNumber(b) + x as nat
  {
    assert (b + [x])[..|b|] == b;
  }

  lemma FourMoreBytes(a: seq<Byte>, b: seq<Byte>)
    requires |b| == 4
    ensures BytesNumber(a + b)
      == 256 * (256 * (256 * (256 * BytesNumber(a) + b[0] as nat) + b[1] as nat) + b[2] as nat) + b[3] as nat
  {
    hide BytesNumber;
    OneMoreByte(a, b[0]);
    OneMoreByte(a + [b[0]], b[1]);
    OneMoreByte(a + [b[0]] + [b[1]], b[2]);
    OneMoreByte(a + [b[0]] + [b[1]] + [b[2]], b[3]);
    assert a + b == a + [b[0]] + [b[1]] + [b[2]] + [b[3]];
  }

  lemma FourBytes(b: seq<Byte>)
    requires |b| == 4
    ensures BytesNumber(b) == 256 * (256 * (256 * b[0] as nat + b[1] as nat) + b[2] as nat) + b[3] as nat
  {
    FourMoreBytes([], b);
    assert [] + b == b;
  }

  lemma TwoHalves(a: seq<Byte>, b: seq<Byte>)
    requires |b| == 4
    ensures BytesNumber(a + b) == 0x1_0000_0000 * BytesNumber(a) + BytesNumber(b)
  {
    FourMoreBytes(a, b);
    FourBytes(b);
    hide BytesNumber;
  }

  /** The counter written in two halves is the counter in eight bytes. */
  method CounterBytes(counter: nat) returns (buf: array<Byte>)
    requires counter / 0x1_0000_0000 < 0x1_0000_0000
    ensures fresh(buf) && buf.Length == 8 && BytesNumber(buf[..]) == counter
  {
    buf := new Byte[8](_ => 0);
    WriteUInt32(buf, counter / 0x1_0000_0000, 0);
    ghost var high := buf[0..4];
    WriteUInt32(buf, counter % 0x1_0000_0000, 4);
    assert buf[0..4] == high;
    TwoHalves(buf[0..4], buf[4..8]);
    assert buf[..] == buf[0..4] + buf[4..8];
  }

  /** Eight bytes are told by their number. */
  lemma {:induction false} BytesInjective(a: seq<Byte>, b: seq<Byte>)
    requires |a| == |b| && BytesNumber(a) == BytesNumber(b)
    ensures a == b
  {
    if |a| > 0 {
      var n := |a| - 1;
      var x, y := BytesNumber(a[..n]), BytesNumber(b[..n]);
      assert 256 * x + a[n] as int == 256 * y + b[n] as int;
      BytesInjective(a[..n], b[..n]);
      assert a == a[..n] + [a[n]] && b == b[..n] + [b[n]];
    }
  }

  /** The first byte counts most. */
  lemma EightBytes(b: seq<Byte>)
    requires |b| == 8
    ensures BytesNumber(b) ==
        b[0] as int * 0x100_0000_0000_0000 + b[1] as int * 0x1_0000_0000_0000 + b[2] as int * 0x100_0000_0000
        + b[3] as int * 0x1_0000_0000 + b[4] as int * 0x100_0000 + b[5] as int * 0x1_0000 + b[6] as int * 0x100
        + b[7] as int
  {
    assert b == b[..4] + b[4..];
    TwoHalves(b[..4], b[4..]);
    FourBytes(b[..4]);
    FourBytes(b[4..]);
    hide BytesNumber;
  }

  // ----- Decimal digits -----------------------------------------------------------------------------

  predicate IsDigit(c: char) { '0' <= c <= '9' }

  function DecimalNumber(s: string): nat
    requires forall i :: 0 <= i < |s| ==> IsDigit(s[i])
  {
    if |s| == 0 then 0
    else
      assert IsDigit(s[|s| - 1]);
      10 * DecimalNumber(s[..|s| - 1]) + (s[|s| - 1] - '0') as nat
  }

  /** String(n).padStart(digits, "0") for a number of at most that many digits. */
  function Padded(n: nat, digits: nat): (s: string)
    ensures |s| == digits && forall i :: 0 <= i < |s| ==> IsDigit(s[i])
  {
    if digits == 0 then "" else Padded(n / 10, digits - 1) + ['0' + (n % 10) as char]
  }

  function TenTo(n: nat): (r: nat)
    ensures r > 0
  {
    if n == 0 then 1 else 10 * TenTo(n - 1)
  }

  /** The code reads back as the number it was made from. */
  lemma {:induction false} PaddedRoundTrip(n: nat, digits: nat)
    requires n < TenTo(digits)
    ensures DecimalNumber(Padded(n, digits)) == n
  {
    if digits > 0 {
      PaddedRoundTrip(n / 10, digits - 1);
      assert Padded(n, digits)[..digits - 1] == Padded(n / 10, digits - 1);
    }
  }

  // ----- The code of a counter --------------------------------------------------------------------------

  /** The 31 bits of the digest at the place its last nibble names. */
  function Truncated(digest: seq<Byte>): (n: nat)
    requires |digest| == 20
    ensures n < 0x8000_0000
  {
    var offset := digest[19] as int % 16;
    (digest[offset] as nat % 128) * 0x100_0000 + digest[offset + 1] as nat * 0x1_0000
      + digest[offset + 2] as nat * 0x100
    + digest[offset + 3] as nat
  }

  /** Four bytes from the place on that the last one names, most significant first, without the topmost bit. */
  lemma TruncatedIsRead(digest: seq<Byte>)
    requires |digest| == 20
    ensures var at := digest[19] as int % 16; Truncated(digest) == BytesNumber(digest[at..at + 4]) % 0x8000_0000
  {
    var at := digest[19] as int % 16;
    FourBytes(digest[at..at + 4]);
    hide BytesNumber;
  }

  /** The worked example in section 5.4 of RFC 4226: the digest, the number in it and its code. */
  lemma KnownNumber()
    ensures var digest: seq<Byte> := [0x1f, 0x86, 0x98, 0x69, 0x0e, 0x02, 0xca, 0x16, 0x61, 0x85, 0x50, 0xef, 0x7f,
                                      0x19, 0xda, 0x8e, 0x94, 0x5b, 0x55, 0x5a];
      Truncated(digest) == 0x50ef7f19
  {}

  lemma KnownCode()
    ensures Padded(0x50ef7f19 % 1_000_000, 6) == "872921"
  {
    assert 0x50ef7f19 % 1_000_000 == 872921;
    assert Padded(8, 1) == "8" by {
      assert Padded(0, 0) == "";
    }
    PaddedStep(87, 1, '7');
    PaddedStep(872, 2, '2');
    PaddedStep(8729, 3, '9');
    PaddedStep(87292, 4, '2');
    PaddedStep(872921, 5, '1');
    hide Padded;
  }

  lemma PaddedStep(n: nat, digits: nat, last: char)
    requires last as int == '0' as int + n % 10
    ensures Padded(n, digits + 1) == Padded(n / 10, digits) + [last]
  {}

  /** The code of a counter, from the one buffer of eight bytes that stands for it. */
  ghost predicate IsCode(hmac: Hmac, secret: seq<bv8>, counter: nat, code: string) {
    exists buf: seq<Byte> ::
      |buf| == 8 && BytesNumber(buf) == counter && code == Padded(Truncated(hmac(secret, buf)) % 1_000_000, DIGITS)
  }

  method Hotp(hmac: Hmac, secret: seq<bv8>, counter: nat) returns (code: string)
    requires counter / 0x1_0000_0000 < 0x1_0000_0000
    ensures IsCode(hmac, secret, counter, code)
    ensures |code| == DIGITS && forall i :: 0 <= i < |code| ==> IsDigit(code[i])
  {
    var buf := CounterBytes(counter);
    var digest := hmac(secret, buf[..]);
    var offset := digest[|digest| - 1] as int % 16;
    var binary := (digest[offset] as nat % 128) * 0x100_0000 + digest[offset + 1] as nat * 0x1_0000
                  + digest[offset + 2] as nat * 0x100 + digest[offset + 3] as nat;
    code := Padded(binary % 1_000_000, DIGITS);
    assert binary == Truncated(hmac(secret, buf[..]));
  }

  /** A counter has one code, and it is the decimal form of the truncated digest modulo a million. */
  lemma CodeIsUnique(hmac: Hmac, secret: seq<bv8>, counter: nat, a: string, b: string)
    requires IsCode(hmac, secret, counter, a) && IsCode(hmac, secret, counter, b)
    ensures a == b && |a| == 6
    ensures forall i :: 0 <= i < |a| ==> IsDigit(a[i])
    ensures exists buf: seq<Byte> ::
      |buf| == 8 && BytesNumber(buf) == counter && DecimalNumber(a) == Truncated(hmac(secret, buf)) % 1_000_000
  {
    var x: seq<Byte> :| |x| == 8 && BytesNumber(x) == counter
      && a == Padded(Truncated(hmac(secret, x)) % 1_000_000, DIGITS);
    var y: seq<Byte> :| |y| == 8 && BytesNumber(y) == counter
      && b == Padded(Truncated(hmac(secret, y)) % 1_000_000, DIGITS);
    BytesInjective(x, y);
    assert TenTo(2) == 100 && TenTo(4) == 10_000 && TenTo(6) == 1_000_000;
    hide Truncated, BytesNumber, Padded, DecimalNumber;
    PaddedRoundTrip(Truncated(hmac(secret, x)) % 1_000_000, DIGITS);
  }

  // ----- Checking a typed code ---------------------------------------------------------------------------

  /** The typed code without anything that is not a digit. */
  function OnlyDigits(code: string): string {
    if |code| == 0 then ""
    else OnlyDigits(code[..|code| - 1]) + (if IsDigit(code[|code| - 1]) then [code[|code| - 1]] else "")
  }

  /** Digits stay in their order, and whatever stands between them goes. */
  lemma {:induction false} OnlyDigitsConcat(a: string, b: string)
    ensures OnlyDigits(a + b) == OnlyDigits(a) + OnlyDigits(b)
  {
    hide IsDigit;
    if |b| > 0 {
      OnlyDigitsConcat(a, b[..|b| - 1]);
      assert (a + b)[..|a + b| - 1] == a + b[..|b| - 1];
    } else {
      assert a + b == a;
    }
  }

  lemma OnlyDigitsOfOne(c: char)
    ensures OnlyDigits([c]) == if c in "0123456789" then [c] else ""
  {
    assert [c][..0] == "";
    assert c in "0123456789" <==> IsDigit(c) by {
      if IsDigit(c) {
        assert "0123456789"[c as int - 48] == c;
      }
    }
  }

  function CurrentStep(atMs: nat): nat { atMs / STEP_MS }

  /** The step whose code was typed, looking one step back, at the present one, and one ahead.  Nothing is
      accepted outside that window, nothing in it is missed, and of several the earliest is told. */
  method VerifyTotp(hmac: Hmac, secretB32: string, code: string, atMs: nat) returns (step: Option<nat>)
    requires CurrentStep(atMs) < 0x20_0000_0000_0000
    ensures step.Some? ==>
      && InAlphabet(Clean(secretB32)) && CurrentStep(atMs) - WINDOW <= step.value <= CurrentStep(atMs) + WINDOW
      && exists secret :: Decodes(secret, Clean(secretB32)) && IsCode(hmac, secret, step.value, OnlyDigits(code))
    ensures |OnlyDigits(code)| == DIGITS && InAlphabet(Clean(secretB32)) ==>
      exists secret :: Decodes(secret, Clean(secretB32))
        && forall s: nat ::
             (CurrentStep(atMs) - WINDOW <= s <= CurrentStep(atMs) + WINDOW && (step.None? || s < step.value)
              ==> !IsCode(hmac, secret, s, OnlyDigits(code)))
  {
    hide IsCode, Decodes, InAlphabet, Clean, OnlyDigits;
    step := None;
    var digits := OnlyDigits(code);
    var decoded := Base32Decode(secretB32);
    if |digits| != DIGITS || decoded.Err? {
      return None;
    }
    var secret := decoded.value;
    var now: int := CurrentStep(atMs);
    for offset := -WINDOW to WINDOW + 1
      invariant forall s: nat :: now - WINDOW <= s < now + offset ==> !IsCode(hmac, secret, s, digits)
    {
      if now + offset >= 0 {
        var expected := Hotp(hmac, secret, now + offset);
        if expected == digits {
          return Some(now + offset);
        }
        NotTheCode(hmac, secret, now + offset, expected, digits);
      }
    }
  }

  lemma NotTheCode(hmac: Hmac, secret: seq<bv8>, counter: nat, code: string, other: string)
    requires IsCode(hmac, secret, counter, code) && code != other
    ensures !IsCode(hmac, secret, counter, other)
  {
    hide IsCode;
    if IsCode(hmac, secret, counter, other) {
      CodeIsUnique(hmac, secret, counter, code, other);
    }
  }

  /** A code is good from thirty seconds before its step begins until sixty seconds after. */
  lemma CodeLifetime(atMs: nat, step: nat)
    ensures CurrentStep(atMs) - WINDOW <= step <= CurrentStep(atMs) + WINDOW
       <==> step * 30000 - 30000 <= atMs < step * 30000 + 60000
  {
    assert atMs == CurrentStep(atMs) * 30000 + atMs % 30000;
  }
}
