/** Base32 (RFC 4648, section 6, unpadded) with the source's 32-bit accumulator, which is shifted but
    never masked, so that old bits run off its top. */
module Base32 {
  import opened BitStream
  import opened Wrappers

  const ALPHABET := "ABCDEFGHIJKLMNOPQRSTUVWXYZ234567"

  // ----- Digits ---------------------------------------------------------------------------

  /** A digit is a number below 32. */
  function DigitChar(d: bv32): char
    requires d < 32
  {
    ALPHABET[d as int]
  }

  /** B32.indexOf: the place of a character in the alphabet from k on. */
  function IndexFrom(c: char, k: nat): (r: Option<nat>)
    requires k <= |ALPHABET|
    ensures r.Some? ==> k <= r.value < 32 && ALPHABET[r.value] == c
    ensures r.None? ==> forall i :: k <= i < |ALPHABET| ==> ALPHABET[i] != c
    decreases |ALPHABET| - k
  {
    if k == |ALPHABET| then None
    else if ALPHABET[k] == c then Some(k)
    else IndexFrom(c, k + 1)
  }

  function DigitOf(c: char): (r: Option<bv32>)
    ensures r.Some? ==> r.value < 32
  {
    match IndexFrom(c, 0)
    case None => None
    case Some(i) => Some(i as bv32)
  }

  lemma AlphabetOrder(i: nat)
    requires i < |ALPHABET|
    ensures ALPHABET[i] as int == if i < 26 then 'A' as int + i else '2' as int + (i - 26)
  {}

  lemma AlphabetDistinct(i: nat, j: nat)
    requires i < |ALPHABET| && j < |ALPHABET| && ALPHABET[i] == ALPHABET[j]
    ensures i == j
  {
    AlphabetOrder(i);
    AlphabetOrder(j);
  }

  lemma DigitRoundTrip(d: bv32)
    requires d < 32
    ensures DigitOf(DigitChar(d)) == Some(d)
  {
    var r := IndexFrom(DigitChar(d), 0);
    assert r.Some?;
    AlphabetDistinct(r.value, d as int);
  }

  // ----- Bits of the accumulator --------------------------------------------------------------

  function Mask(j: nat): bv32
    requires j < 13
  {
    if j == 0 then 0x1 else if j == 1 then 0x2 else if j == 2 then 0x4 else if j == 3 then 0x8
    else if j == 4 then 0x10 else if j == 5 then 0x20 else if j == 6 then 0x40 else if j == 7 then 0x80
    else if j == 8 then 0x100 else if j == 9 then 0x200 else if j == 10 then 0x400 else if j == 11 then 0x800
    else 0x1000
  }

  /** Bit j of a word, from the least significant. */
  predicate Bit(w: bv32, j: nat)
    requires j < 13
  {
    w & Mask(j) != 0
  }

  /** The low bits of the accumulator are the bits not yet written out, most significant first. */
  ghost predicate Holds(w: bv32, rest: seq<bool>) {
    |rest| <= 12 && forall k: nat :: k < |rest| ==> Bit(w, |rest| - 1 - k) == rest[k]
  }

  lemma ShiftIn8(w: bv32, b: bv8, j: nat)
    requires j < 12
    ensures Bit((w << 8) | (b as bv32), j) == if j < 8 then BitAt(b, 7 - j) else Bit(w, j - 8)
  {}

  /** (w << 5) | d. */
  function WithDigit(w: bv32, d: bv32): bv32 { (w << 5) | d }

  lemma ShiftIn5(w: bv32, d: bv32, j: nat)
    requires j < 12 && d < 32
    ensures Bit(WithDigit(w, d), j) == if j < 5 then Bit(d, j) else Bit(w, j - 5)
  {}

  /** w >>> 1 and w << 1. */
  function Half(w: bv32): bv32 { w >> 1 }

  function Double(w: bv32): bv32 { w << 1 }

  /** w >>> k. */
  function Shr(w: bv32, k: nat): bv32 {
    if k == 0 then w else Half(Shr(w, k - 1))
  }

  /** w << k. */
  function Shl(w: bv32, k: nat): bv32 {
    if k == 0 then w else Double(Shl(w, k - 1))
  }

  lemma BitOfHalf(w: bv32, j: nat)
    requires j < 12
    ensures Bit(Half(w), j) == Bit(w, j + 1)
  {}

  lemma BitOfDouble(w: bv32, j: nat)
    requires j < 11
    ensures Bit(Double(w), j + 1) == Bit(w, j)
    ensures !Bit(Double(w), 0)
  {}

  lemma {:induction false} BitOfShr(w: bv32, k: nat, j: nat)
    requires k + j < 13
    ensures Bit(Shr(w, k), j) == Bit(w, k + j)
  {
    hide Bit, Half;
    if k > 0 {
      BitOfHalf(Shr(w, k - 1), j);
      BitOfShr(w, k - 1, j + 1);
    }
  }

  lemma {:induction false} BitOfShl(w: bv32, k: nat, j: nat)
    requires k < 5 && j < 12
    ensures Bit(Shl(w, k), j) == (j >= k && Bit(w, j - k))
  {
    hide Bit, Double;
    if k > 0 {
      if j > 0 {
        BitOfDouble(Shl(w, k - 1), j - 1);
        BitOfShl(w, k - 1, j - 1);
      } else {
        BitOfDouble(Shl(w, k - 1), 0);
      }
    }
  }

  lemma LowFive(v: bv32, j: nat)
    requires j < 5
    ensures v & 31 < 32 && Bit(v & 31, j) == Bit(v, j)
  {}

  /** v & 0xff, as a byte. */
  function LowByte(v: bv32): bv8 { (v & 0xff) as bv8 }

  lemma LowEight(v: bv32, j: nat)
    requires j < 8
    ensures BitAt(LowByte(v), 7 - j) == Bit(v, j)
  {}

  // ----- Text as bits ---------------------------------------------------------------------------

  ghost function DigitBits(d: bv32): (bits: seq<bool>)
    ensures |bits| == 5
  {
    [Bit(d, 4), Bit(d, 3), Bit(d, 2), Bit(d, 1), Bit(d, 0)]
  }

  predicate InAlphabet(s: string) { forall i :: 0 <= i < |s| ==> DigitOf(s[i]).Some? }

  /** Five bits for every character. */
  ghost function TextBits(s: string): (bits: seq<bool>)
    requires InAlphabet(s)
    ensures |bits| == 5 * |s|
  {
    if |s| == 0 then [] else TextBits(s[..|s| - 1]) + DigitBits(DigitOf(s[|s| - 1]).value)
  }

  lemma AppendDigit(s: string, d: bv32)
    requires InAlphabet(s) && d < 32
    ensures InAlphabet(s + [DigitChar(d)])
    ensures TextBits(s + [DigitChar(d)]) == TextBits(s) + DigitBits(d)
  {
    DigitRoundTrip(d);
    assert (s + [DigitChar(d)])[..|s|] == s;
  }

  // ----- Encoding ---------------------------------------------------------------------------------

  /** The text is the bits of the bytes, five to a character, with zeros to fill the last one. */
  ghost predicate Encodes(text: string, bytes: seq<bv8>) {
    && InAlphabet(text)
    && |text| == (8 * |bytes| + 4) / 5
    && TextBits(text) == BytesBits(bytes) + Falses(5 * |text| - 8 * |bytes|)
  }

  lemma DropOldest(value: bv32, rest: seq<bool>, n: nat)
    requires Holds(value, rest) && n <= |rest|
    ensures Holds(value, rest[n..])
  {
    hide Bit;
    forall k: nat | k < |rest| - n ensures Bit(value, |rest[n..]| - 1 - k) == rest[n..][k] {
      assert Bit(value, |rest| - 1 - (k + n)) == rest[k + n];
    }
  }

  lemma OldestBit(value: bv32, rest: seq<bool>, j: nat)
    requires Holds(value, rest) && |rest| >= 5 && j < 5
    ensures var d := Shr(value, |rest| - 5) & 31; d < 32 && Bit(d, j) == rest[4 - j]
  {
    hide Bit, Shr, Mask;
    LowFive(Shr(value, |rest| - 5), j);
    BitOfShr(value, |rest| - 5, j);
    assert Bit(value, |rest| - 1 - (4 - j)) == rest[4 - j];
  }

  /** (value >>> (bits - 5)) & 31 is the five oldest bits. */
  lemma OldestFive(value: bv32, rest: seq<bool>)
    requires Holds(value, rest) && |rest| >= 5
    ensures var d := Shr(value, |rest| - 5) & 31; d < 32 && DigitBits(d) == rest[..5]
  {
    hide Bit, Shr, Holds;
    OldestBit(value, rest, 0); OldestBit(value, rest, 1); OldestBit(value, rest, 2);
    OldestBit(value, rest, 3); OldestBit(value, rest, 4);
  }

  lemma RemainingBit(value: bv32, rest: seq<bool>, j: nat)
    requires Holds(value, rest) && 0 < |rest| < 5 && j < 5
    ensures var d := Shl(value, 5 - |rest|) & 31; d < 32 && Bit(d, j) == (rest + Falses(5 - |rest|))[4 - j]
  {
    hide Bit, Shl, Mask;
    LowFive(Shl(value, 5 - |rest|), j);
    BitOfShl(value, 5 - |rest|, j);
    if j >= 5 - |rest| {
      assert Bit(value, |rest| - 1 - (4 - j)) == rest[4 - j];
    }
  }

  /** (value << (5 - bits)) & 31 is the remaining bits with zeros behind them. */
  lemma RemainingBits(value: bv32, rest: seq<bool>)
    requires Holds(value, rest) && 0 < |rest| < 5
    ensures var d := Shl(value, 5 - |rest|) & 31; d < 32 && DigitBits(d) == rest + Falses(5 - |rest|)
  {
    hide Bit, Shl, Holds;
    RemainingBit(value, rest, 0); RemainingBit(value, rest, 1); RemainingBit(value, rest, 2);
    RemainingBit(value, rest, 3); RemainingBit(value, rest, 4);
  }

  lemma HoldsAt(value: bv32, rest: seq<bool>, k: nat)
    requires Holds(value, rest) && k < |rest|
    ensures |rest| <= 12 && Bit(value, |rest| - 1 - k) == rest[k]
  {}

  lemma OldBit(value: bv32, rest: seq<bool>, k: nat)
    requires Holds(value, rest) && |rest| >= 8 && k < 8
    ensures BitAt(LowByte(Shr(value, |rest| - 8)), k) == rest[k]
  {
    hide Bit, Shr, BitAt, Holds, LowByte, Mask;
    HoldsAt(value, rest, k);
    LowEight(Shr(value, |rest| - 8), 7 - k);
    BitOfShr(value, |rest| - 8, 7 - k);
  }

  /** (value >>> (bits - 8)) & 0xff is the eight oldest bits. */
  lemma OldestEight(value: bv32, rest: seq<bool>)
    requires Holds(value, rest) && |rest| >= 8
    ensures BytesBits([LowByte(Shr(value, |rest| - 8))]) == rest[..8]
  {
    hide Bit, Shr, BitAt, Holds, LowByte, Mask;
    var b := LowByte(Shr(value, |rest| - 8));
    forall k: nat | k < 8 ensures BytesBits([b])[k] == rest[k] {
      OldBit(value, rest, k);
    }
  }

  /** Write out the five oldest bits. */
  method EmitDigit(out: string, value: bv32, bits: nat, ghost rest: seq<bool>) returns (out': string)
    requires InAlphabet(out) && bits == |rest| >= 5 && Holds(value, rest)
    ensures InAlphabet(out') && TextBits(out') == TextBits(out) + rest[..5]
    ensures Holds(value, rest[5..])
  {
    hide *;
    OldestFive(value, rest);
    DropOldest(value, rest, 5);
    AppendDigit(out, Shr(value, bits - 5) & 31);
    out' := out + [DigitChar(Shr(value, bits - 5) & 31)];
  }

  /** The bits left at the end, with zeros behind them. */
  method EmitLast(out: string, value: bv32, bits: nat, ghost rest: seq<bool>) returns (out': string)
    requires InAlphabet(out) && 0 < bits == |rest| < 5 && Holds(value, rest)
    ensures InAlphabet(out') && TextBits(out') == TextBits(out) + (rest + Falses(5 - bits))
  {
    hide *;
    RemainingBits(value, rest);
    AppendDigit(out, Shl(value, 5 - bits) & 31);
    out' := out + [DigitChar(Shl(value, 5 - bits) & 31)];
  }

  lemma HoldsAfterByte(value: bv32, b: bv8, rest: seq<bool>)
    requires Holds(value, rest) && |rest| < 5
    ensures Holds((value << 8) | (b as bv32), rest + BytesBits([b]))
  {
    var w := (value << 8) | (b as bv32);
    forall k: nat | k < |rest| + 8
      ensures Bit(w, |rest| + 8 - 1 - k) == (rest + BytesBits([b]))[k]
    {
      ShiftIn8(value, b, |rest| + 7 - k);
    }
  }

  /** The state of the encoder between bytes. */
  ghost predicate Encoding(out: string, value: bv32, bits: nat, rest: seq<bool>, done: seq<bv8>) {
    && InAlphabet(out)
    && bits == |rest| <= 12 && Holds(value, rest)
    && TextBits(out) + rest == BytesBits(done)
  }

  lemma TakeByteIn(out: string, value: bv32, bits: nat, rest: seq<bool>, done: seq<bv8>, b: bv8)
    requires Encoding(out, value, bits, rest, done) && bits < 5
    ensures Encoding(out, (value << 8) | (b as bv32), bits + 8, rest + BytesBits([b]), done + [b])
  {
    HoldsAfterByte(value, b, rest);
    BytesBitsConcat(done, [b]);
    hide TextBits, BytesBits, Holds, InAlphabet;
    assert TextBits(out) + (rest + BytesBits([b])) == (TextBits(out) + rest) + BytesBits([b]);
  }

  method EmitDigits(out: string, value: bv32, bits: nat, ghost rest: seq<bool>, ghost done: seq<bv8>)
      returns (out': string, bits': nat, ghost rest': seq<bool>)
    requires Encoding(out, value, bits, rest, done)
    ensures Encoding(out', value, bits', rest', done) && bits' < 5
  {
    hide TextBits, BytesBits, Holds, InAlphabet;
    out', bits', rest' := out, bits, rest;
    while bits' >= 5
      invariant Encoding(out', value, bits', rest', done)
    {
      out' := EmitDigit(out', value, bits', rest');
      assert rest' == rest'[..5] + rest'[5..];
      rest' := rest'[5..];
      bits' := bits' - 5;
    }
  }

  method Base32Encode(buf: seq<bv8>) returns (out: string)
    ensures Encodes(out, buf)
  {
    var bits, value := 0, 0 as bv32;
    out := "";
    ghost var rest: seq<bool> := [];
    assert BytesBits(buf[..0]) == [];
    assert Encoding(out, value, bits, rest, buf[..0]);
    for i := 0 to |buf|
      invariant Encoding(out, value, bits, rest, buf[..i]) && bits < 5
    {
      hide *;
      TakeByteIn(out, value, bits, rest, buf[..i], buf[i]);
      assert buf[..i + 1] == buf[..i] + [buf[i]];
      value := (value << 8) | (buf[i] as bv32);
      out, bits, rest := EmitDigits(out, value, bits + 8, rest + BytesBits([buf[i]]), buf[..i + 1]);
    }
    assert buf[..|buf|] == buf;
    hide Holds, BytesBits;
    if bits > 0 {
      ghost var before := TextBits(out);
      out := EmitLast(out, value, bits, rest);
      assert TextBits(out) == (before + rest) + Falses(5 - bits);
    } else {
      assert TextBits(out) + rest == TextBits(out) + Falses(0);
    }
  }

  // ----- Decoding -------------------------------------------------------------------------------

  /** White space as a regular expression of ECMAScript knows it. */
  predicate IsWhiteSpace(c: char) {
    || '\U{0009}' <= c <= '\U{000D}'
    || c in {' ', '\U{00A0}', '\U{1680}', '\U{2028}', '\U{2029}', '\U{202F}', '\U{205F}', '\U{3000}', '\U{FEFF}'}
    || '\U{2000}' <= c <= '\U{200A}'
  }

  predicate IsSkipped(c: char) { IsWhiteSpace(c) || c == '=' || c == '-' }

  /** The capitals of a character: of Unicode's mappings those that end in the alphabet.  Every other
      character outside ASCII is unreadable before and after, so it stays as it is. */
  function ToUpper(c: char): string {
    if 'a' <= c <= 'z' then [(c as int - 32) as char]
    else if c == '\U{0131}' then "I"
    else if c == '\U{017F}' then "S"
    else if c == '\U{00DF}' then "SS"
    else if c == '\U{FB00}' then "FF"
    else if c == '\U{FB01}' then "FI"
    else if c == '\U{FB02}' then "FL"
    else if c == '\U{FB03}' then "FFI"
    else if c == '\U{FB04}' then "FFL"
    else if c == '\U{FB05}' || c == '\U{FB06}' then "ST"
    else [c]
  }

  /** The input in capitals, without white space, padding and dashes. */
  function Clean(input: string): string {
    if |input| == 0 then ""
    else
      var c := input[|input| - 1];
      Clean(input[..|input| - 1]) + (if IsSkipped(c) then "" else ToUpper(c))
  }

  /** The bytes are the whole bytes of the text's bits. */
  ghost predicate Decodes(bytes: seq<bv8>, text: string) {
    && InAlphabet(text)
    && |bytes| == 5 * |text| / 8
    && BytesBits(bytes) == TextBits(text)[..8 * |bytes|]
  }

  lemma BitAfterDigit(value: bv32, d: bv32, rest: seq<bool>, k: nat)
    requires Holds(value, rest) && |rest| < 8 && d < 32 && k < |rest| + 5
    ensures Bit(WithDigit(value, d), |rest| + 4 - k) == (rest + DigitBits(d))[k]
  {
    hide Bit, Holds, WithDigit, Mask;
    ShiftIn5(value, d, |rest| + 4 - k);
    if k < |rest| {
      HoldsAt(value, rest, k);
    }
  }

  lemma HoldsAfterDigit(value: bv32, d: bv32, rest: seq<bool>)
    requires Holds(value, rest) && |rest| < 8 && d < 32
    ensures Holds(WithDigit(value, d), rest + DigitBits(d))
  {
    hide Bit, WithDigit, Mask, DigitBits;
    var more := rest + DigitBits(d);
    forall k: nat | k < |more| ensures Bit(WithDigit(value, d), |more| - 1 - k) == more[k] {
      BitAfterDigit(value, d, rest, k);
    }
  }

  /** The state of the decoder between characters. */
  ghost predicate Decoding(out: seq<bv8>, value: bv32, bits: nat, rest: seq<bool>, done: string) {
    && InAlphabet(done)
    && bits == |rest| <= 12 && Holds(value, rest)
    && BytesBits(out) + rest == TextBits(done)
  }

  lemma TakeDigitIn(out: seq<bv8>, value: bv32, bits: nat, rest: seq<bool>, done: string, c: char)
    requires Decoding(out, value, bits, rest, done) && bits < 8 && DigitOf(c).Some?
    ensures bits == |rest|
    ensures Decoding(out, WithDigit(value, DigitOf(c).value), bits + 5, rest + DigitBits(DigitOf(c).value), done + [c])
  {
    HoldsAfterDigit(value, DigitOf(c).value, rest);
    assert (done + [c])[..|done|] == done;
    hide BytesBits, Holds, DigitBits, DigitOf;
    assert BytesBits(out) + (rest + DigitBits(DigitOf(c).value))
      == (BytesBits(out) + rest) + DigitBits(DigitOf(c).value);
  }

  lemma PutByteOut(out: seq<bv8>, value: bv32, bits: nat, rest: seq<bool>, done: string)
    requires Decoding(out, value, bits, rest, done) && bits >= 8
    ensures Decoding(out + [LowByte(Shr(value, bits - 8))], value, bits - 8, rest[8..], done)
  {
    hide BytesBits, Holds, InAlphabet, TextBits, Shr;
    OldestEight(value, rest);
    DropOldest(value, rest, 8);
    var b := LowByte(Shr(value, bits - 8));
    BytesBitsConcat(out, [b]);
    Rejoin(BytesBits(out), rest);
  }

  lemma Rejoin(a: seq<bool>, b: seq<bool>)
    requires |b| >= 8
    ensures (a + b[..8]) + b[8..] == a + b
  {}

  lemma FinishDecoding(out: seq<bv8>, value: bv32, bits: nat, rest: seq<bool>, done: string)
    requires Decoding(out, value, bits, rest, done) && bits < 8
    ensures Decodes(out, done) && InAlphabet(done)
  {
    hide Holds, BytesBits, TextBits, InAlphabet;
    assert TextBits(done)[..8 * |out|] == BytesBits(out);
  }

  lemma DecodingStarts()
    ensures Decoding([], 0, 0, [], "")
  {
    assert BytesBits([]) == [];
  }

  lemma Unreadable(text: string, i: nat)
    requires i < |text| && DigitOf(text[i]).None?
    ensures !InAlphabet(text)
  {}

  method Base32Decode(input: string) returns (r: Result<seq<bv8>, string>)
    ensures r.Ok? <==> InAlphabet(Clean(input))
    ensures r.Ok? ==> Decodes(r.value, Clean(input))
  {
    hide *;
    DecodingStarts();
    var clean := Clean(input);
    var bits, value := 0, 0 as bv32;
    var out: seq<bv8> := [];
    ghost var rest: seq<bool> := [];
    for i := 0 to |clean|
      invariant Decoding(out, value, bits, rest, clean[..i]) && bits < 8
    {
      var idx := DigitOf(clean[i]);
      if idx.None? {
        Unreadable(clean, i);
        return Err("invalid base32");
      }
      TakeDigitIn(out, value, bits, rest, clean[..i], clean[i]);
      assert clean[..i + 1] == clean[..i] + [clean[i]];
      value := WithDigit(value, idx.value);
      rest := rest + DigitBits(idx.value);
      bits := bits + 5;
      if bits >= 8 {
        PutByteOut(out, value, bits, rest, clean[..i + 1]);
        out := out + [LowByte(Shr(value, bits - 8))];
        rest := rest[8..];
        bits := bits - 8;
      }
    }
    assert clean[..|clean|] == clean;
    FinishDecoding(out, value, bits, rest, clean);
    return Ok(out);
  }

  // ----- Round trip ----------------------------------------------------------------------------------

  /** Decoding undoes encoding for byte strings of any length, however the text was spaced,
      dashed, padded or lower-cased on the way. */
  lemma RoundTrip(bytes: seq<bv8>, text: string, typed: string, decoded: seq<bv8>)
    requires Encodes(text, bytes)
    requires Clean(typed) == text && Decodes(decoded, Clean(typed))
    ensures decoded == bytes
  {
    assert BytesBits(decoded) == BytesBits(bytes);
    PackRoundTrip(decoded);
    PackRoundTrip(bytes);
  }

  // ----- The alphabet and the order of bits -----------------------------------------------------------

  /** Capital letters stand for 0 to 25 and the digits 2 to 7 for the rest, and nothing else is read. */
  lemma DigitsInOrder(c: char)
    ensures 'A' <= c <= 'Z' ==> DigitOf(c) == Some((c as int - 65) as bv32)
    ensures '2' <= c <= '7' ==> DigitOf(c) == Some((c as int - 24) as bv32)
    ensures DigitOf(c).Some? ==> 'A' <= c <= 'Z' || '2' <= c <= '7'
  {
    hide IndexFrom;
    if DigitOf(c).Some? {
      LetterOrDigit(c);
      AlphabetOrder(IndexFrom(c, 0).value);
    }
    if 'A' <= c <= 'Z' {
      AlphabetOrder(c as int - 65);
    }
    if '2' <= c <= '7' {
      AlphabetOrder(c as int - 24);
    }
  }

  lemma OneMoreDigit(front: string, c: char, d: bv32)
    requires InAlphabet(front) && DigitOf(c) == Some(d)
    ensures InAlphabet(front + [c]) && TextBits(front + [c]) == TextBits(front) + DigitBits(d)
  {
    assert (front + [c])[..|front|] == front;
    hide DigitBits;
  }

  /** 12 and 25. */
  lemma TwoDigits()
    ensures DigitBits(12) == [false, true, true, false, false] && DigitBits(25) == [true, true, false, false, true]
  {}

  lemma TextOfMZ()
    ensures InAlphabet("MZ") && TextBits("MZ") == DigitBits(12) + DigitBits(25)
  {
    DigitsInOrder('M');
    DigitsInOrder('Z');
    hide DigitOf, DigitBits;
    OneMoreDigit("", 'M', 12);
    OneMoreDigit("M", 'Z', 25);
    assert "" + ['M'] == "M" && "M" + ['Z'] == "MZ";
  }

  lemma BitsOfF()
    ensures BytesBits([0x66]) == [false, true, true, false, false, true, true, false]
  {
    HighBits(0x66);
    hide BitAt;
  }

  /** The first byte of "foo" is 01100110, the first two characters of MZXW6 are 01100 and 11001: a text read into
      whole bytes starts with that byte (section 10 of RFC 4648). */
  lemma KnownText()
    ensures Decodes([0x66], "MZ")
  {
    TextOfMZ();
    TwoDigits();
    BitsOfF();
    hide InAlphabet, TextBits, DigitBits, BytesBits;
    assert TextBits("MZ")[..8] == BytesBits([0x66]);
  }

  /** Typed text is read character by character: white space, dashes and padding are skipped, and small letters
      are read as capitals. */
  lemma {:induction false} CleanConcat(a: string, b: string)
    ensures Clean(a + b) == Clean(a) + Clean(b)
  {
    hide IsSkipped, ToUpper;
    if |b| > 0 {
      CleanConcat(a, b[..|b| - 1]);
      assert (a + b)[..|a + b| - 1] == a + b[..|b| - 1];
    } else {
      assert a + b == a;
    }
  }

  lemma CleanOne(c: char)
    ensures c in " \t\r\n=-" ==> Clean([c]) == ""
    ensures 'a' <= c <= 'z' ==> Clean([c]) == [(c as int - 32) as char]
    ensures 'A' <= c <= 'Z' || '0' <= c <= '9' ==> Clean([c]) == [c]
  {
    assert [c][..0] == "";
  }

  lemma LetterOrDigit(c: char)
    requires DigitOf(c).Some?
    ensures 'A' <= c <= 'Z' || '2' <= c <= '7'
  {
    var i := IndexFrom(c, 0);
    hide IndexFrom;
    AlphabetOrder(i.value);
  }

  lemma AlphabetStays(c: char)
    requires DigitOf(c).Some?
    ensures ToUpper(c) == [c] && !IsSkipped(c)
  {
    hide DigitOf;
    LetterOrDigit(c);
  }

  lemma CleanLast(front: string, c: char)
    requires ToUpper(c) == [c] && !IsSkipped(c)
    ensures Clean(front + [c]) == Clean(front) + [c]
  {
    var text := front + [c];
    assert text[..|text| - 1] == front;
    hide ToUpper, IsSkipped;
  }

  /** An encoded text is its own clean form, so it decodes as it stands. */
  lemma {:induction false} CleanFixesText(text: string)
    requires InAlphabet(text)
    ensures Clean(text) == text
  {
    if |text| > 0 {
      hide Clean, DigitOf, ToUpper, IsSkipped;
      var front, c := text[..|text| - 1], text[|text| - 1];
      assert text == front + [c];
      CleanFixesText(front);
      AlphabetStays(c);
      CleanLast(front, c);
    }
  }

  /** The secret generator's 20 bytes become exactly 32 characters. */
  lemma SecretLength(bytes: seq<bv8>, text: string)
    requires Encodes(text, bytes) && |bytes| == 20
    ensures |text| == 32
  {}
}
