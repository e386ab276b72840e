/** The bit stream of a QR code: numbers written most significant bit first, packed into bytes. */
module BitStream {
  import opened Gf256

  // ----- Numbers as bits -----------------------------------------------------------

  /** value >>> n. */
  function ShiftRight(value: nat, n: nat): nat {
    if n == 0 then value else ShiftRight(value, n - 1) / 2
  }

  /** The low `length` bits of a number, most significant first. */
  function NumberBits(value: nat, length: nat): (bits: seq<bool>)
    ensures |bits| == length
  {
    if length == 0 then [] else NumberBits(value / 2, length - 1) + [value % 2 == 1]
  }

  /** The number a sequence of bits stands for. */
  function BitsNumber(bits: seq<bool>): nat {
    if |bits| == 0 then 0 else 2 * BitsNumber(bits[..|bits| - 1]) + (if bits[|bits| - 1] then 1 else 0)
  }

  function TwoTo(n: nat): (r: nat)
    ensures r > 0
  {
    if n == 0 then 1 else 2 * TwoTo(n - 1)
  }

  lemma {:induction false} NumberRoundTrip(value: nat, length: nat)
    requires value < TwoTo(length)
    ensures BitsNumber(NumberBits(value, length)) == value
  {
    if length > 0 {
      NumberRoundTrip(value / 2, length - 1);
      assert NumberBits(value, length)[..length - 1] == NumberBits(value / 2, length - 1);
    }
  }

  // ----- Bytes as bits -----------------------------------------------------------------

  /** 0x80 >>> k. */
  function HighBit(k: nat): bv8
    requires k < 8
  {
    BitMask(7 - k)
  }

  /** Bit k of a byte, counted from the most significant end. */
  predicate BitAt(b: bv8, k: nat)
    requires k < 8
  {
    b & HighBit(k) != 0
  }

  /** All the bits of a sequence of bytes. */
  function BytesBits(bytes: seq<bv8>): (bits: seq<bool>)
    ensures |bits| == 8 * |bytes|
  {
    seq(8 * |bytes|, i requires 0 <= i < 8 * |bytes| => BitAt(bytes[i / 8], i % 8))
  }

  /** The byte whose bits are the given eight. */
  function PackByte(bits: seq<bool>): bv8
    requires |bits| == 8
  {
    (if bits[0] then 0x80 else 0) | (if bits[1] then 0x40 else 0) | (if bits[2] then 0x20 else 0)
    | (if bits[3] then 0x10 else 0) | (if bits[4] then 0x08 else 0) | (if bits[5] then 0x04 else 0)
    | (if bits[6] then 0x02 else 0) | (if bits[7] then 0x01 else 0)
  }

  /** Whole bytes; bits left over at the end are ignored. */
  function Pack(bits: seq<bool>): (bytes: seq<bv8>)
    ensures |bytes| == |bits| / 8
  {
    seq(|bits| / 8, j requires 0 <= j < |bits| / 8 => PackByte(bits[8 * j..8 * j + 8]))
  }

  lemma PackByteRoundTrip(b: bv8, bits: seq<bool>)
    requires |bits| == 8 && forall k :: 0 <= k < 8 ==> bits[k] == BitAt(b, k)
    ensures PackByte(bits) == b
  {
    hide BitAt, BitMask;
    HighBits(b);
    SumOfBits(b);
  }

  lemma HighBits(b: bv8)
    ensures BitAt(b, 0) == (b & 0x80 != 0) && BitAt(b, 1) == (b & 0x40 != 0)
    ensures BitAt(b, 2) == (b & 0x20 != 0) && BitAt(b, 3) == (b & 0x10 != 0)
    ensures BitAt(b, 4) == (b & 0x08 != 0) && BitAt(b, 5) == (b & 0x04 != 0)
    ensures BitAt(b, 6) == (b & 0x02 != 0) && BitAt(b, 7) == (b & 0x01 != 0)
  {}

  lemma SumOfBits(b: bv8)
    ensures b == (if b & 0x80 != 0 then 0x80 else 0) | (if b & 0x40 != 0 then 0x40 else 0)
              | (if b & 0x20 != 0 then 0x20 else 0) | (if b & 0x10 != 0 then 0x10 else 0)
              | (if b & 0x08 != 0 then 0x08 else 0) | (if b & 0x04 != 0 then 0x04 else 0)
              | (if b & 0x02 != 0 then 0x02 else 0) | (if b & 0x01 != 0 then 0x01 else 0)
  {}

  lemma EightBits(bytes: seq<bv8>, j: nat, k: nat)
    requires j < |bytes| && k < 8
    ensures BytesBits(bytes)[8 * j..8 * j + 8][k] == BitAt(bytes[j], k)
  {
    hide BitAt;
    var i := 8 * j + k;
    assert i / 8 == j && i % 8 == k;
    assert BytesBits(bytes)[8 * j..8 * j + 8][k] == BytesBits(bytes)[i];
  }

  lemma PackRoundTrip(bytes: seq<bv8>)
    ensures Pack(BytesBits(bytes)) == bytes
  {
    hide BitAt, PackByte, BytesBits;
    forall j | 0 <= j < |bytes| ensures PackByte(BytesBits(bytes)[8 * j..8 * j + 8]) == bytes[j] {
      forall k | 0 <= k < 8 ensures BytesBits(bytes)[8 * j..8 * j + 8][k] == BitAt(bytes[j], k) {
        EightBits(bytes, j, k);
      }
      PackByteRoundTrip(bytes[j], BytesBits(bytes)[8 * j..8 * j + 8]);
    }
  }

  lemma BytesBitsConcat(a: seq<bv8>, b: seq<bv8>)
    ensures BytesBits(a + b) == BytesBits(a) + BytesBits(b)
  {
    forall i | 0 <= i < 8 * |a + b| ensures BytesBits(a + b)[i] == (BytesBits(a) + BytesBits(b))[i] {
      if i >= 8 * |a| {
        assert i / 8 == |a| + (i - 8 * |a|) / 8 && i % 8 == (i - 8 * |a|) % 8;
      }
    }
  }

  function Half(b: bv8): bv8 { b >> 1 }

  /** b & (1 << j), told from zero. */
  predicate HasBit(b: bv8, j: nat)
    requires j < 8
  {
    b & BitMask(j) != 0
  }

  lemma HalfIndex(b: bv8)
    ensures Index(Half(b)) == Index(b) / 2
    ensures HasBit(b, 0) == (Index(b) % 2 == 1)
  {}

  lemma {:induction false} ShiftOfHalf(value: nat, n: nat)
    ensures ShiftRight(value, n + 1) == ShiftRight(value / 2, n)
  {
    if n > 0 {
      ShiftOfHalf(value, n - 1);
    }
  }

  lemma {:induction false} NumberBitAt(value: nat, length: nat, k: nat)
    requires k < length
    ensures NumberBits(value, length)[k] == (ShiftRight(value, length - 1 - k) % 2 == 1)
  {
    if k < length - 1 {
      NumberBitAt(value / 2, length - 1, k);
      ShiftOfHalf(value, length - 2 - k);
    }
  }

  lemma MaskOfHalf(b: bv8, j: nat)
    requires j < 7
    ensures HasBit(b, j + 1) == HasBit(Half(b), j)
  {}

  lemma {:induction false} MaskIsShift(b: bv8, j: nat)
    requires j < 8
    ensures HasBit(b, j) == (ShiftRight(Index(b), j) % 2 == 1)
    decreases j
  {
    hide Index, Half, HasBit;
    HalfIndex(b);
    if j > 0 {
      MaskOfHalf(b, j - 1);
      MaskIsShift(Half(b), j - 1);
      ShiftOfHalf(Index(b), j - 1);
    }
  }

  lemma BitOfByte(b: bv8, k: nat)
    requires k < 8
    ensures BitAt(b, k) == HasBit(b, 7 - k)
  {
    hide BitMask;
  }

  /** The eight bits of a byte are its number written in eight bits. */
  lemma ByteIsNumber(b: bv8)
    ensures BytesBits([b]) == NumberBits(Index(b), 8)
  {
    hide NumberBits, ShiftRight, Index, BitAt;
    forall k: nat | k < 8 ensures BytesBits([b])[k] == NumberBits(Index(b), 8)[k] {
      BitOfByte(b, k);
      MaskIsShift(b, 7 - k);
      NumberBitAt(Index(b), 8, k);
    }
  }

  // ----- The writer ------------------------------------------------------------------------

  function Falses(n: nat): (s: seq<bool>)
    ensures |s| == n
  {
    seq(n, _ => false)
  }

  /** Writing a bit into a byte leaves the other bits alone. */
  lemma SetBit(b: bv8, k: nat, l: nat)
    requires k < 8 && l < 8
    ensures BitAt(b | HighBit(k), l) == (l == k || BitAt(b, l))
  {}

  class BitWriter {
    var bits: seq<bool>

    constructor ()
      ensures bits == []
    {
      bits := [];
    }

    method Push(value: nat, length: nat)
      modifies this
      ensures bits == old(bits) + NumberBits(value, length)
    {
      var i := length;
      while i > 0
        invariant 0 <= i <= length
        invariant bits == old(bits) + NumberBits(ShiftRight(value, i), length - i)
      {
        i := i - 1;
        bits := bits + [ShiftRight(value, i) % 2 == 1];
      }
    }

    /** The bits packed into bytes, with zeros to fill the last one. */
    method ToBytes() returns (out: array<bv8>)
      ensures fresh(out) && out.Length == (|bits| + 7) / 8
      ensures BytesBits(out[..]) == bits + Falses(8 * out.Length - |bits|)
    {
      out := new bv8[(|bits| + 7) / 8](_ => 0);
      var n := 8 * out.Length;
      var i := 0;
      while i < |bits|
        invariant 0 <= i <= |bits|
        invariant forall p :: 0 <= p < n ==> BitAt(out[p / 8], p % 8) == (p < i && bits[p])
      {
        if bits[i] {
          forall p | 0 <= p < n && p / 8 == i / 8
            ensures BitAt(out[i / 8] | HighBit(i % 8), p % 8) == (p == i || BitAt(out[i / 8], p % 8))
          {
            SetBit(out[i / 8], i % 8, p % 8);
          }
          hide BitAt, HighBit;
          out[i / 8] := out[i / 8] | HighBit(i % 8);
        }
        i := i + 1;
      }
    }
  }
}
