/** Format information: the BCH(15,5) word for level M and a mask, and where its two copies go
    (ISO/IEC 18004, section 7.9). */
module QrFormat {
  import opened QrLayout

  // ----- The format word ------------------------------------------------------------------

  /** The format words of level M as the standard tabulates them (ISO/IEC 18004, Annex C). */
  function FormatWord(mask: nat): bv16 {
    if mask == 0 then 0x5412 else if mask == 1 then 0x5125 else if mask == 2 then 0x5E7C
    else if mask == 3 then 0x5B4B else if mask == 4 then 0x45F9 else if mask == 5 then 0x40CE
    else if mask == 6 then 0x4F97 else 0x4AA0
  }

  function MaskNumber(mask: nat): bv16 {
    if mask == 0 then 0 else if mask == 1 then 1 else if mask == 2 then 2 else if mask == 3 then 3
    else if mask == 4 then 4 else if mask == 5 then 5 else if mask == 6 then 6 else 7
  }

  /** 1 << (14 - i), and the generator 0x537 << (4 - i) that clears it. */
  function TopBit(i: nat): bv16 {
    if i == 0 then 0x4000 else if i == 1 then 0x2000 else if i == 2 then 0x1000 else if i == 3 then 0x0800 else 0x0400
  }

  function Generator(i: nat): bv16 {
    if i == 0 then 0x5370 else if i == 1 then 0x29B8 else if i == 2 then 0x14DC else if i == 3 then 0x0A6E else 0x0537
  }

  /** Round i of the BCH(15,5) division. */
  function FormatStep(rem: bv16, i: nat): bv16 {
    if rem & TopBit(i) != 0 then rem ^ Generator(i) else rem
  }

  function FormatRem(rem: bv16, n: nat): bv16 {
    if n == 0 then rem else FormatStep(FormatRem(rem, n - 1), n - 1)
  }

  function Shifted10(data: bv16): bv16 { data << 10 }

  /** Data and remainder side by side, under the fixed pattern. */
  function Assembled(data: bv16, rem: bv16): bv16 { ((data << 10) | rem) ^ 0x5412 }

  /** The division by the generator polynomial gives the tabulated words. */
  lemma FormatTable(mask: nat)
    requires mask < 8
    ensures Assembled(MaskNumber(mask), FormatRem(Shifted10(MaskNumber(mask)), 5)) == FormatWord(mask)
  {
    FormatRemainders();
    hide FormatRem, FormatStep;
  }

  lemma FormatRemainders()
    ensures FormatRem(0, 5) == 0
    ensures FormatRem(1024, 5) == 311
    ensures FormatRem(2048, 5) == 622
    ensures FormatRem(3072, 5) == 857
    ensures FormatRem(4096, 5) == 491
    ensures FormatRem(5120, 5) == 220
    ensures FormatRem(6144, 5) == 901
    ensures FormatRem(7168, 5) == 690
  {
    assert FormatStep(0, 0) == 0 && FormatStep(0, 1) == 0 && FormatStep(0, 2) == 0;
    assert FormatRem(0, 2) == 0 && FormatRem(0, 4) == 0 && FormatRem(0, 5) == 0;
    assert FormatStep(1024, 0) == 1024 && FormatStep(1024, 1) == 1024 && FormatStep(1024, 2) == 1024;
    assert FormatRem(1024, 2) == 1024 && FormatRem(1024, 4) == 1024 && FormatRem(1024, 5) == 311;
    assert FormatStep(2048, 0) == 2048 && FormatStep(2048, 1) == 2048 && FormatStep(2048, 2) == 2048;
    assert FormatRem(2048, 2) == 2048 && FormatRem(2048, 4) == 622 && FormatRem(2048, 5) == 622;
    assert FormatStep(3072, 0) == 3072 && FormatStep(3072, 1) == 3072 && FormatStep(3072, 2) == 3072;
    assert FormatRem(3072, 2) == 3072 && FormatRem(3072, 4) == 1646 && FormatRem(3072, 5) == 857;
    assert FormatStep(4096, 0) == 4096 && FormatStep(4096, 1) == 4096 && FormatStep(4096, 2) == 1244;
    assert FormatRem(4096, 2) == 4096 && FormatRem(4096, 4) == 1244 && FormatRem(4096, 5) == 491;
    assert FormatStep(5120, 0) == 5120 && FormatStep(5120, 1) == 5120 && FormatStep(5120, 2) == 220;
    assert FormatRem(5120, 2) == 5120 && FormatRem(5120, 4) == 220 && FormatRem(5120, 5) == 220;
    assert FormatStep(6144, 0) == 6144 && FormatStep(6144, 1) == 6144 && FormatStep(6144, 2) == 3292;
    assert FormatRem(6144, 2) == 6144 && FormatRem(6144, 4) == 1714 && FormatRem(6144, 5) == 901;
    assert FormatStep(7168, 0) == 7168 && FormatStep(7168, 1) == 7168 && FormatStep(7168, 2) == 2268;
    assert FormatRem(7168, 2) == 7168 && FormatRem(7168, 4) == 690 && FormatRem(7168, 5) == 690;
  }

  method FormatBits(mask: nat) returns (bits: bv16)
    requires mask < 8
    ensures bits == FormatWord(mask)
  {
    FormatTable(mask);
    hide FormatStep, FormatWord, MaskNumber, Shifted10, Assembled;
    var data := MaskNumber(mask); // 00 = level M
    var rem := Shifted10(data);
    for i := 0 to 5
      invariant rem == FormatRem(Shifted10(data), i)
    {
      rem := FormatStep(rem, i);
    }
    bits := Assembled(data, rem);
  }

  /** How many of the 15 bits are set. */
  function Ones(w: bv16): nat {
    (if w & 0x1 != 0 then 1 else 0) + (if w & 0x2 != 0 then 1 else 0) + (if w & 0x4 != 0 then 1 else 0)
      + (if w & 0x8 != 0 then 1 else 0) + (if w & 0x10 != 0 then 1 else 0)
    + (if w & 0x20 != 0 then 1 else 0) + (if w & 0x40 != 0 then 1 else 0) + (if w & 0x80 != 0 then 1 else 0)
    + (if w & 0x100 != 0 then 1 else 0) + (if w & 0x200 != 0 then 1 else 0)
    + (if w & 0x400 != 0 then 1 else 0) + (if w & 0x800 != 0 then 1 else 0) + (if w & 0x1000 != 0 then 1 else 0)
    + (if w & 0x2000 != 0 then 1 else 0) + (if w & 0x4000 != 0 then 1 else 0)
  }

  lemma Apart()
    ensures Ones(0x5412 ^ 0x5125) >= 7 && Ones(0x5412 ^ 0x5e7c) >= 7 && Ones(0x5412 ^ 0x5b4b) >= 7
      && Ones(0x5412 ^ 0x45f9) >= 7 && Ones(0x5412 ^ 0x40ce) >= 7 && Ones(0x5412 ^ 0x4f97) >= 7
      && Ones(0x5412 ^ 0x4aa0) >= 7
    ensures Ones(0x5125 ^ 0x5e7c) >= 7 && Ones(0x5125 ^ 0x5b4b) >= 7 && Ones(0x5125 ^ 0x45f9) >= 7
      && Ones(0x5125 ^ 0x40ce) >= 7 && Ones(0x5125 ^ 0x4f97) >= 7 && Ones(0x5125 ^ 0x4aa0) >= 7
    ensures Ones(0x5e7c ^ 0x5b4b) >= 7 && Ones(0x5e7c ^ 0x45f9) >= 7 && Ones(0x5e7c ^ 0x40ce) >= 7
      && Ones(0x5e7c ^ 0x4f97) >= 7 && Ones(0x5e7c ^ 0x4aa0) >= 7
    ensures Ones(0x5b4b ^ 0x45f9) >= 7 && Ones(0x5b4b ^ 0x40ce) >= 7 && Ones(0x5b4b ^ 0x4f97) >= 7
      && Ones(0x5b4b ^ 0x4aa0) >= 7
    ensures Ones(0x45f9 ^ 0x40ce) >= 7 && Ones(0x45f9 ^ 0x4f97) >= 7 && Ones(0x45f9 ^ 0x4aa0) >= 7
    ensures Ones(0x40ce ^ 0x4f97) >= 7 && Ones(0x40ce ^ 0x4aa0) >= 7
    ensures Ones(0x4f97 ^ 0x4aa0) >= 7
  {}

  /** Two different format words differ in at least 7 of their 15 modules. */
  lemma FormatDistance(a: nat, b: nat)
    requires a < b < 8
    ensures Ones(FormatWord(a) ^ FormatWord(b)) >= 7
  {
    Apart();
    hide Ones;
  }

  /** Bit i of the field, most significant first. */
  predicate FieldBit(word: bv16, i: nat)
    requires i < 15
  {
    word & FieldMask(i) != 0
  }

  function FieldMask(i: nat): bv16
    requires i < 15
  {
    if i == 0 then 0x4000 else if i == 1 then 0x2000 else if i == 2 then 0x1000 else if i == 3 then 0x0800
    else if i == 4 then 0x0400 else if i == 5 then 0x0200 else if i == 6 then 0x0100 else if i == 7 then 0x0080
    else if i == 8 then 0x0040 else if i == 9 then 0x0020 else if i == 10 then 0x0010 else if i == 11 then 0x0008
    else if i == 12 then 0x0004 else if i == 13 then 0x0002 else 0x0001
  }

  // ----- Its two copies ----------------------------------------------------------------------

  /** Which bit of the format field a module shows, or -1: copy 1 runs along row 8 and up column 8
      beside the top-left finder, copy 2 up column 8 and along row 8 beside the other two. */
  function FormatIndex(size: int, r: int, c: int): int {
    if r == 8 && 0 <= c < 6 then c
    else if r == 8 && c == 7 then 6
    else if r == 8 && c == 8 then 7
    else if r == 7 && c == 8 then 8
    else if c == 8 && 0 <= r < 6 then 14 - r
    else if c == 8 && size - 7 <= r < size then size - 1 - r
    else if r == 8 && size - 8 <= c < size then c - (size - 15)
    else -1
  }

  /** The format field lies inside the reserved area. */
  lemma FormatIsReserved(size: nat, r: int, c: int)
    requires InGrid(size, r, c)
    ensures -1 <= FormatIndex(size, r, c) < 15
    ensures FormatIndex(size, r, c) >= 0 ==> OnFormat(size, r, c)
  {}

  function Copy1(i: nat): (int, int)
    requires i < 15
  {
    if i < 6 then (8, i) else if i == 6 then (8, 7) else if i == 7 then (8, 8)
    else if i == 8 then (7, 8) else (14 - i, 8)
  }

  function Copy2(size: int, i: nat): (int, int) {
    if i < 7 then (size - 1 - i, 8) else (8, size - 15 + i)
  }

  /** The two copies of bit i are exactly the modules that show it. */
  lemma CopiesOf(size: nat, i: nat, r: int, c: int)
    requires size >= 21 && i < 15 && InGrid(size, r, c)
    ensures FormatIndex(size, r, c) == i <==> (r, c) == Copy1(i) || (r, c) == Copy2(size, i)
  {}

  ghost predicate FormatUpTo(m: array2<Module>, before: (int, int) -> Module, mask: nat, n: nat)
    requires Square(m) && n <= 15
    reads m
  {
    forall r, c :: 0 <= r < m.Length0 && 0 <= c < m.Length1 ==>
      m[r, c] == if 0 <= FormatIndex(m.Length0, r, c) < n
                 then ModuleOf(FieldBit(FormatWord(mask), FormatIndex(m.Length0, r, c))) else before(r, c)
  }

  /** Writes both copies of the format field and nothing else. */
  method PlaceFormat(m: array2<Module>, mask: nat, ghost before: (int, int) -> Module)
    requires mask < 8
    requires Square(m) && m.Length0 >= 21
    requires forall r, c :: 0 <= r < m.Length0 && 0 <= c < m.Length1 ==> m[r, c] == before(r, c)
    modifies m
    ensures FormatUpTo(m, before, mask, 15)
  {
    var size := m.Length0;
    var bits := FormatBits(mask);
    hide FormatWord, FieldBit;
    for i := 0 to 15
      invariant FormatUpTo(m, before, mask, i)
    {
      PlaceFormatBit(m, mask, i, ModuleOf(FieldBit(bits, i)), before);
    }
  }

  method PlaceFormatBit(m: array2<Module>, mask: nat, i: nat, bit: Module, ghost before: (int, int) -> Module)
    requires i < 15
    requires Square(m) && m.Length0 >= 21
    requires bit == ModuleOf(FieldBit(FormatWord(mask), i))
    requires FormatUpTo(m, before, mask, i)
    modifies m
    ensures FormatUpTo(m, before, mask, i + 1)
  {
    var size := m.Length0;
    forall r, c | InGrid(size, r, c)
      ensures FormatIndex(size, r, c) == i <==> (r, c) == Copy1(i) || (r, c) == Copy2(size, i)
    {
      CopiesOf(size, i, r, c);
    }
    hide FormatWord, FieldBit, FormatIndex, Copy1, Copy2;
    WriteCopies(m, i, bit);
  }

  method WriteCopies(m: array2<Module>, i: nat, bit: Module)
    requires i < 15
    requires Square(m) && m.Length0 >= 21
    modifies m
    ensures forall r, c :: 0 <= r < m.Length0 && 0 <= c < m.Length1 ==>
      m[r, c] == if (r, c) == Copy1(i) || (r, c) == Copy2(m.Length0, i) then bit else old(m[r, c])
  {
    var size := m.Length0;
    // One copy: along row 8 and up column 8, with gaps where the timing lines run.
    if i < 6 { m[8, i] := bit; }
    else if i == 6 { m[8, 7] := bit; }
    else if i == 7 { m[8, 8] := bit; }
    else if i == 8 { m[7, 8] := bit; }
    else { m[14 - i, 8] := bit; }
    // The other copy: seven bits up column 8, then eight along row 8.
    if i < 7 { m[size - 1 - i, 8] := bit; }
    else { m[8, size - 15 + i] := bit; }
  }

  // ----- Reading (specification only) -----------------------------------------------------------

  /** The mask named by the first five bits of the field, after removing the fixed pattern. */
  ghost function MaskOfField(bits: seq<bool>): nat
    requires |bits| >= 5
  {
    (if !bits[2] then 4 else 0) + (if bits[3] then 2 else 0) + (if !bits[4] then 1 else 0)
  }

  lemma MaskRoundTrip(mask: nat, bits: seq<bool>)
    requires mask < 8 && |bits| >= 5
    requires forall i: nat :: i < 5 ==> bits[i] == FieldBit(FormatWord(mask), i)
    ensures MaskOfField(bits) == mask
  {
    assert bits[2] == (FormatWord(mask) & 0x1000 != 0);
    assert bits[3] == (FormatWord(mask) & 0x0800 != 0);
    assert bits[4] == (FormatWord(mask) & 0x0400 != 0);
  }
}
