/** The fixed part of a QR symbol: finder, timing and alignment patterns, the dark module, the
    reserved format area and the version blocks, drawn into a grid of modules. */
module QrLayout {
  import opened QrVersions

  /** What a module shows, or that nothing has been drawn on it so far. */
  datatype Module = Unset | Light | Dark

  function ModuleOf(dark: bool): Module { if dark then Dark else Light }

  function Size(version: nat): nat { version * 4 + 17 }

  predicate InGrid(size: int, r: int, c: int) { 0 <= r < size && 0 <= c < size }

  /** Distance from a pattern's centre in king's moves. */
  function Ring(dr: int, dc: int): nat {
    var a, b := if dr < 0 then -dr else dr, if dc < 0 then -dc else dc;
    if a < b then b else a
  }

  // ----- What each module should be (ISO/IEC 18004, section 6.3) -----------------------

  /** Within the 7x7 finder or its separator; the finder's centre is given. */
  predicate OnFinder(r: int, c: int, centreRow: int, centreCol: int) {
    Ring(r - centreRow, c - centreCol) <= 4
  }

  /** A dark ring, a light ring and a dark 3x3 core, inside a light separator. */
  predicate FinderDark(r: int, c: int, centreRow: int, centreCol: int) {
    var ring := Ring(r - centreRow, c - centreCol);
    ring <= 1 || ring == 3
  }

  predicate OnTiming(size: int, r: int, c: int) {
    (r == 6 && 8 <= c < size - 8) || (c == 6 && 8 <= r < size - 8)
  }

  /** The first centre within two of a coordinate, by its place in the list. */
  function NearIndex(centres: seq<nat>, x: int): (k: nat)
    ensures k <= |centres|
    ensures k < |centres| ==> -2 <= x - centres[k] <= 2
  {
    if |centres| == 0 then 0
    else if -2 <= x - centres[0] <= 2 then 0
    else 1 + NearIndex(centres[1..], x)
  }

  predicate CollidesWithFinder(size: int, r: int, c: int) {
    (r <= 8 && c <= 8) || (r <= 8 && c >= size - 9) || (r >= size - 9 && c <= 8)
  }

  predicate OnAlignment(centres: seq<nat>, size: int, r: int, c: int) {
    var a, b := NearIndex(centres, r), NearIndex(centres, c);
    a < |centres| && b < |centres| && !CollidesWithFinder(size, centres[a], centres[b])
  }

  predicate AlignmentDark(centres: seq<nat>, size: int, r: int, c: int)
    requires OnAlignment(centres, size, r, c)
  {
    Ring(r - centres[NearIndex(centres, r)], c - centres[NearIndex(centres, c)]) != 1
  }

  /** The format area: row 8 and column 8 beside the finders. */
  predicate OnFormat(size: int, r: int, c: int) {
    (r == 8 && (c < 9 || c >= size - 8)) || (c == 8 && (r < 9 || r >= size - 8))
  }

  /** The two version blocks of versions 7 and up, by the index of the bit they show. */
  predicate OnVersionBlock(size: int, r: int, c: int) {
    0 <= r < 6 && size - 11 <= c < size - 8
  }

  /** Version information (ISO/IEC 18004, Annex D). */
  function VersionWord(version: nat): bv32 {
    if version == 7 then 0x07C94 else if version == 8 then 0x085BC
    else if version == 9 then 0x09A99 else 0x0A4D3
  }

  /** Bit i of a word, from the least significant. */
  predicate WordBit(word: bv32, i: nat)
    requires i < 32
  {
    (word >> i) & 1 == 1
  }

  predicate VersionDark(version: nat, r: int, c: int)
    requires OnVersionBlock(Size(version), r, c)
  {
    WordBit(VersionWord(version), 3 * r + (c - (Size(version) - 11)))
  }

  function Finder(size: int, r: int, c: int): Module {
    if OnFinder(r, c, 3, 3) then ModuleOf(FinderDark(r, c, 3, 3))
    else if OnFinder(r, c, 3, size - 4) then ModuleOf(FinderDark(r, c, 3, size - 4))
    else if OnFinder(r, c, size - 4, 3) then ModuleOf(FinderDark(r, c, size - 4, 3))
    else Unset
  }

  /** The module at (r, c) before any data is placed. */
  function FunctionModule(version: nat, r: int, c: int): Module
    requires IsVersion(version) && InGrid(Size(version), r, c)
  {
    var size, centres := Size(version), Version(version).align;
    if version >= 7 && OnVersionBlock(size, r, c) then ModuleOf(VersionDark(version, r, c))
    else if version >= 7 && OnVersionBlock(size, c, r) then ModuleOf(VersionDark(version, c, r))
    else if r == size - 8 && c == 8 then Dark
    else if OnAlignment(centres, size, r, c) then ModuleOf(AlignmentDark(centres, size, r, c))
    else if OnTiming(size, r, c) then ModuleOf((r + c) % 2 == 0)
    else if Finder(size, r, c) != Unset then Finder(size, r, c)
    else if OnFormat(size, r, c) then Light
    else Unset
  }

  // ----- Drawing it --------------------------------------------------------------------

  predicate Square(m: array2<Module>) { m.Length0 == m.Length1 }

  method EmptyMatrix(size: nat) returns (m: array2<Module>)
    ensures fresh(m) && m.Length0 == size && m.Length1 == size
    ensures forall i, j :: 0 <= i < size && 0 <= j < size ==> m[i, j] == Unset
  {
    m := new Module[size, size]((i, j) => Unset);
  }

  /** One finder pattern and the light ring around it, as far as they lie in the grid. */
  method PlaceFinder(m: array2<Module>, row: int, col: int)
    requires Square(m)
    modifies m
    ensures forall i, j :: 0 <= i < m.Length0 && 0 <= j < m.Length1 ==>
      m[i, j] == if OnFinder(i, j, row + 3, col + 3) then ModuleOf(FinderDark(i, j, row + 3, col + 3)) else old(m[i, j])
  {
    var r := -1;
    while r <= 7
      invariant -1 <= r <= 8
      invariant forall i, j :: 0 <= i < m.Length0 && 0 <= j < m.Length1 ==>
        m[i, j] == if OnFinder(i, j, row + 3, col + 3) && i - row < r
                   then ModuleOf(FinderDark(i, j, row + 3, col + 3)) else old(m[i, j])
    {
      var c := -1;
      while c <= 7
        invariant -1 <= c <= 8
        invariant forall i, j :: 0 <= i < m.Length0 && 0 <= j < m.Length1 ==>
          m[i, j] == if OnFinder(i, j, row + 3, col + 3) && (i - row < r || (i - row == r && j - col < c))
                     then ModuleOf(FinderDark(i, j, row + 3, col + 3)) else old(m[i, j])
      {
        var rr, cc := row + r, col + c;
        if !(rr < 0 || cc < 0 || rr >= m.Length0 || cc >= m.Length0) {
          var onRing := r == 0 || r == 6 || c == 0 || c == 6;
          var inCore := r >= 2 && r <= 4 && c >= 2 && c <= 4;
          var inside := r >= 0 && r <= 6 && c >= 0 && c <= 6;
          m[rr, cc] := if inside && (onRing || inCore) then Dark else Light;
        }
        c := c + 1;
      }
      r := r + 1;
    }
  }

  method PlaceTiming(m: array2<Module>)
    requires Square(m)
    requires m.Length0 >= 21
    modifies m
    ensures forall i, j :: 0 <= i < m.Length0 && 0 <= j < m.Length1 ==>
      m[i, j] == if OnTiming(m.Length0, i, j) then ModuleOf((i + j) % 2 == 0) else old(m[i, j])
  {
    var size := m.Length0;
    for i := 8 to size - 8
      invariant forall r, c :: 0 <= r < size && 0 <= c < size ==>
        m[r, c] == if OnTiming(size, r, c) && r < (if r == 6 then size else i) && c < (if c == 6 then size else i)
                   then ModuleOf((r + c) % 2 == 0) else old(m[r, c])
    {
      var bit := ModuleOf(i % 2 == 0);
      m[6, i] := bit;
      m[i, 6] := bit;
    }
  }

  /** Centres far enough apart that no coordinate is near two of them. */
  predicate Spaced(centres: seq<nat>) {
    forall a, b :: 0 <= a < b < |centres| ==> centres[a] + 5 <= centres[b]
  }

  lemma {:induction false} NearIndexUnique(centres: seq<nat>, x: int, k: nat)
    requires Spaced(centres) && k < |centres|
    ensures NearIndex(centres, x) == k <==> -2 <= x - centres[k] <= 2
  {
    if k > 0 {
      assert centres[0] + 5 <= centres[k];
      assert forall a, b :: 0 <= a < b < |centres| - 1 ==> centres[1..][a] + 5 <= centres[1..][b];
      NearIndexUnique(centres[1..], x, k - 1);
    }
  }

  /** One 5x5 alignment pattern. */
  method PlaceAlignment(m: array2<Module>, r: int, c: int)
    requires Square(m)
    requires 2 <= r < m.Length0 - 2 && 2 <= c < m.Length0 - 2
    modifies m
    ensures forall i, j :: 0 <= i < m.Length0 && 0 <= j < m.Length1 ==>
      m[i, j] == if Ring(i - r, j - c) <= 2 then ModuleOf(Ring(i - r, j - c) != 1) else old(m[i, j])
  {
    var dr := -2;
    while dr <= 2
      invariant -2 <= dr <= 3
      invariant forall i, j :: 0 <= i < m.Length0 && 0 <= j < m.Length1 ==>
        m[i, j] == if Ring(i - r, j - c) <= 2 && i - r < dr then ModuleOf(Ring(i - r, j - c) != 1) else old(m[i, j])
    {
      var dc := -2;
      while dc <= 2
        invariant -2 <= dc <= 3
        invariant forall i, j :: 0 <= i < m.Length0 && 0 <= j < m.Length1 ==>
          m[i, j] == if Ring(i - r, j - c) <= 2 && (i - r < dr || (i - r == dr && j - c < dc))
                     then ModuleOf(Ring(i - r, j - c) != 1) else old(m[i, j])
      {
        var edge := dr == 2 || dr == -2 || dc == 2 || dc == -2;
        m[r + dr, c + dc] := if edge || (dr == 0 && dc == 0) then Dark else Light;
        dc := dc + 1;
      }
      dr := dr + 1;
    }
  }

  /** The alignment pattern at the p-th and q-th centre has been drawn, when the loops stand at (a, b). */
  predicate Done(p: nat, q: nat, a: nat, b: nat) { p < a || (p == a && q < b) }

  /** What the grid holds when the alignment loops stand at (a, b). */
  ghost predicate AlignedUpTo(m: array2<Module>, before: (int, int) -> Module, centres: seq<nat>, a: nat, b: nat)
    reads m
  {
    forall i, j :: 0 <= i < m.Length0 && 0 <= j < m.Length1 ==>
      m[i, j] == if OnAlignment(centres, m.Length0, i, j) && Done(NearIndex(centres, i), NearIndex(centres, j), a, b)
                 then ModuleOf(AlignmentDark(centres, m.Length0, i, j)) else before(i, j)
  }

  /** The body of the alignment loops. */
  method AlignmentStep(m: array2<Module>, centres: seq<nat>, a: nat, b: nat, ghost before: (int, int) -> Module)
    requires Square(m) && a < |centres| && b < |centres|
    requires Spaced(centres) && forall k :: 0 <= k < |centres| ==> 2 <= centres[k] < m.Length0 - 2
    requires AlignedUpTo(m, before, centres, a, b)
    modifies m
    ensures AlignedUpTo(m, before, centres, a, b + 1)
  {
    if !CollidesWithFinder(m.Length0, centres[a], centres[b]) {
      PlaceAlignment(m, centres[a], centres[b]);
    }
    forall x: int ensures NearIndex(centres, x) == a <==> -2 <= x - centres[a] <= 2 {
      NearIndexUnique(centres, x, a);
    }
    forall x: int ensures NearIndex(centres, x) == b <==> -2 <= x - centres[b] <= 2 {
      NearIndexUnique(centres, x, b);
    }
    hide NearIndex, Spaced, CollidesWithFinder;
  }

  method PlaceAlignments(m: array2<Module>, centres: seq<nat>, ghost before: (int, int) -> Module)
    requires Square(m)
    requires Spaced(centres) && forall k :: 0 <= k < |centres| ==> 2 <= centres[k] < m.Length0 - 2
    requires forall i, j :: 0 <= i < m.Length0 && 0 <= j < m.Length1 ==> m[i, j] == before(i, j)
    modifies m
    ensures forall i, j :: 0 <= i < m.Length0 && 0 <= j < m.Length1 ==>
      m[i, j] == if OnAlignment(centres, m.Length0, i, j)
                 then ModuleOf(AlignmentDark(centres, m.Length0, i, j)) else before(i, j)
  {
    for a := 0 to |centres|
      invariant AlignedUpTo(m, before, centres, a, 0)
    {
      for b := 0 to |centres|
        invariant AlignedUpTo(m, before, centres, a, b)
      {
        AlignmentStep(m, centres, a, b, before);
      }
      assert AlignedUpTo(m, before, centres, a + 1, 0);
    }
  }

  /** Mark the two format fields, where no mark stands yet, as not for data. */
  method ReserveFormat(m: array2<Module>)
    requires Square(m)
    requires m.Length0 >= 21
    modifies m
    ensures forall i, j :: 0 <= i < m.Length0 && 0 <= j < m.Length1 ==>
      m[i, j] == if OnFormat(m.Length0, i, j) && old(m[i, j]) == Unset then Light else old(m[i, j])
  {
    var size := m.Length0;
    for i := 0 to 9
      invariant forall r, c :: 0 <= r < size && 0 <= c < size ==>
        m[r, c] == if ((r == 8 && c < i) || (c == 8 && r < i)) && old(m[r, c]) == Unset then Light else old(m[r, c])
    {
      if m[8, i] == Unset { m[8, i] := Light; }
      if m[i, 8] == Unset { m[i, 8] := Light; }
    }
    for i := 0 to 8
      invariant forall r, c :: 0 <= r < size && 0 <= c < size ==>
        m[r, c] ==
          if ((r == 8 && (c < 9 || c >= size - i)) || (c == 8 && (r < 9 || r >= size - i))) && old(m[r, c]) == Unset
                   then Light else old(m[r, c])
    {
      if m[8, size - 1 - i] == Unset { m[8, size - 1 - i] := Light; }
      if m[size - 1 - i, 8] == Unset { m[size - 1 - i, 8] := Light; }
    }
  }

  // ----- Version information --------------------------------------------------------------

  /** One round of the BCH(18,6) division. */
  function VersionStep(rem: bv32): bv32 { (rem << 1) ^ ((rem >> 11) * 0x1f25) }

  /** i rounds. */
  function VersionRem(version: bv32, i: nat): bv32 {
    if i == 0 then version else VersionStep(VersionRem(version, i - 1))
  }

  lemma VersionRem7()
    ensures VersionRem(7, 12) & 0xfff == 0xc94
  {
    assert VersionRem(7, 1) == 14; assert VersionRem(7, 2) == 28; assert VersionRem(7, 3) == 56;
    assert VersionRem(7, 4) == 112; assert VersionRem(7, 5) == 224; assert VersionRem(7, 6) == 448;
    assert VersionRem(7, 7) == 896; assert VersionRem(7, 8) == 1792; assert VersionRem(7, 9) == 3584;
    assert VersionRem(7, 10) == 805; assert VersionRem(7, 11) == 1610; assert VersionRem(7, 12) == 3220;
  }

  lemma VersionRem8()
    ensures VersionRem(8, 12) & 0xfff == 0x5bc
  {
    assert VersionRem(8, 1) == 16; assert VersionRem(8, 2) == 32; assert VersionRem(8, 3) == 64;
    assert VersionRem(8, 4) == 128; assert VersionRem(8, 5) == 256; assert VersionRem(8, 6) == 512;
    assert VersionRem(8, 7) == 1024; assert VersionRem(8, 8) == 2048; assert VersionRem(8, 9) == 3877;
    assert VersionRem(8, 10) == 367; assert VersionRem(8, 11) == 734; assert VersionRem(8, 12) == 1468;
  }

  lemma VersionRem9()
    ensures VersionRem(9, 12) & 0xfff == 0xa99
  {
    assert VersionRem(9, 1) == 18; assert VersionRem(9, 2) == 36; assert VersionRem(9, 3) == 72;
    assert VersionRem(9, 4) == 144; assert VersionRem(9, 5) == 288; assert VersionRem(9, 6) == 576;
    assert VersionRem(9, 7) == 1152; assert VersionRem(9, 8) == 2304; assert VersionRem(9, 9) == 3365;
    assert VersionRem(9, 10) == 1391; assert VersionRem(9, 11) == 2782; assert VersionRem(9, 12) == 2713;
  }

  lemma VersionRem10()
    ensures VersionRem(10, 12) & 0xfff == 0x4d3
  {
    assert VersionRem(10, 1) == 20; assert VersionRem(10, 2) == 40; assert VersionRem(10, 3) == 80;
    assert VersionRem(10, 4) == 160; assert VersionRem(10, 5) == 320; assert VersionRem(10, 6) == 640;
    assert VersionRem(10, 7) == 1280; assert VersionRem(10, 8) == 2560; assert VersionRem(10, 9) == 2853;
    assert VersionRem(10, 10) == 2415; assert VersionRem(10, 11) == 3579; assert VersionRem(10, 12) == 1235;
  }

  function VersionNumber(version: nat): bv32 {
    if version == 7 then 7 else if version == 8 then 8 else if version == 9 then 9 else 10
  }

  /** The division gives the words the standard tabulates. */
  lemma VersionTable(version: nat)
    requires 7 <= version <= 10
    ensures (VersionNumber(version) << 12) | (VersionRem(VersionNumber(version), 12) & 0xfff) == VersionWord(version)
  {
    VersionRem7(); VersionRem8(); VersionRem9(); VersionRem10();
    hide VersionRem;
  }

  method VersionBits(version: nat) returns (bits: bv32)
    requires 7 <= version <= 10
    ensures bits == VersionWord(version)
  {
    VersionTable(version);
    hide VersionStep, VersionWord;
    var rem := VersionNumber(version);
    for i := 0 to 12
      invariant rem == VersionRem(VersionNumber(version), i)
    {
      rem := VersionStep(rem);
    }
    bits := (VersionNumber(version) << 12) | (rem & 0xfff);
  }

  method PlaceVersion(m: array2<Module>, version: nat)
    requires 7 <= version <= 10
    requires Square(m) && m.Length0 == Size(version)
    modifies m
    ensures forall i, j :: 0 <= i < m.Length0 && 0 <= j < m.Length1 ==>
      m[i, j] == if OnVersionBlock(m.Length0, i, j) then ModuleOf(VersionDark(version, i, j))
                 else if OnVersionBlock(m.Length0, j, i) then ModuleOf(VersionDark(version, j, i))
                 else old(m[i, j])
  {
    var size := m.Length0;
    var bits := VersionBits(version);
    hide VersionWord, WordBit;
    for i := 0 to 18
      invariant VersionUpTo(m, version, i)
      invariant forall r, c :: InGrid(size, r, c) && !OnVersionBlock(size, r, c) && !OnVersionBlock(size, c, r) ==>
        m[r, c] == old(m[r, c])
    {
      PlaceVersionBit(m, version, i, ModuleOf(WordBit(bits, i)));
    }
  }

  function BlockIndex(size: int, r: int, c: int): int { 3 * r + (c - (size - 11)) }

  /** The first n bits of both version blocks are drawn. */
  ghost predicate VersionUpTo(m: array2<Module>, version: nat, n: nat)
    requires Square(m) && m.Length0 == Size(version)
    reads m
  {
    forall r, c :: InGrid(m.Length0, r, c) && OnVersionBlock(m.Length0, r, c) && BlockIndex(m.Length0, r, c) < n ==>
      m[r, c] == m[c, r] == ModuleOf(VersionDark(version, r, c))
  }

  lemma BlockCell(size: int, i: nat, r: int, c: int)
    requires OnVersionBlock(size, r, c) && i < 18
    ensures BlockIndex(size, r, c) == i <==> r == i / 3 && c == size - 11 + i % 3
  {}

  method PlaceVersionBit(m: array2<Module>, version: nat, i: nat, bit: Module)
    requires 7 <= version <= 10 && i < 18
    requires Square(m) && m.Length0 == Size(version)
    requires bit == ModuleOf(WordBit(VersionWord(version), i))
    requires VersionUpTo(m, version, i)
    modifies m
    ensures VersionUpTo(m, version, i + 1)
    ensures forall r, c ::
      InGrid(m.Length0, r, c) && !OnVersionBlock(m.Length0, r, c) && !OnVersionBlock(m.Length0, c, r) ==>
        m[r, c] == old(m[r, c])
  {
    hide VersionWord, WordBit;
    var size := m.Length0;
    var r, c := i / 3, size - 11 + i % 3;
    assert OnVersionBlock(size, r, c);
    forall p, q | InGrid(size, p, q) && OnVersionBlock(size, p, q)
      ensures BlockIndex(size, p, q) == i <==> p == r && q == c
    {
      BlockCell(size, i, p, q);
    }
    m[r, c] := bit;
    m[c, r] := bit;
  }

  lemma CentresShape(version: nat)
    requires IsVersion(version)
    ensures var centres := Version(version).align;
      Spaced(centres) && forall k :: 0 <= k < |centres| ==> 2 <= centres[k] < Size(version) - 2
  {}

  /** Finders, then timing, then alignment. */
  function Patterns(version: nat, r: int, c: int): Module
    requires IsVersion(version)
  {
    var size, centres := Size(version), Version(version).align;
    if OnAlignment(centres, size, r, c) then ModuleOf(AlignmentDark(centres, size, r, c))
    else if OnTiming(size, r, c) then ModuleOf((r + c) % 2 == 0)
    else Finder(size, r, c)
  }

  function FinderAndTiming(size: int, r: int, c: int): Module {
    if OnTiming(size, r, c) then ModuleOf((r + c) % 2 == 0) else Finder(size, r, c)
  }

  method PlaceFinders(m: array2<Module>)
    requires Square(m) && m.Length0 >= 21
    requires forall i, j :: 0 <= i < m.Length0 && 0 <= j < m.Length1 ==> m[i, j] == Unset
    modifies m
    ensures forall i, j :: 0 <= i < m.Length0 && 0 <= j < m.Length1 ==> m[i, j] == Finder(m.Length0, i, j)
  {
    var size := m.Length0;
    PlaceFinder(m, 0, 0);
    PlaceFinder(m, 0, size - 7);
    PlaceFinder(m, size - 7, 0);
  }

  method PlacePatterns(m: array2<Module>, version: nat)
    requires IsVersion(version)
    requires Square(m) && m.Length0 == Size(version)
    requires forall i, j :: 0 <= i < m.Length0 && 0 <= j < m.Length1 ==> m[i, j] == Unset
    modifies m
    ensures forall i, j :: 0 <= i < m.Length0 && 0 <= j < m.Length1 ==> m[i, j] == Patterns(version, i, j)
  {
    var size, centres := m.Length0, Version(version).align;
    CentresShape(version);
    hide Version, NearIndex, Spaced, Finder;
    PlaceFinders(m);
    PlaceTiming(m);
    PlaceAlignments(m, centres, (r, c) => FinderAndTiming(size, r, c));
  }

  method PlaceLayers(m: array2<Module>, version: nat)
    requires IsVersion(version)
    requires Square(m) && m.Length0 == Size(version)
    requires forall i, j :: 0 <= i < m.Length0 && 0 <= j < m.Length1 ==> m[i, j] == Patterns(version, i, j)
    modifies m
    ensures forall i, j :: 0 <= i < m.Length0 && 0 <= j < m.Length1 ==> m[i, j] == LayeredModule(version, i, j)
  {
    hide Patterns, VersionDark;
    m[m.Length0 - 8, 8] := Dark;
    ReserveFormat(m);
    if version >= 7 {
      PlaceVersion(m, version);
    }
  }

  /** Draws exactly the standard's function modules into an empty grid. */
  method PlaceFunctionPatterns(m: array2<Module>, version: nat)
    requires IsVersion(version)
    requires Square(m) && m.Length0 == Size(version)
    requires forall i, j :: 0 <= i < m.Length0 && 0 <= j < m.Length1 ==> m[i, j] == Unset
    modifies m
    ensures forall i, j :: 0 <= i < m.Length0 && 0 <= j < m.Length1 ==> m[i, j] == FunctionModule(version, i, j)
  {
    var size := m.Length0;
    PlacePatterns(m, version);
    PlaceLayers(m, version);
    hide *;
    forall i, j | 0 <= i < size && 0 <= j < size ensures m[i, j] == FunctionModule(version, i, j) {
      LayersAgree(version, i, j);
    }
  }

  function LayeredModule(version: nat, r: int, c: int): Module
    requires IsVersion(version) && InGrid(Size(version), r, c)
  {
    var size := Size(version);
    if version >= 7 && OnVersionBlock(size, r, c) then ModuleOf(VersionDark(version, r, c))
    else if version >= 7 && OnVersionBlock(size, c, r) then ModuleOf(VersionDark(version, c, r))
    else if r == size - 8 && c == 8 then Dark
    else if OnFormat(size, r, c) && Patterns(version, r, c) == Unset then Light
    else Patterns(version, r, c)
  }

  lemma LayersAgree(version: nat, r: int, c: int)
    requires IsVersion(version) && InGrid(Size(version), r, c)
    ensures LayeredModule(version, r, c) == FunctionModule(version, r, c)
  {
    hide Version, NearIndex, VersionDark, Finder;
  }
}
