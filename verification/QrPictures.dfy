/** What the fixed part of a symbol looks like, module by module, as the figures of ISO/IEC 18004 show it: the
    definitions that drawing and reading share are held against pictures and tables here. */
module QrPictures {
  import opened QrFormat
  import opened QrLayout
  import opened QrVersions
  import opened QrZigzag

  // ----- Corners --------------------------------------------------------------------------

  /** Finder, separator, the ends of the timing lines, and the room kept for the format field. */
  const TOP_LEFT: seq<string> := [
    "#######..",
    "#.....#..",
    "#.###.#..",
    "#.###.#..",
    "#.###.#..",
    "#.....#..",
    "#######.#",
    ".........",
    "......#.."
  ]

  const TOP_RIGHT: seq<string> := [
    ".#######",
    ".#.....#",
    ".#.###.#",
    ".#.###.#",
    ".#.###.#",
    ".#.....#",
    ".#######",
    "........",
    "........"
  ]

  /** With the module that is always dark in its upper right corner. */
  const BOTTOM_LEFT: seq<string> := [
    "........#",
    "#######..",
    "#.....#..",
    "#.###.#..",
    "#.###.#..",
    "#.###.#..",
    "#.....#..",
    "#######.."
  ]

  function Drawn(picture: char): Module { ModuleOf(picture == '#') }

  lemma CornersAreComplete()
    ensures |TOP_LEFT| == 9 && forall r :: 0 <= r < 9 ==> |TOP_LEFT[r]| == 9
    ensures |TOP_RIGHT| == 9 && forall r :: 0 <= r < 9 ==> |TOP_RIGHT[r]| == 8
    ensures |BOTTOM_LEFT| == 8 && forall r :: 0 <= r < 8 ==> |BOTTOM_LEFT[r]| == 9
  {}

  /** A frame of dark modules with a dark square of nine in the middle. */
  predicate FrameAndCore(r: int, c: int) {
    0 <= r <= 6 && 0 <= c <= 6 && (r in {0, 6} || c in {0, 6} || (2 <= r <= 4 && 2 <= c <= 4))
  }

  lemma TopLeftPicture(r: nat, c: nat)
    requires r < 9 && c < 9
    ensures TOP_LEFT[r][c] == '#' <==> FrameAndCore(r, c) || (r, c) == (6, 8) || (r, c) == (8, 6)
  {}

  lemma TopRightPicture(r: nat, c: nat)
    requires r < 9 && c < 8
    ensures TOP_RIGHT[r][c] == '#' <==> FrameAndCore(r, c - 1)
  {}

  lemma BottomLeftPicture(r: nat, c: nat)
    requires r < 8 && c < 9
    ensures BOTTOM_LEFT[r][c] == '#' <==> FrameAndCore(r - 1, c) || (r, c) == (0, 8)
  {}

  lemma FinderIsFrameAndCore(r: int, c: int, top: int, left: int)
    ensures OnFinder(r, c, top + 3, left + 3) <==> -1 <= r - top <= 7 && -1 <= c - left <= 7
    ensures OnFinder(r, c, top + 3, left + 3) ==>
      (FinderDark(r, c, top + 3, left + 3) <==> FrameAndCore(r - top, c - left))
  {}

  // ----- Alignment patterns ---------------------------------------------------------------------

  /** Centres lie on row or column 6, seven from the far edge, and between (ISO/IEC 18004, Annex E). */
  lemma AlignmentCentres(version: nat)
    requires IsVersion(version)
    ensures Version(version).align ==
      if version == 1 then []
      else if version < 7 then [6, 4 * version + 10]
      else [6, 2 * version + 8, 4 * version + 10]
  {}

  const ALIGNMENT: seq<string> := [
    "#####",
    "#...#",
    "#.#.#",
    "#...#",
    "#####"
  ]

  lemma AlignmentPicture(dr: int, dc: int)
    requires -2 <= dr <= 2 && -2 <= dc <= 2
    ensures |ALIGNMENT| == 5 && |ALIGNMENT[dr + 2]| == 5
    ensures ALIGNMENT[dr + 2][dc + 2] == '#' <==> Ring(dr, dc) != 1
  {}

  /** The place of a centre in the list is found from every row or column within two of it. */
  lemma NearCentre(version: nat, k: nat, d: int)
    requires IsVersion(version) && k < |Version(version).align| && -2 <= d <= 2
    ensures NearIndex(Version(version).align, Version(version).align[k] + d) == k
  {
    CentresShape(version);
    hide Version, NearIndex;
    NearIndexUnique(Version(version).align, Version(version).align[k] + d, k);
  }

  lemma CentreRange(version: nat, k: nat)
    requires IsVersion(version) && k < |Version(version).align|
    ensures var centre := Version(version).align[k];
      centre == 6 || centre == Size(version) - 7 || 18 <= centre <= Size(version) - 19
  {
    AlignmentCentres(version);
    hide Version;
    var centres := Version(version).align;
    if 1 < version < 7 {
      assert centres == [6, 4 * version + 10];
    } else if version >= 7 {
      assert centres == [6, 2 * version + 8, 4 * version + 10];
    }
  }

  /** No alignment pattern reaches into a corner. */
  lemma CornersAreClear(version: nat, r: int, c: int)
    requires IsVersion(version) && InGrid(Size(version), r, c)
    requires (r < 9 && c < 9) || (r < 9 && c >= Size(version) - 8) || (r >= Size(version) - 8 && c < 9)
    ensures !OnAlignment(Version(version).align, Size(version), r, c)
  {
    var centres := Version(version).align;
    var a, b := NearIndex(centres, r), NearIndex(centres, c);
    if a < |centres| && b < |centres| {
      CentreRange(version, a);
      CentreRange(version, b);
    }
    hide NearIndex, Version;
  }

  /** What the finders put into the corners. */
  lemma FindersInCorners(size: nat, r: nat, c: nat)
    requires size >= 21
    ensures r < 9 && c < 9 ==>
      Finder(size, r, c) == if r < 8 && c < 8 then ModuleOf(FrameAndCore(r, c)) else Unset
    ensures r < 9 && size - 8 <= c < size ==>
      Finder(size, r, c) == if r < 8 then ModuleOf(FrameAndCore(r, c - (size - 7))) else Unset
    ensures size - 8 <= r < size && c < 9 ==>
      Finder(size, r, c) == if c < 8 then ModuleOf(FrameAndCore(r - (size - 7), c)) else Unset
  {
    FinderIsFrameAndCore(r, c, 0, 0);
    FinderIsFrameAndCore(r, c, 0, size - 7);
    FinderIsFrameAndCore(r, c, size - 7, 0);
    hide OnFinder, FinderDark, FrameAndCore;
  }

  lemma TopLeftCorner(version: nat, r: nat, c: nat)
    requires IsVersion(version) && r < 9 && c < 9
    ensures FunctionModule(version, r, c) == Drawn(TOP_LEFT[r][c])
  {
    hide OnAlignment, AlignmentDark, VersionDark, Version, Finder, TOP_LEFT;
    FindersInCorners(Size(version), r, c);
    TopLeftPicture(r, c);
    CornersAreClear(version, r, c);
  }

  lemma TopRightCorner(version: nat, r: nat, c: nat)
    requires IsVersion(version) && r < 9 && c < 8
    ensures FunctionModule(version, r, Size(version) - 8 + c) == Drawn(TOP_RIGHT[r][c])
  {
    hide OnAlignment, AlignmentDark, VersionDark, Version, Finder, TOP_RIGHT;
    FindersInCorners(Size(version), r, Size(version) - 8 + c);
    TopRightPicture(r, c);
    CornersAreClear(version, r, Size(version) - 8 + c);
  }

  lemma BottomLeftCorner(version: nat, r: nat, c: nat)
    requires IsVersion(version) && r < 8 && c < 9
    ensures FunctionModule(version, Size(version) - 8 + r, c) == Drawn(BOTTOM_LEFT[r][c])
  {
    hide OnAlignment, AlignmentDark, VersionDark, Version, Finder, BOTTOM_LEFT;
    FindersInCorners(Size(version), Size(version) - 8 + r, c);
    BottomLeftPicture(r, c);
    CornersAreClear(version, Size(version) - 8 + r, c);
  }

  // ----- Between the corners --------------------------------------------------------------------

  predicate InCorner(size: int, r: int, c: int) {
    (r < 9 && c < 9) || (r < 9 && c >= size - 8) || (r >= size - 8 && c < 9)
  }

  /** The rows and columns that version information fills from version 7 on. */
  predicate InVersionBlock(version: nat, r: int, c: int) {
    version >= 7 && ((r < 6 && Size(version) - 11 <= c < Size(version) - 8)
                     || (c < 6 && Size(version) - 11 <= r < Size(version) - 8))
  }

  /** The pairs of centres that lie in finders are three. */
  lemma CentresInFinders(version: nat, a: nat, b: nat)
    requires IsVersion(version)
    requires var last := |Version(version).align| as int - 1; a <= last && b <= last
    ensures var centres, last := Version(version).align, |Version(version).align| as int - 1;
      && CollidesWithFinder(Size(version), centres[a], centres[b]) == ((a, b) in {(0, 0), (0, last), (last, 0)})
      && centres[0] == 6 && centres[last] == Size(version) - 7
      && (a > 0 ==> centres[a] > 13) && (a < last ==> centres[a] < Size(version) - 13)
  {
    AlignmentCentres(version);
  }

  /** Alignment patterns stand at every pair of centres, apart from the three pairs inside finders. */
  lemma AlignmentPatterns(version: nat, a: nat, b: nat, dr: int, dc: int)
    requires IsVersion(version) && -2 <= dr <= 2 && -2 <= dc <= 2
    requires var last := |Version(version).align| as int - 1;
      a <= last && b <= last && (a, b) !in {(0, 0), (0, last), (last, 0)}
    ensures var centres := Version(version).align;
      InGrid(Size(version), centres[a] + dr, centres[b] + dc)
      && FunctionModule(version, centres[a] + dr, centres[b] + dc) == Drawn(ALIGNMENT[dr + 2][dc + 2])
  {
    var centres := Version(version).align;
    AlignmentPicture(dr, dc);
    NearCentre(version, a, dr);
    NearCentre(version, b, dc);
    CentresInFinders(version, a, b);
    CentresInFinders(version, b, a);
    hide NearIndex, ALIGNMENT, VersionDark, Version, Finder, Ring, CollidesWithFinder;
  }

  /** The timing lines alternate, dark on even places, wherever no alignment pattern lies on them. */
  lemma TimingLines(version: nat, k: nat)
    requires IsVersion(version) && 8 <= k < Size(version) - 8
    ensures FunctionModule(version, 6, k) == FunctionModule(version, k, 6) == ModuleOf(k % 2 == 0)
  {
    AlignmentCentres(version);
  }

  /** Nothing else is fixed. */
  lemma RestIsFree(version: nat, r: int, c: int)
    requires IsVersion(version) && InGrid(Size(version), r, c)
    requires !InCorner(Size(version), r, c) && r != 6 && c != 6 && !InVersionBlock(version, r, c)
    ensures FunctionModule(version, r, c) == Unset <==> !OnAlignment(Version(version).align, Size(version), r, c)
  {
    FinderIsFrameAndCore(r, c, 0, 0);
    FinderIsFrameAndCore(r, c, 0, Size(version) - 7);
    FinderIsFrameAndCore(r, c, Size(version) - 7, 0);
    hide OnAlignment, AlignmentDark, VersionDark, Version, OnFinder, FinderDark;
  }

  /** And no module is on an alignment pattern but within two of such a pair of centres. */
  lemma OnlyAtCentres(version: nat, r: int, c: int) returns (a: nat, b: nat)
    requires IsVersion(version) && OnAlignment(Version(version).align, Size(version), r, c)
    ensures var centres := Version(version).align;
      var last := |centres| as int - 1;
      && a <= last && b <= last && (a, b) !in {(0, 0), (0, last), (last, 0)}
      && -2 <= r - centres[a] <= 2 && -2 <= c - centres[b] <= 2
  {
    a, b := NearIndex(Version(version).align, r), NearIndex(Version(version).align, c);
    AlignmentCentres(version);
    hide NearIndex, Version;
  }

  // ----- Version information ----------------------------------------------------------------------

  /** The eighteen bits of versions 7 to 10, most significant first (ISO/IEC 18004, Annex D). */
  const VERSION_BITS: seq<string> := [
    "000111110010010100",
    "001000010110111100",
    "001001101010011001",
    "001010010011010011"
  ]

  lemma Bits7(k: nat)
    requires k < 18
    ensures WordBit(VersionWord(7), k) <==> VERSION_BITS[0][17 - k] == '1'
  {
    assert !WordBit(0x07C94, 0) && !WordBit(0x07C94, 1) && WordBit(0x07C94, 2);
    assert !WordBit(0x07C94, 3) && WordBit(0x07C94, 4) && !WordBit(0x07C94, 5);
    assert !WordBit(0x07C94, 6) && WordBit(0x07C94, 7) && !WordBit(0x07C94, 8);
    assert !WordBit(0x07C94, 9) && WordBit(0x07C94, 10) && WordBit(0x07C94, 11);
    assert WordBit(0x07C94, 12) && WordBit(0x07C94, 13) && WordBit(0x07C94, 14);
    assert !WordBit(0x07C94, 15) && !WordBit(0x07C94, 16) && !WordBit(0x07C94, 17);
    hide WordBit;
  }

  lemma Bits8(k: nat)
    requires k < 18
    ensures WordBit(VersionWord(8), k) <==> VERSION_BITS[1][17 - k] == '1'
  {
    assert !WordBit(0x085BC, 0) && !WordBit(0x085BC, 1) && WordBit(0x085BC, 2);
    assert WordBit(0x085BC, 3) && WordBit(0x085BC, 4) && WordBit(0x085BC, 5);
    assert !WordBit(0x085BC, 6) && WordBit(0x085BC, 7) && WordBit(0x085BC, 8);
    assert !WordBit(0x085BC, 9) && WordBit(0x085BC, 10) && !WordBit(0x085BC, 11);
    assert !WordBit(0x085BC, 12) && !WordBit(0x085BC, 13) && !WordBit(0x085BC, 14);
    assert WordBit(0x085BC, 15) && !WordBit(0x085BC, 16) && !WordBit(0x085BC, 17);
    hide WordBit;
  }

  lemma Bits9(k: nat)
    requires k < 18
    ensures WordBit(VersionWord(9), k) <==> VERSION_BITS[2][17 - k] == '1'
  {
    assert WordBit(0x09A99, 0) && !WordBit(0x09A99, 1) && !WordBit(0x09A99, 2);
    assert WordBit(0x09A99, 3) && WordBit(0x09A99, 4) && !WordBit(0x09A99, 5);
    assert !WordBit(0x09A99, 6) && WordBit(0x09A99, 7) && !WordBit(0x09A99, 8);
    assert WordBit(0x09A99, 9) && !WordBit(0x09A99, 10) && WordBit(0x09A99, 11);
    assert WordBit(0x09A99, 12) && !WordBit(0x09A99, 13) && !WordBit(0x09A99, 14);
    assert WordBit(0x09A99, 15) && !WordBit(0x09A99, 16) && !WordBit(0x09A99, 17);
    hide WordBit;
  }

  lemma Bits10(k: nat)
    requires k < 18
    ensures WordBit(VersionWord(10), k) <==> VERSION_BITS[3][17 - k] == '1'
  {
    assert WordBit(0x0A4D3, 0) && WordBit(0x0A4D3, 1) && !WordBit(0x0A4D3, 2);
    assert !WordBit(0x0A4D3, 3) && WordBit(0x0A4D3, 4) && !WordBit(0x0A4D3, 5);
    assert WordBit(0x0A4D3, 6) && WordBit(0x0A4D3, 7) && !WordBit(0x0A4D3, 8);
    assert !WordBit(0x0A4D3, 9) && WordBit(0x0A4D3, 10) && !WordBit(0x0A4D3, 11);
    assert !WordBit(0x0A4D3, 12) && WordBit(0x0A4D3, 13) && !WordBit(0x0A4D3, 14);
    assert WordBit(0x0A4D3, 15) && !WordBit(0x0A4D3, 16) && !WordBit(0x0A4D3, 17);
    hide WordBit;
  }

  /** The block by the upper right finder shows them from the least significant on, three to a row; the other
      block is its mirror image. */
  lemma VersionPicture(version: nat, k: nat)
    requires 7 <= version <= 10 && k < 18
    ensures |VERSION_BITS| == 4 && |VERSION_BITS[version - 7]| == 18
    ensures var size, m := Size(version), ModuleOf(VERSION_BITS[version - 7][17 - k] == '1');
      FunctionModule(version, k / 3, size - 11 + k % 3) == FunctionModule(version, size - 11 + k % 3, k / 3) == m
  {
    hide WordBit, VersionWord, Version, Finder, OnAlignment;
    match version {
      case 7 => Bits7(k);
      case 8 => Bits8(k);
      case 9 => Bits9(k);
      case _ => Bits10(k);
    }
    assert 3 * (k / 3) + k % 3 == k;
  }

  // ----- Format information ---------------------------------------------------------------------------

  /** The fifteen bits of level M under each mask, most significant first (ISO/IEC 18004, Annex C). */
  const FORMAT_BITS: seq<string> := [
    "101010000010010",
    "101000100100101",
    "101111001111100",
    "101101101001011",
    "100010111111001",
    "100000011001110",
    "100111110010111",
    "100101010100000"
  ]

  lemma FormatPicture(mask: nat, i: nat)
    requires mask < 8 && i < 15
    ensures |FORMAT_BITS| == 8 && |FORMAT_BITS[mask]| == 15
    ensures FieldBit(FormatWord(mask), i) <==> FORMAT_BITS[mask][i] == '1'
  {}

  /** Where the bits go: round the upper left finder, and again split between the other two. */
  lemma FormatPlaces(size: nat)
    requires size >= 21
    ensures [Copy1(0), Copy1(1), Copy1(2), Copy1(3), Copy1(4), Copy1(5), Copy1(6), Copy1(7)]
         == [(8, 0), (8, 1), (8, 2), (8, 3), (8, 4), (8, 5), (8, 7), (8, 8)]
    ensures [Copy1(8), Copy1(9), Copy1(10), Copy1(11), Copy1(12), Copy1(13), Copy1(14)]
         == [(7, 8), (5, 8), (4, 8), (3, 8), (2, 8), (1, 8), (0, 8)]
    ensures forall i :: 0 <= i < 7 ==> Copy2(size, i) == (size - 1 - i, 8)
    ensures forall i :: 7 <= i < 15 ==> Copy2(size, i) == (8, size - 8 + (i - 7))
  {}

  // ----- The path of the data ---------------------------------------------------------------------------

  /** The path starts in the lower right corner. */
  lemma PathStarts(size: nat)
    requires OddSize(size)
    ensures CellOf(size, START) == (size - 1, size - 1)
  {}

  /** It goes left, then right again in the next row, up in every other pair of columns and down between; at
      the end of a pair it goes left once more, over the timing column. */
  lemma PathGoesOn(size: nat, t: Step)
    requires OddSize(size) && IsStep(size, t) && Next(size, t) != End(size)
    ensures var (r, c) := CellOf(size, t);
      CellOf(size, Next(size, t)) ==
        if t.side == 0 then (r, c - 1)
        else if t.row == size - 1 then (r, if c == 7 then 5 else c - 1)
        else (if t.pair % 2 == 0 then r - 1 else r + 1, c + 1)
  {}
}
