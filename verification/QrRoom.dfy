/** There is room for every codeword: the fixed modules fit into rectangles whose areas leave
    enough of the grid free. */
module QrRoom {
  import opened QrVersions
  import opened QrLayout
  import opened QrZigzag

  datatype Rect = Rect(top: int, left: int, height: nat, width: nat)

  ghost predicate Inside(rect: Rect, r: int, c: int) {
    rect.top <= r < rect.top + rect.height && rect.left <= c < rect.left + rect.width
  }

  ghost function Cells(rect: Rect): (s: set<(int, int)>)
    ensures forall r, c :: (r, c) in s <==> Inside(rect, r, c)
  {
    set r, c | rect.top <= r < rect.top + rect.height && rect.left <= c < rect.left + rect.width :: (r, c)
  }

  lemma {:induction false} RowSize(top: int, left: int, width: nat)
    ensures |Cells(Rect(top, left, 1, width))| == width
  {
    if width > 0 {
      RowSize(top, left, width - 1);
      assert Cells(Rect(top, left, 1, width))
          == Cells(Rect(top, left, 1, width - 1)) + {(top, left + width - 1)};
    } else {
      assert Cells(Rect(top, left, 1, 0)) == {};
    }
  }

  lemma LastRow(rect: Rect)
    requires rect.height > 0
    ensures var rest, last := rect.(height := rect.height - 1),
      Rect(rect.top + rect.height - 1, rect.left, 1, rect.width);
      Cells(rect) == Cells(rest) + Cells(last) && Cells(rest) !! Cells(last)
  {}

  lemma OneMoreRow(height: nat, width: nat)
    requires height > 0
    ensures (height - 1) * width + width == height * width
  {}

  lemma UnionSize<T>(a: set<T>, b: set<T>, m: nat, n: nat)
    requires a !! b && |a| == m && |b| == n
    ensures |a + b| == m + n
  {}

  lemma {:induction false} RectSize(rect: Rect)
    ensures |Cells(rect)| == rect.height * rect.width
    decreases rect.height
  {
    if rect.height == 0 {
      assert Cells(rect) == {};
    } else {
      var rest, last := rect.(height := rect.height - 1), Rect(rect.top + rect.height - 1, rect.left, 1, rect.width);
      LastRow(rect);
      RectSize(rest);
      RowSize(last.top, last.left, last.width);
      UnionSize(Cells(rest), Cells(last), rest.height * rest.width, rect.width);
      OneMoreRow(rect.height, rect.width);
    }
  }

  ghost function AllCells(rects: seq<Rect>): (s: set<(int, int)>)
    ensures forall r, c :: (r, c) in s <==> exists k :: 0 <= k < |rects| && Inside(rects[k], r, c)
  {
    if |rects| == 0 then {} else AllCells(rects[..|rects| - 1]) + Cells(rects[|rects| - 1])
  }

  ghost function Area(rects: seq<Rect>): nat {
    if |rects| == 0 then 0 else Area(rects[..|rects| - 1]) + rects[|rects| - 1].height * rects[|rects| - 1].width
  }

  lemma {:induction false} AllCellsSize(rects: seq<Rect>)
    ensures |AllCells(rects)| <= Area(rects)
  {
    if |rects| > 0 {
      AllCellsSize(rects[..|rects| - 1]);
      RectSize(rects[|rects| - 1]);
    }
  }

  // ----- The rectangles of a version -------------------------------------------------------

  /** The corners with their format strips, and the timing lines between them. */
  ghost function Frame(size: int): seq<Rect>
    requires size >= 21
  {
    [Rect(0, 0, 9, 9), Rect(0, size - 8, 9, 8), Rect(size - 8, 0, 8, 9),
     Rect(6, 9, 1, size - 17), Rect(9, 6, size - 17, 1)]
  }

  /** Alignment patterns, without the timing line they sit on, and version blocks. */
  ghost function Extras(version: nat): seq<Rect>
    requires IsVersion(version)
  {
    var size, a := Size(version), Version(version).align;
    if version == 1 then []
    else if version < 7 then [Rect(a[1] - 2, a[1] - 2, 5, 5)]
    else
      [Rect(a[1] - 2, a[1] - 2, 5, 5), Rect(a[1] - 2, a[2] - 2, 5, 5),
       Rect(a[2] - 2, a[1] - 2, 5, 5), Rect(a[2] - 2, a[2] - 2, 5, 5),
       Rect(4, a[1] - 2, 2, 5), Rect(7, a[1] - 2, 2, 5), Rect(a[1] - 2, 4, 5, 2), Rect(a[1] - 2, 7, 5, 2),
       Rect(0, size - 11, 6, 3), Rect(size - 11, 0, 3, 6)]
  }

  ghost predicate Covered(rects: seq<Rect>, r: int, c: int) {
    exists k :: 0 <= k < |rects| && Inside(rects[k], r, c)
  }

  lemma FrameCovers(size: nat, r: int, c: int)
    requires size >= 21 && InGrid(size, r, c)
    requires Finder(size, r, c) != Unset || OnTiming(size, r, c) || OnFormat(size, r, c) || (r == size - 8 && c == 8)
    ensures Covered(Frame(size), r, c)
  {
    var f := Frame(size);
    assert Inside(f[0], r, c) || Inside(f[1], r, c) || Inside(f[2], r, c) || Inside(f[3], r, c) || Inside(f[4], r, c);
  }

  lemma VersionBlockCovered(version: nat, r: int, c: int)
    requires IsVersion(version) && version >= 7 && InGrid(Size(version), r, c)
    requires OnVersionBlock(Size(version), r, c) || OnVersionBlock(Size(version), c, r)
    ensures Covered(Extras(version), r, c)
  {
    var e := Extras(version);
    assert Inside(e[8], r, c) || Inside(e[9], r, c);
  }

  /** An alignment module is in a rectangle of its own, or on a timing line, or not drawn at all. */
  lemma AlignmentCovered(version: nat, r: int, c: int)
    requires IsVersion(version) && InGrid(Size(version), r, c)
    requires OnAlignment(Version(version).align, Size(version), r, c)
    ensures Covered(Extras(version), r, c) || Covered(Frame(Size(version)), r, c)
  {
    var centres, size, e := Version(version).align, Size(version), Extras(version);
    var a, b := NearIndex(centres, r), NearIndex(centres, c);
    assert version != 1;
    if OnTiming(size, r, c) {
      FrameCovers(size, r, c);
    } else if version < 7 {
      assert (a == 0 || a == 1) && (b == 0 || b == 1);
      assert Inside(e[0], r, c);
    } else {
      assert (a == 0 || a == 1 || a == 2) && (b == 0 || b == 1 || b == 2);
      hide NearIndex, OnAlignment, OnTiming;
      AlignmentCoveredBig(version, r, c, a, b);
    }
  }

  lemma AlignmentCoveredBig(version: nat, r: int, c: int, a: nat, b: nat)
    requires IsVersion(version) && version >= 7 && a < 3 && b < 3
    requires var centres, size := Version(version).align, Size(version);
      && !CollidesWithFinder(size, centres[a], centres[b])
      && -2 <= r - centres[a] <= 2 && -2 <= c - centres[b] <= 2
      && !(r == 6 && 8 <= c < size - 8) && !(c == 6 && 8 <= r < size - 8)
    ensures Covered(Extras(version), r, c)
  {
    var e := Extras(version);
    if a == 0 {
      assert b == 1;
      assert Inside(e[4], r, c) || Inside(e[5], r, c);
    } else if b == 0 {
      assert a == 1;
      assert Inside(e[6], r, c) || Inside(e[7], r, c);
    } else {
      assert Inside(e[0], r, c) || Inside(e[1], r, c) || Inside(e[2], r, c) || Inside(e[3], r, c);
    }
  }

  lemma FixedModuleCovered(version: nat, r: int, c: int)
    requires IsVersion(version) && InGrid(Size(version), r, c)
    requires FunctionModule(version, r, c) != Unset
    ensures Covered(Extras(version), r, c) || Covered(Frame(Size(version)), r, c)
  {
    var size := Size(version);
    if version >= 7 && (OnVersionBlock(size, r, c) || OnVersionBlock(size, c, r)) {
      VersionBlockCovered(version, r, c);
    } else if OnAlignment(Version(version).align, size, r, c) {
      AlignmentCovered(version, r, c);
    } else {
      FrameCovers(size, r, c);
    }
  }

  // ----- Counting --------------------------------------------------------------------------

  /** The codewords of a version: data, and error correction for every block. */
  function TotalCodewords(version: nat): nat
    requires IsVersion(version)
  {
    DataCodewords(version) + |BlockLengths(Version(version).groups)| * Version(version).ec
  }

  lemma {:induction false} BlockCount(version: nat)
    requires IsVersion(version)
    ensures |BlockLengths(Version(version).groups)| == [1, 1, 1, 2, 2, 4, 4, 4, 5, 5][version - 1]
  {
    var groups := Version(version).groups;
    if |groups| == 2 {
      assert groups[..1] == [groups[0]];
      assert |BlockLengths([groups[0]])| == groups[0].0;
    }
  }

  lemma TotalCodewordsTable(version: nat)
    requires IsVersion(version)
    ensures TotalCodewords(version) == [26, 44, 70, 100, 134, 172, 196, 242, 292, 346][version - 1]
  {
    DataCodewordsTable(version);
    BlockCount(version);
  }

  lemma AreaOfFrame(size: nat)
    requires size >= 21
    ensures Area(Frame(size)) == 225 + 2 * (size - 17)
  {
    var f := Frame(size);
    assert f[..4] == [f[0], f[1], f[2], f[3]];
    FourAreas(f[..4]);
  }

  lemma AreaOfExtras(version: nat)
    requires IsVersion(version)
    ensures Area(Extras(version)) == if version == 1 then 0 else if version < 7 then 25 else 176
  {
    var e := Extras(version);
    if version >= 7 {
      AreaByParts(e[..8], e[8..]);
      AreaByParts(e[..4], e[4..8]);
      assert e[..8] == e[..4] + e[4..8] && e == e[..8] + e[8..];
      FourAreas(e[..4]);
      FourAreas(e[4..8]);
      TwoAreas(e[8..]);
    } else if version > 1 {
      assert e[..0] == [];
    }
  }

  lemma TwoAreas(e: seq<Rect>)
    requires |e| == 2
    ensures Area(e) == e[0].height * e[0].width + e[1].height * e[1].width
  {
    assert e[..1][..0] == [];
    assert Area(e[..1]) == e[0].height * e[0].width;
  }

  lemma FourAreas(e: seq<Rect>)
    requires |e| == 4
    ensures Area(e) == e[0].height * e[0].width + e[1].height * e[1].width
                     + e[2].height * e[2].width + e[3].height * e[3].width
  {
    assert e[..3][..2] == e[..2];
    TwoAreas(e[..2]);
  }

  lemma {:induction false} AreaByParts(a: seq<Rect>, b: seq<Rect>)
    ensures Area(a + b) == Area(a) + Area(b)
  {
    if |b| == 0 {
      assert a + b == a;
    } else {
      assert (a + b)[..|a + b| - 1] == a + b[..|b| - 1];
      AreaByParts(a, b[..|b| - 1]);
    }
  }

  ghost function Elements<T(!new)>(s: seq<T>): set<T> { set x | x in s }

  lemma {:induction false} ElementsSize<T(!new)>(s: seq<T>)
    ensures |Elements(s)| <= |s|
  {
    if |s| > 0 {
      ElementsSize(s[..|s| - 1]);
      assert Elements(s) == Elements(s[..|s| - 1]) + {s[|s| - 1]};
    }
  }

  lemma SubsetSize<T>(a: set<T>, b: set<T>)
    requires a <= b
    ensures |a| <= |b|
  {
    assert b == a + (b - a);
  }

  /** What data may use: the grid modules no function pattern has claimed. */
  function FixedModule(version: nat): (int, int) -> Module
    requires IsVersion(version)
  {
    (r, c) => if InGrid(Size(version), r, c) then FunctionModule(version, r, c) else Light
  }

  /** Column 6 is fixed from top to bottom, so the path that skips it misses nothing. */
  lemma Column6Fixed(version: nat, r: int)
    requires IsVersion(version) && 0 <= r < Size(version)
    ensures FunctionModule(version, r, 6) != Unset
  {
    hide NearIndex, VersionDark;
  }

  ghost function DataModules(version: nat): seq<(int, int)>
    requires IsVersion(version)
  {
    FreeCells(UnsetIn(FixedModule(version)), Size(version), End(Size(version)))
  }

  /** A grid module is fixed, or data uses it. */
  lemma FixedOrUsed(version: nat, r: int, c: int)
    requires IsVersion(version) && InGrid(Size(version), r, c)
    ensures FunctionModule(version, r, c) != Unset || (r, c) in DataModules(version)
  {
    if FunctionModule(version, r, c) == Unset {
      var size := Size(version);
      Column6Fixed(version, r);
      hide FunctionModule, FreeCells;
      CellOfStepOf(size, r, c);
      FreeCellAtRank(UnsetIn(FixedModule(version)), size, r, c, End(size));
    }
  }

  /** The list of data modules together with the rectangles fills the grid. */
  lemma GridIsFilled(version: nat)
    requires IsVersion(version)
    ensures var size := Size(version);
      Cells(Rect(0, 0, size, size)) <= Elements(DataModules(version)) + AllCells(Frame(size))
        + AllCells(Extras(version))
  {
    var size := Size(version);
    hide FunctionModule, DataModules, Frame, Extras;
    forall r, c | InGrid(size, r, c)
      ensures (r, c) in Elements(DataModules(version)) + AllCells(Frame(size)) + AllCells(Extras(version))
    {
      FixedOrUsed(version, r, c);
      if FunctionModule(version, r, c) != Unset {
        FixedModuleCovered(version, r, c);
      }
    }
  }

  /** Every version has a data module for every bit of its codewords. */
  lemma RoomForCodewords(version: nat)
    requires IsVersion(version)
    ensures |DataModules(version)| >= 8 * TotalCodewords(version)
  {
    var size := Size(version);
    TotalCodewordsTable(version);
    AreaOfFrame(size);
    AreaOfExtras(version);
    GridIsFilled(version);
    var all, data, frame, extras :=
      Cells(Rect(0, 0, size, size)), Elements(DataModules(version)), AllCells(Frame(size)), AllCells(Extras(version));
    RectSize(Rect(0, 0, size, size));
    hide *;
    ElementsSize(DataModules(version));
    AllCellsSize(Frame(size));
    AllCellsSize(Extras(version));
    SubsetSize(all, data + frame + extras);
    CountRoom(version, size, |DataModules(version)|, TotalCodewords(version), |all|, Area(Frame(size)),
              Area(Extras(version)));
  }

  lemma CountRoom(version: nat, size: nat, free: nat, total: nat, all: nat, frame: nat, extras: nat)
    requires IsVersion(version) && size == Size(version) && all == size * size
    requires total == [26, 44, 70, 100, 134, 172, 196, 242, 292, 346][version - 1]
    requires frame == 225 + 2 * (size - 17)
    requires extras == if version == 1 then 0 else if version < 7 then 25 else 176
    requires all <= free + frame + extras
    ensures free >= 8 * total
  {}
}
