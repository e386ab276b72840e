/** The eight data masks (ISO/IEC 18004, section 7.8.2): the conditions of the source, and the patterns they
    have to draw, given as pictures. */
module QrMasks {
  predicate MaskAt(mask: nat, r: nat, c: nat) {
    if mask == 0 then (r + c) % 2 == 0
    else if mask == 1 then r % 2 == 0
    else if mask == 2 then c % 3 == 0
    else if mask == 3 then (r + c) % 3 == 0
    else if mask == 4 then (r / 2 + c / 3) % 2 == 0
    else if mask == 5 then (r * c) % 2 + (r * c) % 3 == 0
    else if mask == 6 then ((r * c) % 2 + (r * c) % 3) % 2 == 0
    else ((r + c) % 2 + (r * c) % 3) % 2 == 0
  }

  // ----- The pictures: '#' where a mask turns a module over ---------------------------------------

  const TILE_000: seq<string> := [
    "#.#.#.#.#.#.", ".#.#.#.#.#.#", "#.#.#.#.#.#.", ".#.#.#.#.#.#", "#.#.#.#.#.#.", ".#.#.#.#.#.#",
    "#.#.#.#.#.#.", ".#.#.#.#.#.#", "#.#.#.#.#.#.", ".#.#.#.#.#.#", "#.#.#.#.#.#.", ".#.#.#.#.#.#"
  ]

  const TILE_001: seq<string> := [
    "############", "............", "############", "............", "############", "............",
    "############", "............", "############", "............", "############", "............"
  ]

  const TILE_010: seq<string> := [
    "#..#..#..#..", "#..#..#..#..", "#..#..#..#..", "#..#..#..#..", "#..#..#..#..", "#..#..#..#..",
    "#..#..#..#..", "#..#..#..#..", "#..#..#..#..", "#..#..#..#..", "#..#..#..#..", "#..#..#..#.."
  ]

  const TILE_011: seq<string> := [
    "#..#..#..#..", "..#..#..#..#", ".#..#..#..#.", "#..#..#..#..", "..#..#..#..#", ".#..#..#..#.",
    "#..#..#..#..", "..#..#..#..#", ".#..#..#..#.", "#..#..#..#..", "..#..#..#..#", ".#..#..#..#."
  ]

  const TILE_100: seq<string> := [
    "###...###...", "###...###...", "...###...###", "...###...###", "###...###...", "###...###...",
    "...###...###", "...###...###", "###...###...", "###...###...", "...###...###", "...###...###"
  ]

  const TILE_101: seq<string> := [
    "############", "#.....#.....", "#..#..#..#..", "#.#.#.#.#.#.", "#..#..#..#..", "#.....#.....",
    "############", "#.....#.....", "#..#..#..#..", "#.#.#.#.#.#.", "#..#..#..#..", "#.....#....."
  ]

  const TILE_110: seq<string> := [
    "############", "###...###...", "##.##.##.##.", "#.#.#.#.#.#.", "#.##.##.##.#", "#...###...##",
    "############", "###...###...", "##.##.##.##.", "#.#.#.#.#.#.", "#.##.##.##.#", "#...###...##"
  ]

  const TILE_111: seq<string> := [
    "#.#.#.#.#.#.", "...###...###", "#...###...##", ".#.#.#.#.#.#", "###...###...", ".###...###..",
    "#.#.#.#.#.#.", "...###...###", "#...###...##", ".#.#.#.#.#.#", "###...###...", ".###...###.."
  ]

  function Tile(mask: nat): (tile: seq<string>)
    ensures |tile| == 12 && forall r :: 0 <= r < 12 ==> |tile[r]| == 12
  {
    if mask == 0 then TILE_000 else if mask == 1 then TILE_001 else if mask == 2 then TILE_010
    else if mask == 3 then TILE_011 else if mask == 4 then TILE_100 else if mask == 5 then TILE_101
    else if mask == 6 then TILE_110 else TILE_111
  }

  /** What the picture shows, repeated over the grid. */
  predicate Turned(mask: nat, r: nat, c: nat) { Tile(mask)[r % 12][c % 12] == '#' }

  // ----- The conditions, by remainders only --------------------------------------------------------

  predicate Pattern(mask: nat, r2: nat, r3: nat, r4: nat, c2: nat, c3: nat, c6: nat) {
    var third := if r3 == 0 || c3 == 0 then 0 else if r3 == c3 then 1 else 2;
    var even := r2 == 0 || c2 == 0;
    if mask == 0 then r2 == c2
    else if mask == 1 then r2 == 0
    else if mask == 2 then c3 == 0
    else if mask == 3 then c3 == if r3 == 0 then 0 else 3 - r3
    else if mask == 4 then (r4 < 2) == (c6 < 3)
    else if mask == 5 then even && third == 0
    else if mask == 6 then even == (third != 1)
    else (r2 == c2) == (third != 1)
  }

  predicate ByResidues(mask: nat, r: nat, c: nat) { Pattern(mask, r % 2, r % 3, r % 4, c % 2, c % 3, c % 6) }

  lemma Halves(r: nat, c: nat)
    ensures r * c % 2 == if r % 2 == 0 || c % 2 == 0 then 0 else 1
  {
    var p, x := r / 2, r % 2;
    var k := p * c;
    assert r * c == 2 * k + x * c;
    OverTwo(k, x * c);
    assert x == 0 || x == 1;
  }

  lemma OverTwo(k: nat, z: nat)
    ensures (2 * k + z) % 2 == z % 2
  {}

  lemma Thirds(r: nat, c: nat)
    ensures r * c % 3 == if r % 3 == 0 || c % 3 == 0 then 0 else if r % 3 == c % 3 then 1 else 2
  {
    var p, x := r / 3, r % 3;
    var k := p * c;
    assert r * c == 3 * k + x * c;
    OverThree(k, x * c);
    TwiceOverThree(c);
    assert x == 0 || x == 1 || x == 2;
  }

  lemma OverThree(k: nat, z: nat)
    ensures (3 * k + z) % 3 == z % 3
  {}

  lemma TwiceOverThree(c: nat)
    ensures 2 * c % 3 == if c % 3 == 0 then 0 else 3 - c % 3
  {
    OverThree(2 * (c / 3), 2 * (c % 3));
  }

  lemma SumOverTwo(r: nat, c: nat)
    ensures (r + c) % 2 == 0 <==> r % 2 == c % 2
  {}

  lemma SumOverThree(r: nat, c: nat)
    ensures (r + c) % 3 == 0 <==> c % 3 == if r % 3 == 0 then 0 else 3 - r % 3
  {}

  lemma Residues(mask: nat, r: nat, c: nat)
    requires mask < 8
    ensures MaskAt(mask, r, c) == ByResidues(mask, r, c)
  {
    Halves(r, c);
    Thirds(r, c);
    SumOverTwo(r, c);
    SumOverThree(r, c);
    Quarters(r, c);
  }

  lemma Quarters(r: nat, c: nat)
    ensures (r / 2 + c / 3) % 2 == 0 <==> (r % 4 < 2) == (c % 6 < 3)
  {
    SumOverTwo(r / 2, c / 3);
    HalfOfFour(r);
    ThirdOfSix(c);
  }

  lemma HalfOfFour(r: nat)
    ensures r / 2 % 2 == 0 <==> r % 4 < 2
  {}

  lemma ThirdOfSix(c: nat)
    ensures c / 3 % 2 == 0 <==> c % 6 < 3
  {}

  /** Each mask repeats every twelve rows and columns. */
  lemma MaskRepeats(mask: nat, r: nat, c: nat)
    requires mask < 8
    ensures MaskAt(mask, r, c) == MaskAt(mask, r % 12, c % 12)
  {
    Residues(mask, r, c);
    Residues(mask, r % 12, c % 12);
    hide MaskAt, Pattern;
    SameRemainders(r);
    SameRemainders(c);
  }

  lemma SameRemainders(a: nat)
    ensures a % 12 % 2 == a % 2 && a % 12 % 3 == a % 3
    ensures a % 12 % 4 == a % 4 && a % 12 % 6 == a % 6
  {
    var p, x := a / 12, a % 12;
    assert a == 12 * p + x;
    OverTwo(6 * p, x);
    OverThree(4 * p, x);
    OverFour(3 * p, x);
    OverSix(2 * p, x);
  }

  lemma OverFour(k: nat, z: nat)
    ensures (4 * k + z) % 4 == z % 4
  {}

  lemma OverSix(k: nat, z: nat)
    ensures (6 * k + z) % 6 == z % 6
  {}

  // ----- They draw the pictures --------------------------------------------------------------------

  lemma Tile000_0(r: nat, c: nat)
    requires r < 4 && c < 12
    ensures ByResidues(0, r, c) <==> TILE_000[r][c] == '#'
  {}

  lemma Tile000_1(r: nat, c: nat)
    requires 4 <= r < 8 && c < 12
    ensures ByResidues(0, r, c) <==> TILE_000[r][c] == '#'
  {}

  lemma Tile000_2(r: nat, c: nat)
    requires 8 <= r < 12 && c < 12
    ensures ByResidues(0, r, c) <==> TILE_000[r][c] == '#'
  {}

  lemma Tile001(r: nat, c: nat)
    requires r < 12 && c < 12
    ensures ByResidues(1, r, c) <==> TILE_001[r][c] == '#'
  {}

  lemma Tile010(r: nat, c: nat)
    requires r < 12 && c < 12
    ensures ByResidues(2, r, c) <==> TILE_010[r][c] == '#'
  {}

  lemma Tile011_0(r: nat, c: nat)
    requires r < 3 && c < 12
    ensures ByResidues(3, r, c) <==> TILE_011[r][c] == '#'
  {}

  lemma Tile011_1(r: nat, c: nat)
    requires 3 <= r < 6 && c < 12
    ensures ByResidues(3, r, c) <==> TILE_011[r][c] == '#'
  {}

  lemma Tile011_2(r: nat, c: nat)
    requires 6 <= r < 9 && c < 12
    ensures ByResidues(3, r, c) <==> TILE_011[r][c] == '#'
  {}

  lemma Tile011_3(r: nat, c: nat)
    requires 9 <= r < 12 && c < 12
    ensures ByResidues(3, r, c) <==> TILE_011[r][c] == '#'
  {}

  lemma Tile100_0(r: nat, c: nat)
    requires r < 3 && c < 12
    ensures ByResidues(4, r, c) <==> TILE_100[r][c] == '#'
  {}

  lemma Tile100_1(r: nat, c: nat)
    requires 3 <= r < 6 && c < 12
    ensures ByResidues(4, r, c) <==> TILE_100[r][c] == '#'
  {}

  lemma Tile100_2(r: nat, c: nat)
    requires 6 <= r < 9 && c < 12
    ensures ByResidues(4, r, c) <==> TILE_100[r][c] == '#'
  {}

  lemma Tile100_3(r: nat, c: nat)
    requires 9 <= r < 12 && c < 12
    ensures ByResidues(4, r, c) <==> TILE_100[r][c] == '#'
  {}

  lemma Tile101_0(r: nat, c: nat)
    requires r < 3 && c < 12
    ensures ByResidues(5, r, c) <==> TILE_101[r][c] == '#'
  {}

  lemma Tile101_1(r: nat, c: nat)
    requires 3 <= r < 6 && c < 12
    ensures ByResidues(5, r, c) <==> TILE_101[r][c] == '#'
  {}

  lemma Tile101_2(r: nat, c: nat)
    requires 6 <= r < 9 && c < 12
    ensures ByResidues(5, r, c) <==> TILE_101[r][c] == '#'
  {}

  lemma Tile101_3(r: nat, c: nat)
    requires 9 <= r < 12 && c < 12
    ensures ByResidues(5, r, c) <==> TILE_101[r][c] == '#'
  {}

  lemma Tile110_0(r: nat, c: nat)
    requires r < 3 && c < 12
    ensures ByResidues(6, r, c) <==> TILE_110[r][c] == '#'
  {}

  lemma Tile110_1(r: nat, c: nat)
    requires 3 <= r < 6 && c < 12
    ensures ByResidues(6, r, c) <==> TILE_110[r][c] == '#'
  {}

  lemma Tile110_2(r: nat, c: nat)
    requires 6 <= r < 9 && c < 12
    ensures ByResidues(6, r, c) <==> TILE_110[r][c] == '#'
  {}

  lemma Tile110_3(r: nat, c: nat)
    requires 9 <= r < 12 && c < 12
    ensures ByResidues(6, r, c) <==> TILE_110[r][c] == '#'
  {}

  lemma Tile111_0(r: nat, c: nat)
    requires r < 3 && c < 12
    ensures ByResidues(7, r, c) <==> TILE_111[r][c] == '#'
  {}

  lemma Tile111_1(r: nat, c: nat)
    requires 3 <= r < 6 && c < 12
    ensures ByResidues(7, r, c) <==> TILE_111[r][c] == '#'
  {}

  lemma Tile111_2(r: nat, c: nat)
    requires 6 <= r < 9 && c < 12
    ensures ByResidues(7, r, c) <==> TILE_111[r][c] == '#'
  {}

  lemma Tile111_3(r: nat, c: nat)
    requires 9 <= r < 12 && c < 12
    ensures ByResidues(7, r, c) <==> TILE_111[r][c] == '#'
  {}

  lemma MaskTile(mask: nat, r: nat, c: nat)
    requires mask < 8 && r < 12 && c < 12
    ensures MaskAt(mask, r, c) <==> Tile(mask)[r][c] == '#'
  {
    Residues(mask, r, c);
    hide MaskAt, ByResidues;
    match mask {
    case 0 =>
      if r < 4 { Tile000_0(r, c); } else if r < 8 { Tile000_1(r, c); } else { Tile000_2(r, c); }
    case 1 =>
      Tile001(r, c);
    case 2 =>
      Tile010(r, c);
    case 3 =>
      if r < 6 {
        if r < 3 { Tile011_0(r, c); } else { Tile011_1(r, c); }
      } else {
        if r < 9 { Tile011_2(r, c); } else { Tile011_3(r, c); }
      }
    case 4 =>
      if r < 6 {
        if r < 3 { Tile100_0(r, c); } else { Tile100_1(r, c); }
      } else {
        if r < 9 { Tile100_2(r, c); } else { Tile100_3(r, c); }
      }
    case 5 =>
      if r < 6 {
        if r < 3 { Tile101_0(r, c); } else { Tile101_1(r, c); }
      } else {
        if r < 9 { Tile101_2(r, c); } else { Tile101_3(r, c); }
      }
    case 6 =>
      if r < 6 {
        if r < 3 { Tile110_0(r, c); } else { Tile110_1(r, c); }
      } else {
        if r < 9 { Tile110_2(r, c); } else { Tile110_3(r, c); }
      }
    case _ =>
      if r < 6 {
        if r < 3 { Tile111_0(r, c); } else { Tile111_1(r, c); }
      } else {
        if r < 9 { Tile111_2(r, c); } else { Tile111_3(r, c); }
      }
    }
  }

  /** Every mask turns over exactly what its picture says, wherever in the grid. */
  lemma MaskTable(mask: nat, r: nat, c: nat)
    requires mask < 8
    ensures MaskAt(mask, r, c) <==> Turned(mask, r, c)
  {
    hide MaskAt, Tile;
    MaskRepeats(mask, r, c);
    MaskTile(mask, r % 12, c % 12);
  }
}
