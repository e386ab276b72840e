/** The encoder from payload to module grid: the loops of the source over a mutable matrix. */
module QrEncoder {
  import opened Gf256
  import opened QrVersions
  import opened QrCodewords
  import opened QrLayout
  import opened QrZigzag
  import opened QrRoom
  import opened QrFormat
  import opened QrMasks
  import opened QrSymbol
  import opened Wrappers

  /** The module at (r, c) when all data is placed and the first k data modules are masked. */
  ghost function MaskedModule(codewords: seq<bv8>, version: nat, mask: nat, k: nat, r: int, c: int): Module
    requires IsVersion(version)
  {
    if IsDataModule(version, r, c)
    then
      var i := BitIndex(version, r, c);
      ModuleOf(CodewordBit(codewords, i) != (i < k && MaskAt(mask, r, c)))
    else FixedModule(version)(r, c)
  }

  ghost function Masked(codewords: seq<bv8>, version: nat, mask: nat, k: nat): (int, int) -> Module
    requires IsVersion(version)
  {
    (r, c) => MaskedModule(codewords, version, mask, k, r, c)
  }

  ghost predicate Shows(m: array2<Module>, version: nat, cells: (int, int) -> Module)
    requires IsVersion(version)
    reads m
  {
    && m.Length0 == m.Length1 == Size(version)
    && forall r, c :: 0 <= r < m.Length0 && 0 <= c < m.Length1 ==> m[r, c] == cells(r, c)
  }

  /** When the path has ended, every data module holds its bit and no module is left unset. */
  lemma PathEnded(m: array2<Module>, codewords: seq<bv8>, used: seq<(int, int)>, version: nat, mask: nat)
    requires IsVersion(version) && m.Length0 == m.Length1 == Size(version)
    requires Placing(m, FixedModule(version), codewords, used, End(Size(version)))
    ensures Shows(m, version, Masked(codewords, version, mask, 0)) && used == DataModules(version)
    ensures forall r, c :: 0 <= r < m.Length0 && 0 <= c < m.Length1 ==> m[r, c] != Unset
  {
    var size := Size(version);
    forall r, c | InGrid(size, r, c)
      ensures m[r, c] == Masked(codewords, version, mask, 0)(r, c) && m[r, c] != Unset
    {
      ModuleAtEnd(m, codewords, used, version, mask, r, c);
    }
  }

  lemma ModuleAtEnd(m: array2<Module>, codewords: seq<bv8>, used: seq<(int, int)>, version: nat, mask: nat, r: int,
                    c: int)
    requires IsVersion(version) && m.Length0 == m.Length1 == Size(version)
    requires Placing(m, FixedModule(version), codewords, used, End(Size(version)))
    requires InGrid(Size(version), r, c)
    ensures m[r, c] == Masked(codewords, version, mask, 0)(r, c) && m[r, c] != Unset
  {
    if c == 6 {
      Column6Fixed(version, r);
    } else {
      CellOfStepOf(Size(version), r, c);
    }
    hide FunctionModule, Rank, CodewordBit, StepOf;
  }

  /** A data module stands in the list at its bit index. */
  lemma DataModuleAtIndex(version: nat, r: int, c: int)
    requires IsVersion(version) && IsDataModule(version, r, c)
    ensures BitIndex(version, r, c) < |DataModules(version)|
    ensures DataModules(version)[BitIndex(version, r, c)] == (r, c)
  {
    hide FunctionModule, StepOf, CellOf, FreeCells;
    CellOfStepOf(Size(version), r, c);
    FreeCellAtRank(UnsetIn(FixedModule(version)), Size(version), r, c, End(Size(version)));
  }

  /** Masking one more module changes that module only. */
  lemma MaskedNext(codewords: seq<bv8>, version: nat, mask: nat, k: nat, r: int, c: int)
    requires IsVersion(version) && k < |DataModules(version)|
    ensures (r, c) != DataModules(version)[k] ==>
      MaskedModule(codewords, version, mask, k + 1, r, c) == MaskedModule(codewords, version, mask, k, r, c)
    ensures (r, c) == DataModules(version)[k] ==>
      InGrid(Size(version), r, c)
      && MaskedModule(codewords, version, mask, k, r, c) == ModuleOf(CodewordBit(codewords, k))
      && MaskedModule(codewords, version, mask, k + 1, r, c)
        == ModuleOf(CodewordBit(codewords, k) != MaskAt(mask, r, c))
  {
    hide FunctionModule, BitIndex, DataModules, MaskAt, CodewordBit, FixedModule;
    if (r, c) == DataModules(version)[k] {
      DataModuleInGrid(version, k);
    } else if IsDataModule(version, r, c) {
      DataModuleAtIndex(version, r, c);
    }
  }

  /** One turn of the masking loop. */
  method FlipModule(m: array2<Module>, cell: (int, int), mask: nat, ghost codewords: seq<bv8>, ghost version: nat,
                    ghost k: nat)
    requires IsVersion(version) && k < |DataModules(version)| && cell == DataModules(version)[k]
    requires Shows(m, version, Masked(codewords, version, mask, k))
    modifies m
    ensures Shows(m, version, Masked(codewords, version, mask, k + 1))
  {
    MaskedNext(codewords, version, mask, k, cell.0, cell.1);
    hide MaskedModule, DataModules, CodewordBit, MaskAt;
    var (r, c) := cell;
    if MaskAt(mask, r, c) {
      m[r, c] := if m[r, c] == Dark then Light else Dark;
    }
    forall p, q | InGrid(m.Length0, p, q) ensures m[p, q] == MaskedModule(codewords, version, mask, k + 1, p, q) {
      MaskedNext(codewords, version, mask, k, p, q);
    }
  }

  /** Mask a copy of the grid and write its format field. */
  method Candidate(m: array2<Module>, free: seq<(int, int)>, mask: nat, ghost codewords: seq<bv8>, ghost version: nat)
      returns (grid: Grid)
    requires IsVersion(version) && mask < 8 && free == DataModules(version)
    requires Shows(m, version, Masked(codewords, version, mask, 0))
    ensures grid == Symbol(codewords, version, mask)
  {
    hide Masked, Symbol, DataModules, FormatUpTo;
    var candidate := CopyOf(m);
    for k := 0 to |free|
      invariant fresh(candidate)
      invariant Shows(candidate, version, Masked(codewords, version, mask, k))
    {
      FlipModule(candidate, free[k], mask, codewords, version, k);
    }
    PlaceFormat(candidate, mask, Masked(codewords, version, mask, |free|));
    FinalGrid(candidate, codewords, version, mask);
    grid := Rows(candidate);
  }

  lemma FinalGrid(m: array2<Module>, codewords: seq<bv8>, version: nat, mask: nat)
    requires IsVersion(version) && mask < 8 && m.Length0 == m.Length1 == Size(version)
    requires FormatUpTo(m, Masked(codewords, version, mask, |DataModules(version)|), mask, 15)
    ensures Rows(m) == Symbol(codewords, version, mask)
  {
    hide MaskedModule, IsDark, FormatIndex, FieldBit, FormatWord, DataModules;
    forall r, c | InGrid(Size(version), r, c) ensures Rows(m)[r][c] == Symbol(codewords, version, mask)[r][c] {
      FinalModule(codewords, version, mask, r, c);
    }
    forall r | 0 <= r < Size(version) ensures Rows(m)[r] == Symbol(codewords, version, mask)[r] {}
  }

  method CopyOf(m: array2<Module>) returns (copy: array2<Module>)
    ensures fresh(copy) && copy.Length0 == m.Length0 && copy.Length1 == m.Length1
    ensures forall r, c :: 0 <= r < m.Length0 && 0 <= c < m.Length1 ==> copy[r, c] == m[r, c]
  {
    copy := new Module[m.Length0, m.Length1](
      (r, c) requires 0 <= r < m.Length0 && 0 <= c < m.Length1 reads m => m[r, c]);
  }

  /** The grid as rows of booleans, true for dark. */
  function Rows(m: array2<Module>): (grid: Grid)
    reads m
    ensures |grid| == m.Length0
    ensures forall r :: 0 <= r < m.Length0 ==> |grid[r]| == m.Length1
    ensures forall r, c :: 0 <= r < m.Length0 && 0 <= c < m.Length1 ==> grid[r][c] == (m[r, c] == Dark)
  {
    seq(m.Length0, r requires 0 <= r < m.Length0 reads m =>
      seq(m.Length1, c requires 0 <= c < m.Length1 reads m => m[r, c] == Dark))
  }

  lemma FinalModule(codewords: seq<bv8>, version: nat, mask: nat, r: int, c: int)
    requires IsVersion(version) && mask < 8 && InGrid(Size(version), r, c)
    ensures var i := FormatIndex(Size(version), r, c);
      IsDark(codewords, version, mask, r, c)
      == if 0 <= i < 15 then FieldBit(FormatWord(mask), i)
         else MaskedModule(codewords, version, mask, |DataModules(version)|, r, c) == Dark
  {
    if IsDataModule(version, r, c) {
      DataModuleAtIndex(version, r, c);
    } else {
      FixedOrColumn6(version, r, c);
    }
    hide FunctionModule, BitIndex, CodewordBit, MaskAt, FormatIndex, FieldBit, FormatWord, DataModules;
  }

  lemma FixedOrColumn6(version: nat, r: int, c: int)
    requires IsVersion(version) && InGrid(Size(version), r, c) && !IsDataModule(version, r, c)
    ensures FunctionModule(version, r, c) != Unset
  {
    if c == 6 {
      Column6Fixed(version, r);
    }
    hide FunctionModule;
  }

  /** The first mask whose symbol has the lowest penalty. */
  ghost predicate IsBest(grid: Grid, codewords: seq<bv8>, version: nat, penalty: Grid -> int, tried: nat)
    requires IsVersion(version)
  {
    exists mask: nat :: mask < tried && grid == Symbol(codewords, version, mask)
      && (forall k: nat :: k < tried ==> penalty(grid) <= penalty(Symbol(codewords, version, k)))
      && (forall k: nat :: k < mask ==> penalty(grid) < penalty(Symbol(codewords, version, k)))
  }

  /** The candidate of least penalty, the first of equals. */
  method BestMask(m: array2<Module>, free: seq<(int, int)>, penalty: Grid -> int, ghost codewords: seq<bv8>,
                  ghost version: nat)
      returns (best: Grid)
    requires IsVersion(version) && free == DataModules(version)
    requires forall mask: nat :: mask < 8 ==> Shows(m, version, Masked(codewords, version, mask, 0))
    ensures IsBest(best, codewords, version, penalty, 8)
  {
    hide Masked, Shows, DataModules, Symbol;
    best := [];
    for mask := 0 to 8
      invariant mask > 0 ==> IsBest(best, codewords, version, penalty, mask)
    {
      var candidate := Candidate(m, free, mask, codewords, version);
      var score := penalty(candidate);
      if mask == 0 || score < penalty(best) {
        best := candidate;
      }
    }
  }

  /** The grid without masks and format: every module set. */
  method PlaceAll(tables: GfTables, data: seq<bv8>, version: nat)
      returns (m: array2<Module>, free: seq<(int, int)>, ghost codewords: seq<bv8>)
    requires tables.Valid()
    requires IsVersion(version) && |data| == DataCodewords(version)
    ensures fresh(m) && free == DataModules(version) && codewords == Codewords(data, version)
    ensures forall mask: nat :: mask < 8 ==> Shows(m, version, Masked(codewords, version, mask, 0))
    ensures forall r, c :: 0 <= r < m.Length0 && 0 <= c < m.Length1 ==> m[r, c] != Unset
  {
    hide Masked, Shows, DataModules, Codewords, DataCodewords, FunctionModule, Placing;
    m := EmptyMatrix(Size(version));
    PlaceFunctionPatterns(m, version);
    var words := BuildCodewords(tables, data, version);
    codewords := words;
    free := PlaceData(m, words, FixedModule(version));
    forall mask: nat | mask < 8 ensures Shows(m, version, Masked(codewords, version, mask, 0)) {
      PathEnded(m, codewords, free, version, mask);
    }
    PathEnded(m, codewords, free, version, 0);
  }

  /** A grid is an encoding of a payload: its smallest version, its padded data, and the best mask. */
  ghost predicate IsEncoding(grid: Grid, bytes: seq<bv8>, penalty: Grid -> int) {
    exists version: nat, data: seq<bv8> ::
      && IsVersion(version) && |bytes| <= CapacityBytes(version)
      && (forall u: nat :: 1 <= u < version ==> |bytes| > CapacityBytes(u))
      && IsDataOf(data, bytes, version)
      && IsBest(grid, Codewords(data, version), version, penalty, 8)
  }

  /** Encode a payload.  Fails above 213 bytes; otherwise the grid is the symbol of the first mask
      with the lowest penalty, and a reader gets the payload back from it. */
  method QrMatrix(tables: GfTables, bytes: seq<bv8>, penalty: Grid -> int) returns (r: Option<Grid>)
    requires tables.Valid()
    ensures r.None? <==> |bytes| > 213
    ensures r.Some? ==> IsEncoding(r.value, bytes, penalty)
    ensures r.Some? ==> ReadSymbol(r.value) == Some(bytes)
  {
    var picked := PickVersion(|bytes|);
    if picked.None? {
      return None;
    }
    var version := picked.value;
    var data := EncodeData(bytes, version);
    ghost var contents := data[..];
    var m, free, codewords := PlaceAll(tables, data[..], version);
    var best := BestMask(m, free, penalty, codewords, version);
    ghost var chosen: nat :| chosen < 8 && best == Symbol(codewords, version, chosen);
    hide *;
    SymbolRoundTrip(contents, bytes, version, chosen);
    return Some(best);
  }
}
