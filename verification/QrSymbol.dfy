/** The finished symbol, and the proof that a reader gets the payload back. */
module QrSymbol {
  import opened BitStream
  import opened QrVersions
  import opened QrCodewords
  import opened QrLayout
  import opened QrZigzag
  import opened QrRoom
  import opened QrFormat
  import opened QrMasks
  import opened Wrappers

  type Grid = seq<seq<bool>>

  // ----- What a symbol is ------------------------------------------------------------------

  /** The format field, else a masked codeword bit, else the fixed module. */
  ghost function IsDark(codewords: seq<bv8>, version: nat, mask: nat, r: int, c: int): bool
    requires IsVersion(version) && InGrid(Size(version), r, c)
  {
    if 0 <= FormatIndex(Size(version), r, c) < 15 then FieldBit(FormatWord(mask), FormatIndex(Size(version), r, c))
    else if IsDataModule(version, r, c) then CodewordBit(codewords, BitIndex(version, r, c)) != MaskAt(mask, r, c)
    else FunctionModule(version, r, c) == Dark
  }

  ghost function Symbol(codewords: seq<bv8>, version: nat, mask: nat): (g: Grid)
    requires IsVersion(version)
    ensures |g| == Size(version) && forall r :: 0 <= r < |g| ==> |g[r]| == |g|
  {
    seq(Size(version), r requires 0 <= r < Size(version) =>
      seq(Size(version), c requires 0 <= c < Size(version) => IsDark(codewords, version, mask, r, c)))
  }

  // ----- Reading it (specification only) ------------------------------------------------------

  /** The first six bits of copy 1 of the format field, along row 8. */
  ghost function ReadField(grid: Grid): (bits: seq<bool>)
    requires |grid| >= 21 && forall r :: 0 <= r < |grid| ==> |grid[r]| == |grid|
    ensures |bits| == 6
  {
    grid[8][..6]
  }

  /** The modules on the path, turned back over where the picture of the mask says so. */
  ghost function ReadModules(grid: Grid, version: nat, mask: nat): (bits: seq<bool>)
    requires IsVersion(version) && |grid| == Size(version)
    requires forall r :: 0 <= r < |grid| ==> |grid[r]| == |grid|
    ensures |bits| == 8 * TotalCodewords(version)
  {
    RoomForCodewords(version);
    seq(8 * TotalCodewords(version), k requires 0 <= k < 8 * TotalCodewords(version) =>
      (DataModuleInGrid(version, k);
       var (r, c) := DataModules(version)[k];
       grid[r][c] != Turned(mask, r, c)))
  }

  /** A module the path fills with a codeword bit. */
  ghost predicate IsDataModule(version: nat, r: int, c: int)
    requires IsVersion(version)
  {
    InGrid(Size(version), r, c) && c != 6 && FunctionModule(version, r, c) == Unset
  }

  /** The number of data modules before this one. */
  ghost function BitIndex(version: nat, r: int, c: int): nat
    requires IsVersion(version) && IsDataModule(version, r, c)
  {
    Rank(UnsetIn(FixedModule(version)), Size(version), r, c)
  }

  lemma DataModuleInGrid(version: nat, k: nat)
    requires IsVersion(version) && k < |DataModules(version)|
    ensures IsDataModule(version, DataModules(version)[k].0, DataModules(version)[k].1)
    ensures BitIndex(version, DataModules(version)[k].0, DataModules(version)[k].1) == k
  {
    hide FreeCells, Rank, StepOf, FunctionModule;
    RankOfFreeCell(UnsetIn(FixedModule(version)), Size(version), End(Size(version)), k);
  }

  /** The payload of a symbol, from the modules alone. */
  ghost function ReadSymbol(grid: Grid): Option<seq<bv8>> {
    if |grid| < 21 || (|grid| - 17) % 4 != 0 || !IsVersion((|grid| - 17) / 4) then None
    else if exists r :: 0 <= r < |grid| && |grid[r]| != |grid| then None
    else
      var version := (|grid| - 17) / 4;
      TotalCodewordsTable(version);
      DataCodewordsTable(version);
      ReadCodewords(Pack(ReadModules(grid, version, MaskOfField(ReadField(grid)))), version)
  }

  lemma FieldRoundTrip(codewords: seq<bv8>, version: nat, mask: nat)
    requires IsVersion(version) && mask < 8
    ensures MaskOfField(ReadField(Symbol(codewords, version, mask))) == mask
  {
    var bits := ReadField(Symbol(codewords, version, mask));
    forall i: nat | i < 5 ensures bits[i] == FieldBit(FormatWord(mask), i) {
      assert FormatIndex(Size(version), 8, i) == i;
      assert bits[i] == IsDark(codewords, version, mask, 8, i);
    }
    MaskRoundTrip(mask, bits);
  }

  /** Reading the modules in path order gives the codeword bits. */
  lemma ModulesRoundTrip(codewords: seq<bv8>, version: nat, mask: nat)
    requires IsVersion(version) && mask < 8 && |codewords| == TotalCodewords(version)
    ensures ReadModules(Symbol(codewords, version, mask), version, mask) == BytesBits(codewords)
  {
    var grid := Symbol(codewords, version, mask);
    forall k: nat | k < 8 * TotalCodewords(version)
      ensures ReadModules(grid, version, mask)[k] == BytesBits(codewords)[k]
    {
      ModuleRoundTrip(codewords, version, mask, k);
    }
  }

  lemma ModuleRoundTrip(codewords: seq<bv8>, version: nat, mask: nat, k: nat)
    requires IsVersion(version) && mask < 8 && |codewords| == TotalCodewords(version)
    requires k < 8 * TotalCodewords(version)
    ensures ReadModules(Symbol(codewords, version, mask), version, mask)[k] == BytesBits(codewords)[k]
  {
    RoomForCodewords(version);
    DataModuleInGrid(version, k);
    var (r, c) := DataModules(version)[k];
    DataModuleShowsBit(codewords, version, mask, r, c);
    MaskTable(mask, r, c);
    hide Turned, IsDataModule, DataModules, FormatIndex, MaskAt, BitAt, TotalCodewords, BitIndex, IsDark, Version;
    assert Symbol(codewords, version, mask)[r][c] == IsDark(codewords, version, mask, r, c);
    assert CodewordBit(codewords, k) == BytesBits(codewords)[k];
  }

  lemma DataModuleShowsBit(codewords: seq<bv8>, version: nat, mask: nat, r: int, c: int)
    requires IsVersion(version) && IsDataModule(version, r, c)
    ensures IsDark(codewords, version, mask, r, c)
         == (CodewordBit(codewords, BitIndex(version, r, c)) != MaskAt(mask, r, c))
  {
    FormatIsReserved(Size(version), r, c);
    hide FunctionModule, FormatIndex, MaskAt, CodewordBit, BitIndex;
    if OnFormat(Size(version), r, c) {
      FormatModulesFixed(version, r, c);
    }
  }

  /** Nothing in the reserved area is left for data. */
  lemma FormatModulesFixed(version: nat, r: int, c: int)
    requires IsVersion(version) && InGrid(Size(version), r, c) && OnFormat(Size(version), r, c)
    ensures FunctionModule(version, r, c) != Unset
  {
    hide NearIndex, VersionDark;
  }

  /** Whatever the mask, the symbol made from the codewords of some bytes reads back as those bytes. */
  lemma SymbolRoundTrip(data: seq<bv8>, bytes: seq<bv8>, version: nat, mask: nat)
    requires IsVersion(version) && mask < 8 && |bytes| <= CapacityBytes(version)
    requires IsDataOf(data, bytes, version)
    ensures ReadSymbol(Symbol(Codewords(data, version), version, mask)) == Some(bytes)
  {
    var codewords := Codewords(data, version);
    EcRoundTrip(data, version);
    CodewordsRoundTrip(data, version);
    FieldRoundTrip(codewords, version, mask);
    assert |codewords| == TotalCodewords(version);
    ModulesRoundTrip(codewords, version, mask);
    PackRoundTrip(codewords);
    StreamRoundTrip(data, bytes, version);
    ReadOfSymbol(codewords, version, mask);
  }

  lemma ReadOfSymbol(codewords: seq<bv8>, version: nat, mask: nat)
    requires IsVersion(version) && mask < 8
    requires |codewords| == TotalCodewords(version)
    requires MaskOfField(ReadField(Symbol(codewords, version, mask))) == mask
    requires Pack(ReadModules(Symbol(codewords, version, mask), version, mask)) == codewords
    ensures |codewords| >= DataCodewords(version)
    ensures ReadSymbol(Symbol(codewords, version, mask)) == ReadCodewords(codewords, version)
  {
    hide MaskOfField, ReadField, Pack, ReadModules, ReadCodewords, Symbol, Version, DataCodewords;
  }
}
