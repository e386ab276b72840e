/** From bytes to the codewords of a QR code: the bit stream with its padding, the blocks with
    their error correction, and their interleaving; with the reader that undoes it. */
module QrCodewords {
  import opened Gf256
  import opened BitStream
  import opened Interleave
  import opened QrVersions
  import opened ReedSolomon
  import opened Wrappers

  // ----- Reading (specification only) ------------------------------------------------

  /** The payload of a byte-mode bit stream: mode 0100, a count of c bits, and that many bytes. */
  ghost function ReadBits(bits: seq<bool>, c: nat): Option<seq<bv8>> {
    if |bits| < 4 + c || BitsNumber(bits[..4]) != 4 then None
    else
      var count := BitsNumber(bits[4..4 + c]);
      if |bits| < 4 + c + 8 * count then None
      else Some(Pack(bits[4 + c..4 + c + 8 * count]))
  }

  ghost function ReadPayload(codewords: seq<bv8>, version: nat): Option<seq<bv8>> {
    ReadBits(BytesBits(codewords), CountBits(version))
  }

  /** The data codewords inside the interleaved sequence. */
  ghost function ReadBlocks(codewords: seq<bv8>, version: nat): seq<seq<bv8>>
    requires IsVersion(version)
    requires |codewords| >= DataCodewords(version)
  {
    var lens := BlockLengths(Version(version).groups);
    BlockLengthsTotal(Version(version).groups);
    Deinterleaved(codewords[..DataCodewords(version)], lens)
  }

  ghost function ReadCodewords(codewords: seq<bv8>, version: nat): Option<seq<bv8>>
    requires IsVersion(version)
    requires |codewords| >= DataCodewords(version)
  {
    ReadPayload(Flatten(ReadBlocks(codewords, version)), version)
  }

  // ----- The data codewords ------------------------------------------------------------

  /** Mode, count, payload, and zeros up to a whole codeword. */
  ghost function Stream(bytes: seq<bv8>, version: nat): seq<bool> {
    NumberBits(4, 4) + NumberBits(|bytes|, CountBits(version)) + BytesBits(bytes) + Falses(4)
  }

  /** `out` is the padded stream followed by the filler, for as many codewords as the version has. */
  ghost predicate IsDataOf(out: seq<bv8>, bytes: seq<bv8>, version: nat)
    requires IsVersion(version)
  {
    var written := 1 + CountBits(version) / 8 + |bytes|;
    && |out| == DataCodewords(version)
    && written <= |out|
    && BytesBits(out[..written]) == Stream(bytes, version)
    && (forall i :: written <= i < |out| ==> out[i] == if (i - written) % 2 == 0 then 0xec else 0x11)
  }

  /** The letter A in version 1: mode 0100, a count of one in eight bits, the letter's eight bits and four
      zeros, and then eleven hundred and one zero one, one and ten zero one alternately up to sixteen
      codewords. */
  lemma LetterA(out: seq<bv8>)
    requires IsDataOf(out, [0x41], 1)
    ensures BytesBits(out)[..24] == [
              false, true, false, false, false, false, false, false, false, false, false, true,
              false, true, false, false, false, false, false, true, false, false, false, false]
    ensures |out| == 16 && forall i :: 3 <= i < 16 ==> out[i] == if i % 2 == 1 then 0xec else 0x11
  {
    hide Stream, BytesBits, DataCodewords, CountBits;
    DataCodewordsTable(1);
    CountTable(1);
    StreamOfA();
    FrontBits(out, 3);
  }

  lemma FrontBits(bytes: seq<bv8>, n: nat)
    requires n <= |bytes|
    ensures BytesBits(bytes)[..8 * n] == BytesBits(bytes[..n])
  {
    hide BitAt;
  }

  lemma StreamOfA()
    ensures Stream([0x41], 1) == [
              false, true, false, false, false, false, false, false, false, false, false, true,
              false, true, false, false, false, false, false, true, false, false, false, false]
  {
    hide NumberBits, BytesBits, CountBits;
    FourAndOne();
    BitsOfA();
    CountTable(1);
    assert Falses(4) == [false, false, false, false];
  }

  lemma FourAndOne()
    ensures NumberBits(4, 4) == [false, true, false, false]
    ensures NumberBits(1, 8) == [false, false, false, false, false, false, false, true]
  {
    OneMoreBit(4, 3);
    OneMoreBit(2, 2);
    OneMoreBit(1, 1);
    OneMoreBit(1, 7);
    ZeroBits(1);
    ZeroBits(7);
    hide NumberBits;
  }

  lemma OneMoreBit(value: nat, length: nat)
    ensures NumberBits(value, length + 1) == NumberBits(value / 2, length) + [value % 2 == 1]
  {}

  lemma BitsOfA()
    ensures BytesBits([0x41]) == [false, true, false, false, false, false, false, true]
  {
    assert !BitAt(0x41, 0) && BitAt(0x41, 1) && !BitAt(0x41, 2) && !BitAt(0x41, 3);
    assert !BitAt(0x41, 4) && !BitAt(0x41, 5) && !BitAt(0x41, 6) && BitAt(0x41, 7);
    hide BitAt;
  }

  lemma Slices<T>(a: seq<T>, b: seq<T>, c: seq<T>, rest: seq<T>)
    ensures var s := a + b + c + rest;
      s[..|a|] == a && s[|a|..|a| + |b|] == b && s[|a| + |b|..|a| + |b| + |c|] == c
  {}

  lemma CountFits(n: nat, version: nat)
    requires IsVersion(version) && n <= CapacityBytes(version)
    ensures n < TwoTo(CountBits(version)) && 4 < TwoTo(4)
  {
    CapacityTable(version);
    assert TwoTo(8) == 4 * TwoTo(6) && TwoTo(6) == 4 * TwoTo(4) && TwoTo(4) == 16;
    assert TwoTo(16) == 4 * TwoTo(14) && TwoTo(14) == 4 * TwoTo(12) && TwoTo(12) == 4 * TwoTo(10);
  }

  lemma BitsRoundTrip(mode: seq<bool>, count: seq<bool>, body: seq<bool>, tail: seq<bool>, bytes: seq<bv8>)
    requires |mode| == 4 && BitsNumber(mode) == 4 && BitsNumber(count) == |bytes|
    requires body == BytesBits(bytes)
    ensures ReadBits(mode + count + body + tail, |count|) == Some(bytes)
  {
    PackRoundTrip(bytes);
    assert |body| == 8 * |bytes|;
    hide BitsNumber, BytesBits, Pack;
    Slices(mode, count, body, tail);
  }

  /** Any codewords that begin with the stream of some bytes read back as those bytes. */
  lemma PrefixRoundTrip(front: seq<bv8>, back: seq<bv8>, bytes: seq<bv8>, version: nat)
    requires |bytes| < TwoTo(CountBits(version))
    requires BytesBits(front) == Stream(bytes, version)
    ensures ReadPayload(front + back, version) == Some(bytes)
  {
    assert 4 < TwoTo(4) == 4 * TwoTo(2);
    NumberRoundTrip(4, 4);
    NumberRoundTrip(|bytes|, CountBits(version));
    BytesBitsConcat(front, back);
    var c, tail := CountBits(version), BytesBits(back);
    hide BytesBits, NumberBits, TwoTo, BitsNumber, ReadBits, CountBits, Falses;
    Reassociate(NumberBits(4, 4), NumberBits(|bytes|, c), BytesBits(bytes), Falses(4), tail);
    BitsRoundTrip(NumberBits(4, 4), NumberBits(|bytes|, c), BytesBits(bytes), Falses(4) + tail, bytes);
  }

  lemma Reassociate<T>(a: seq<T>, b: seq<T>, c: seq<T>, d: seq<T>, e: seq<T>)
    ensures (a + b + c + d) + e == a + b + c + (d + e)
  {}

  lemma StreamRoundTrip(out: seq<bv8>, bytes: seq<bv8>, version: nat)
    requires IsVersion(version) && |bytes| <= CapacityBytes(version)
    requires IsDataOf(out, bytes, version)
    ensures ReadPayload(out, version) == Some(bytes)
  {
    var written := 1 + CountBits(version) / 8 + |bytes|;
    CountFits(|bytes|, version);
    hide *;
    assert out == out[..written] + out[written..];
    PrefixRoundTrip(out[..written], out[written..], bytes, version);
  }

  /** Write the payload byte by byte. */
  method WriteBytes(w: BitWriter, bytes: seq<bv8>)
    modifies w
    ensures w.bits == old(w.bits) + BytesBits(bytes)
  {
    hide BytesBits, NumberBits;
    assert BytesBits(bytes[..0]) == [];
    for i := 0 to |bytes|
      invariant w.bits == old(w.bits) + BytesBits(bytes[..i])
    {
      ByteIsNumber(bytes[i]);
      BytesBitsConcat(bytes[..i], [bytes[i]]);
      assert bytes[..i] + [bytes[i]] == bytes[..i + 1];
      w.Push(Index(bytes[i]), 8);
    }
    assert bytes[..|bytes|] == bytes;
  }

  /** The part of the encoder that writes bits. */
  method WriteStream(w: BitWriter, bytes: seq<bv8>, version: nat)
    requires IsVersion(version) && |bytes| <= CapacityBytes(version) && w.bits == []
    modifies w
    ensures w.bits == Stream(bytes, version)
  {
    hide BytesBits, NumberBits, DataCodewords;
    var total := DataCodewords(version);
    w.Push(4, 4);
    w.Push(|bytes|, CountBits(version));
    WriteBytes(w, bytes);
    // Up to four zero bits end the stream; more fill its last byte.
    var room := total * 8 - |w.bits|;
    w.Push(0, if room < 4 then room else 4);
    ZeroBits(4);
    var partial := |w.bits| % 8;
    w.Push(0, if partial != 0 then 8 - partial else 0);
  }

  method EncodeData(bytes: seq<bv8>, version: nat) returns (out: array<bv8>)
    requires IsVersion(version) && |bytes| <= CapacityBytes(version)
    ensures fresh(out)
    ensures IsDataOf(out[..], bytes, version)
    ensures ReadPayload(out[..], version) == Some(bytes)
  {
    hide BytesBits, DataCodewords, NumberBits;
    var total := DataCodewords(version);
    var w := new BitWriter();
    WriteStream(w, bytes, version);
    out := new bv8[total](_ => 0);
    var written := w.ToBytes();
    ghost var packed := written[..];
    assert BytesBits(packed) == Stream(bytes, version);
    assert written.Length == 1 + CountBits(version) / 8 + |bytes|;
    forall i | 0 <= i < written.Length {
      out[i] := written[i];
    }
    assert out[..|packed|] == packed;
    for i := written.Length to total
      invariant out[..|packed|] == packed
      invariant forall k :: (written.Length <= k < i ==>
        out[k] == if (k - written.Length) % 2 == 0 then 0xec else 0x11)
    {
      out[i] := if (i - written.Length) % 2 == 0 then 0xec else 0x11;
    }
    assert |packed| == 1 + CountBits(version) / 8 + |bytes|;
    assert out[..][..|packed|] == packed;
    StreamRoundTrip(out[..], bytes, version);
  }

  lemma {:induction false} ZeroBits(length: nat)
    ensures NumberBits(0, length) == Falses(length)
  {
    if length > 0 {
      ZeroBits(length - 1);
    }
  }

  // ----- Blocks and interleaving ----------------------------------------------------------

  ghost function EcBlocks(blocks: seq<seq<bv8>>, ec: nat): (r: seq<seq<bv8>>)
    ensures |r| == |blocks|
  {
    seq(|blocks|, b requires 0 <= b < |blocks| => ErrorCorrection(blocks[b], ec))
  }

  /** The data cut into the blocks of the version. */
  ghost function DataBlocks(data: seq<bv8>, version: nat): (blocks: seq<seq<bv8>>)
    requires IsVersion(version) && |data| == DataCodewords(version)
    ensures |blocks| == |BlockLengths(Version(version).groups)|
  {
    BlockLengthsTotal(Version(version).groups);
    Cut(data, BlockLengths(Version(version).groups))
  }

  lemma DataBlocksShape(data: seq<bv8>, version: nat)
    requires IsVersion(version) && |data| == DataCodewords(version)
    ensures Flatten(DataBlocks(data, version)) == data
    ensures Lengths(DataBlocks(data, version)) == BlockLengths(Version(version).groups)
    ensures Total(Lengths(DataBlocks(data, version))) == |data|
  {
    BlockLengthsTotal(Version(version).groups);
    CutRoundTrip(data, BlockLengths(Version(version).groups));
  }

  /** The codewords in the order they are placed: the data blocks interleaved, then their
      error correction interleaved. */
  ghost function Codewords(data: seq<bv8>, version: nat): seq<bv8>
    requires IsVersion(version) && |data| == DataCodewords(version)
  {
    Interleaved(DataBlocks(data, version)) + Interleaved(EcBlocks(DataBlocks(data, version), Version(version).ec))
  }

  /** De-interleaving recovers every data block, and so the data. */
  lemma CodewordsRoundTrip(data: seq<bv8>, version: nat)
    requires IsVersion(version) && |data| == DataCodewords(version)
    ensures |Codewords(data, version)| >= |data|
    ensures ReadBlocks(Codewords(data, version), version) == DataBlocks(data, version)
    ensures Flatten(ReadBlocks(Codewords(data, version), version)) == data
  {
    DataBlocksShape(data, version);
    hide Version, DataCodewords, IsVersion, BlockLengths, Interleaved, EcBlocks, DataBlocks;
    var blocks := DataBlocks(data, version);
    InterleaveRoundTrip(blocks);
    assert Codewords(data, version)[..|data|] == Interleaved(blocks);
  }

  /** Behind the data stand the error-correction blocks, one per data block, and de-interleaving
      recovers each of them. */
  lemma EcRoundTrip(data: seq<bv8>, version: nat)
    requires IsVersion(version) && |data| == DataCodewords(version)
    ensures var blocks, ec := DataBlocks(data, version), Version(version).ec;
      && Total(Copies(|blocks|, ec)) == |blocks| * ec
      && |Codewords(data, version)| == |data| + |blocks| * ec
      && Deinterleaved(Codewords(data, version)[|data|..], Copies(|blocks|, ec)) == EcBlocks(blocks, ec)
  {
    DataBlocksShape(data, version);
    var blocks, ec := DataBlocks(data, version), Version(version).ec;
    hide Version, DataCodewords, IsVersion, BlockLengths, Interleaved, ErrorCorrection, DataBlocks;
    InterleavedLength(blocks);
    var ecs := EcBlocks(blocks, ec);
    assert Lengths(ecs) == Copies(|blocks|, ec);
    InterleaveRoundTrip(ecs);
    TotalCopies(|blocks|, ec);
    assert Codewords(data, version)[|data|..] == Interleaved(ecs);
  }

  // ----- The loops that build them -------------------------------------------------------

  /** The first n blocks of a cut. */
  lemma {:induction false} CutPrefix<T>(data: seq<T>, lens: seq<nat>, n: nat)
    requires Total(lens) == |data| && n < |lens|
    ensures Total(lens[..n]) + lens[n] <= |data|
    ensures Cut(data, lens)[n] == data[Total(lens[..n])..Total(lens[..n]) + lens[n]]
  {
    if n > 0 {
      FirstCut(data, lens, n);
      hide Cut, Total;
      var first, t, d := lens[0], Total(lens[1..][..n - 1]), lens[n];
      CutPrefix(data[first..], lens[1..], n - 1);
      SliceOfRest(data, first, t, d);
    }
  }

  /** Behind the first block the rest is cut in the same way. */
  lemma FirstCut<T>(data: seq<T>, lens: seq<nat>, n: nat)
    requires Total(lens) == |data| && 0 < n < |lens|
    ensures lens[0] <= |data| && Total(lens[1..]) == |data[lens[0]..]|
    ensures Cut(data, lens)[n] == Cut(data[lens[0]..], lens[1..])[n - 1]
    ensures Total(lens[..n]) == lens[0] + Total(lens[1..][..n - 1])
  {
    assert lens[..n][1..] == lens[1..][..n - 1];
  }

  lemma SliceOfRest<T>(data: seq<T>, first: nat, t: nat, d: nat)
    requires first + t + d <= |data|
    ensures data[first..][t..t + d] == data[first + t..first + t + d]
  {}

  lemma TotalNext(lens: seq<nat>, n: nat)
    requires n < |lens|
    ensures Total(lens[..n + 1]) == Total(lens[..n]) + lens[n]
  {
    assert lens[..n + 1] == lens[..n] + [lens[n]];
    TotalConcat(lens[..n], [lens[n]]);
  }

  lemma EcBlocksNext(blocks: seq<seq<bv8>>, block: seq<bv8>, ec: nat)
    ensures EcBlocks(blocks + [block], ec) == EcBlocks(blocks, ec) + [ErrorCorrection(block, ec)]
  {
    hide ErrorCorrection;
  }

  lemma SplitStart(data: seq<bv8>, lens: seq<nat>, ec: nat)
    ensures EcBlocks([], ec) == [] && Total(lens[..0]) == 0
  {}

  /** Cut the data and compute each block's error correction, block after block. */
  method SplitBlocks(tables: GfTables, data: seq<bv8>, lens: seq<nat>, ec: nat)
      returns (dataBlocks: seq<seq<bv8>>, ecBlocks: seq<seq<bv8>>)
    requires tables.Valid() && Total(lens) == |data| && ec <= 512
    ensures dataBlocks == Cut(data, lens) && ecBlocks == EcBlocks(dataBlocks, ec)
  {
    hide ErrorCorrection, Cut, Total, EcBlocks;
    dataBlocks, ecBlocks := [], [];
    var offset := 0;
    SplitStart(data, lens, ec);
    for n := 0 to |lens|
      invariant tables.Valid()
      invariant |dataBlocks| == n && offset == Total(lens[..n])
      invariant forall b :: 0 <= b < n ==> dataBlocks[b] == Cut(data, lens)[b]
      invariant ecBlocks == EcBlocks(dataBlocks, ec)
    {
      CutPrefix(data, lens, n);
      TotalNext(lens, n);
      var block := data[offset..offset + lens[n]];
      offset := offset + lens[n];
      var rem := RsEncode(tables, block, ec);
      EcBlocksNext(dataBlocks, block, ec);
      dataBlocks := dataBlocks + [block];
      ecBlocks := ecBlocks + [rem[..]];
    }
  }

  /** The groups of the version spelled out block by block, as the nested loops run. */
  method ListBlocks(groups: seq<(nat, nat)>) returns (lens: seq<nat>)
    ensures lens == BlockLengths(groups)
  {
    lens := [];
    for g := 0 to |groups|
      invariant lens == BlockLengths(groups[..g])
    {
      var (count, size) := groups[g];
      ghost var before := lens;
      for i := 0 to count
        invariant lens == before + Copies(i, size)
      {
        lens := lens + [size];
      }
      assert groups[..g + 1][..g] == groups[..g];
    }
    assert groups[..|groups|] == groups;
  }

  lemma ColumnNext<T>(blocks: seq<seq<T>>, i: nat, b: nat)
    requires b < |blocks|
    ensures Column(blocks[..b + 1], i) == Column(blocks[..b], i) + (if i < |blocks[b]| then [blocks[b][i]] else [])
  {
    assert blocks[..b + 1] == blocks[..b] + [blocks[b]];
    ColumnConcat(blocks[..b], [blocks[b]], i);
  }

  lemma {:induction false} ColumnConcat<T>(a: seq<seq<T>>, b: seq<seq<T>>, i: nat)
    ensures Column(a + b, i) == Column(a, i) + Column(b, i)
  {
    if |a| == 0 {
      assert a + b == b;
    } else {
      assert (a + b)[1..] == a[1..] + b;
      ColumnConcat(a[1..], b, i);
    }
  }

  /** The interleaving loops: column by column, skipping blocks that have run out. */
  method ReadColumns(blocks: seq<seq<bv8>>, columns: nat) returns (out: seq<bv8>)
    ensures out == Columns(blocks, columns)
  {
    out := [];
    for i := 0 to columns
      invariant out == Columns(blocks, i)
    {
      ghost var before := out;
      for b := 0 to |blocks|
        invariant out == before + Column(blocks[..b], i)
      {
        ColumnNext(blocks, i, b);
        if i < |blocks[b]| {
          out := out + [blocks[b][i]];
        }
      }
      assert blocks[..|blocks|] == blocks;
    }
  }

  method BuildCodewords(tables: GfTables, data: seq<bv8>, version: nat) returns (out: seq<bv8>)
    requires tables.Valid()
    requires IsVersion(version) && |data| == DataCodewords(version)
    ensures out == Codewords(data, version)
  {
    var spec := Version(version);
    BlockLengthsTotal(spec.groups);
    SpecShape(version);
    BlocksExist(spec.groups);
    hide Version, ErrorCorrection, Cut, Columns, Longest, BlockLengths;
    var lens := ListBlocks(spec.groups);
    var dataBlocks, ecBlocks := SplitBlocks(tables, data, lens, spec.ec);
    var front := ReadColumns(dataBlocks, Longest(Lengths(dataBlocks)));
    var back := ReadColumns(ecBlocks, spec.ec);
    EqualLengths(ecBlocks, spec.ec);
    out := front + back;
  }

  lemma SpecShape(version: nat)
    requires IsVersion(version)
    ensures var spec := Version(version);
      spec.ec <= 26 && |spec.groups| > 0 && spec.groups[|spec.groups| - 1].0 > 0
  {}

  lemma {:induction false} LongestOfCopies(n: nat, size: nat)
    requires n > 0
    ensures Longest(Copies(n, size)) == size
  {
    assert Copies(n, size)[1..] == Copies(n - 1, size);
    if n > 1 {
      LongestOfCopies(n - 1, size);
    }
  }

  lemma EqualLengths(blocks: seq<seq<bv8>>, ec: nat)
    requires forall b :: 0 <= b < |blocks| ==> |blocks[b]| == ec
    ensures |blocks| > 0 ==> Longest(Lengths(blocks)) == ec
  {
    assert Lengths(blocks) == Copies(|blocks|, ec);
    if |blocks| > 0 {
      LongestOfCopies(|blocks|, ec);
    }
  }

  lemma BlocksExist(groups: seq<(nat, nat)>)
    requires |groups| > 0 && groups[|groups| - 1].0 > 0
    ensures |BlockLengths(groups)| > 0
  {}
}
