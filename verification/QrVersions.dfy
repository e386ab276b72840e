/** The version tables: versions 1 to 10 at error-correction level M. */
module QrVersions {
  import opened Interleave
  import opened Wrappers

  /** EC codewords per block; block groups as (count, data codewords per block); alignment centres. */
  datatype VersionSpec = VersionSpec(ec: nat, groups: seq<(nat, nat)>, align: seq<nat>)

  const MAX_VERSION := 10

  predicate IsVersion(version: nat) { 1 <= version <= MAX_VERSION }

  function Version(version: nat): VersionSpec
    requires IsVersion(version)
  {
    if version == 1 then VersionSpec(10, [(1, 16)], [])
    else if version == 2 then VersionSpec(16, [(1, 28)], [6, 18])
    else if version == 3 then VersionSpec(26, [(1, 44)], [6, 22])
    else if version == 4 then VersionSpec(18, [(2, 32)], [6, 26])
    else if version == 5 then VersionSpec(24, [(2, 43)], [6, 30])
    else if version == 6 then VersionSpec(16, [(4, 27)], [6, 34])
    else if version == 7 then VersionSpec(18, [(4, 31)], [6, 22, 38])
    else if version == 8 then VersionSpec(22, [(2, 38), (2, 39)], [6, 24, 42])
    else if version == 9 then VersionSpec(22, [(3, 36), (2, 37)], [6, 26, 46])
    else VersionSpec(26, [(4, 43), (1, 44)], [6, 28, 50])
  }

  function SumGroups(groups: seq<(nat, nat)>): nat {
    if |groups| == 0 then 0 else SumGroups(groups[..|groups| - 1]) + groups[|groups| - 1].0 * groups[|groups| - 1].1
  }

  function DataCodewords(version: nat): nat
    requires IsVersion(version)
  {
    SumGroups(Version(version).groups)
  }

  function CountBits(version: nat): nat { if version < 10 then 8 else 16 }

  /** The most bytes a version holds: one codeword less than its data for the mode and
      terminator, and one or two less for the count. */
  function CapacityBytes(version: nat): int
    requires IsVersion(version)
  {
    DataCodewords(version) - 1 - CountBits(version) / 8
  }

  lemma DataCodewordsTable(version: nat)
    requires IsVersion(version)
    ensures DataCodewords(version) == [16, 28, 44, 64, 86, 108, 124, 154, 182, 216][version - 1]
  {
    var groups := Version(version).groups;
    if |groups| == 2 {
      assert groups[..1] == [groups[0]];
      assert SumGroups([groups[0]]) == groups[0].0 * groups[0].1;
    }
  }

  lemma CapacityTable(version: nat)
    requires IsVersion(version)
    ensures CapacityBytes(version) == [14, 26, 42, 62, 84, 106, 122, 152, 180, 213][version - 1]
  {
    DataCodewordsTable(version);
  }

  lemma CapacityIncreases(u: nat, v: nat)
    requires IsVersion(u) && IsVersion(v) && u <= v
    ensures CapacityBytes(u) <= CapacityBytes(v)
  {
    CapacityTable(u);
    CapacityTable(v);
  }

  /** The smallest version that holds the payload, or none above 213 bytes. */
  method PickVersion(byteLength: nat) returns (r: Option<nat>)
    ensures r.None? <==> byteLength > 213
    ensures r.Some? ==> IsVersion(r.value) && byteLength <= CapacityBytes(r.value)
    ensures r.Some? ==> forall u :: 1 <= u < r.value ==> byteLength > CapacityBytes(u)
  {
    var v := 1;
    while v <= MAX_VERSION
      invariant 1 <= v <= MAX_VERSION + 1
      invariant forall u :: 1 <= u < v ==> byteLength > CapacityBytes(u)
    {
      if byteLength <= CapacityBytes(v) {
        CapacityIncreases(v, 10);
        CapacityTable(10);
        return Some(v);
      }
      v := v + 1;
    }
    CapacityTable(10);
    return None;
  }

  // ----- Block lengths -----------------------------------------------------------

  function Copies(n: nat, size: nat): (lens: seq<nat>)
    ensures |lens| == n
  {
    seq(n, _ => size)
  }

  /** The data length of every block, group after group. */
  function BlockLengths(groups: seq<(nat, nat)>): seq<nat> {
    if |groups| == 0 then []
    else BlockLengths(groups[..|groups| - 1]) + Copies(groups[|groups| - 1].0, groups[|groups| - 1].1)
  }

  /** How the standard splits the data: so many blocks, all of one length or the last ones one longer, and so
      many error correction codewords for each (ISO/IEC 18004, Table 9). */
  lemma BlockTable(version: nat)
    requires IsVersion(version)
    ensures var lens, n := BlockLengths(Version(version).groups), [1, 1, 1, 2, 2, 4, 4, 4, 5, 5][version - 1];
      && Version(version).ec == [10, 16, 26, 18, 24, 16, 18, 22, 22, 26][version - 1]
      && |lens| == n
      && forall b :: 0 <= b < n ==>
           lens[b] == DataCodewords(version) / n + (if b < n - DataCodewords(version) % n then 0 else 1)
  {
    DataCodewordsTable(version);
    BlocksOfGroups(Version(version).groups);
    hide DataCodewords, BlockLengths;
  }

  lemma BlocksOfGroups(groups: seq<(nat, nat)>)
    requires 1 <= |groups| <= 2
    ensures |groups| == 1 ==> BlockLengths(groups) == Copies(groups[0].0, groups[0].1)
    ensures |groups| == 2 ==>
      BlockLengths(groups) == Copies(groups[0].0, groups[0].1) + Copies(groups[1].0, groups[1].1)
  {
    assert BlockLengths(groups[..0]) == [];
    if |groups| == 2 {
      assert groups[..1][..0] == groups[..0] && groups[..1][0] == groups[0];
      assert BlockLengths(groups[..1]) == Copies(groups[0].0, groups[0].1);
    }
  }

  /** The count has eight bits up to version 9 and sixteen after (ISO/IEC 18004, Table 3). */
  lemma CountTable(version: nat)
    requires IsVersion(version)
    ensures CountBits(version) == [8, 8, 8, 8, 8, 8, 8, 8, 8, 16][version - 1]
  {}

  lemma {:induction false} TotalConcat(a: seq<nat>, b: seq<nat>)
    ensures Total(a + b) == Total(a) + Total(b)
  {
    if |a| == 0 {
      assert a + b == b;
    } else {
      assert (a + b)[1..] == a[1..] + b;
      TotalConcat(a[1..], b);
    }
  }

  lemma {:induction false} TotalCopies(n: nat, size: nat)
    ensures Total(Copies(n, size)) == n * size
  {
    if n > 0 {
      assert Copies(n, size)[1..] == Copies(n - 1, size);
      TotalCopies(n - 1, size);
    }
  }

  /** The groups cover the data exactly. */
  lemma {:induction false} BlockLengthsTotal(groups: seq<(nat, nat)>)
    ensures Total(BlockLengths(groups)) == SumGroups(groups)
  {
    if |groups| > 0 {
      BlockLengthsTotal(groups[..|groups| - 1]);
      TotalConcat(BlockLengths(groups[..|groups| - 1]), Copies(groups[|groups| - 1].0, groups[|groups| - 1].1));
      TotalCopies(groups[|groups| - 1].0, groups[|groups| - 1].1);
    }
  }
}
