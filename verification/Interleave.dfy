/** Block interleaving: the blocks are read column by column, and a block that has run out
    is skipped.  Generic in what is interleaved. */
module Interleave {

  /** The i-th elements of the blocks that have one, in block order. */
  function Column<T>(blocks: seq<seq<T>>, i: nat): seq<T> {
    if |blocks| == 0 then []
    else (if i < |blocks[0]| then [blocks[0][i]] else []) + Column(blocks[1..], i)
  }

  /** The first n columns one after the other. */
  function Columns<T>(blocks: seq<seq<T>>, n: nat): seq<T> {
    if n == 0 then [] else Columns(blocks, n - 1) + Column(blocks, n - 1)
  }

  function Lengths<T>(blocks: seq<seq<T>>): (lens: seq<nat>)
    ensures |lens| == |blocks|
  {
    seq(|blocks|, b requires 0 <= b < |blocks| => |blocks[b]|)
  }

  function Total(lens: seq<nat>): nat {
    if |lens| == 0 then 0 else lens[0] + Total(lens[1..])
  }

  function Longest(lens: seq<nat>): (n: nat)
    ensures forall b :: 0 <= b < |lens| ==> lens[b] <= n
  {
    if |lens| == 0 then 0
    else
      var rest := Longest(lens[1..]);
      assert forall b :: 1 <= b < |lens| ==> lens[b] == lens[1..][b - 1];
      if lens[0] > rest then lens[0] else rest
  }

  function Interleaved<T>(blocks: seq<seq<T>>): seq<T> {
    Columns(blocks, Longest(Lengths(blocks)))
  }

  /** Of a block of two and one of three: the first of each, the second of each, and what is left of the longer. */
  lemma TwoAndThree<T>(a: T, b: T, c: T, d: T, e: T)
    ensures Interleaved([[a, b], [c, d, e]]) == [a, c, b, d, e]
  {
    var x, y := [a, b], [c, d, e];
    ColumnOfTwo(x, y, 0);
    ColumnOfTwo(x, y, 1);
    ColumnOfTwo(x, y, 2);
    LongestOfTwo(2, 3);
    assert Lengths([x, y]) == [2, 3];
    hide Column, Lengths, Longest;
    assert Columns([x, y], 0) == [];
    assert Columns([x, y], 1) == [a, c];
    assert Columns([x, y], 2) == [a, c, b, d];
    assert Columns([x, y], 3) == [a, c, b, d, e];
  }

  lemma ColumnOfTwo<T>(x: seq<T>, y: seq<T>, i: nat)
    ensures Column([x, y], i) == (if i < |x| then [x[i]] else []) + (if i < |y| then [y[i]] else [])
  {
    var none: seq<seq<T>> := [];
    assert [x, y][1..] == [y] && [y][1..] == none;
    assert Column(none, i) == [];
    assert Column([y], i) == if i < |y| then [y[i]] else [];
  }

  lemma LongestOfTwo(m: nat, n: nat)
    ensures Longest([m, n]) == if m > n then m else n
  {
    assert [m, n][1..] == [n] && [n][1..] == [];
    assert Longest([]) == 0;
  }

  // ----- Reading back -----------------------------------------------------------------

  /** How many blocks are longer than i. */
  function ColumnSize(lens: seq<nat>, i: nat): nat {
    if |lens| == 0 then 0 else (if i < lens[0] then 1 else 0) + ColumnSize(lens[1..], i)
  }

  function ColumnsSize(lens: seq<nat>, n: nat): nat {
    if n == 0 then 0 else ColumnsSize(lens, n - 1) + ColumnSize(lens, n - 1)
  }

  /** Where element i of block b is found. */
  function Position(lens: seq<nat>, b: nat, i: nat): nat
    requires b < |lens|
  {
    ColumnsSize(lens, i) + ColumnSize(lens[..b], i)
  }

  lemma {:induction false} ColumnLength<T>(blocks: seq<seq<T>>, i: nat)
    ensures |Column(blocks, i)| == ColumnSize(Lengths(blocks), i)
  {
    if |blocks| > 0 {
      ColumnLength(blocks[1..], i);
      assert Lengths(blocks)[1..] == Lengths(blocks[1..]);
    }
  }

  lemma {:induction false} ColumnsLength<T>(blocks: seq<seq<T>>, n: nat)
    ensures |Columns(blocks, n)| == ColumnsSize(Lengths(blocks), n)
  {
    hide Column, ColumnSize, Lengths;
    if n > 0 {
      ColumnsLength(blocks, n - 1);
      ColumnLength(blocks, n - 1);
    }
  }

  lemma {:induction false} ColumnElement<T>(blocks: seq<seq<T>>, b: nat, i: nat)
    requires b < |blocks| && i < |blocks[b]|
    ensures ColumnSize(Lengths(blocks)[..b], i) < |Column(blocks, i)|
    ensures Column(blocks, i)[ColumnSize(Lengths(blocks)[..b], i)] == blocks[b][i]
  {
    if b > 0 {
      ColumnElement(blocks[1..], b - 1, i);
      assert Lengths(blocks)[..b][1..] == Lengths(blocks[1..])[..b - 1];
    }
  }

  lemma {:induction false} ColumnsPrefix<T>(blocks: seq<seq<T>>, m: nat, n: nat)
    requires m <= n
    ensures Columns(blocks, m) <= Columns(blocks, n)
  {
    if m < n {
      ColumnsPrefix(blocks, m, n - 1);
    }
  }

  lemma PrefixOfInterleaved<T>(blocks: seq<seq<T>>, i: nat)
    requires i < Longest(Lengths(blocks))
    ensures Columns(blocks, i) + Column(blocks, i) <= Interleaved(blocks)
  {
    ColumnsPrefix(blocks, i + 1, Longest(Lengths(blocks)));
  }

  lemma ElementOfPrefix<T>(front: seq<T>, back: seq<T>, whole: seq<T>, k: nat)
    requires front + back <= whole && k < |back|
    ensures |front| + k < |whole| && whole[|front| + k] == back[k]
  {
    assert (front + back)[|front| + k] == back[k];
  }

  /** Every element is where Position says. */
  lemma ElementAtPosition<T>(blocks: seq<seq<T>>, b: nat, i: nat)
    requires b < |blocks| && i < |blocks[b]|
    ensures Position(Lengths(blocks), b, i) < |Interleaved(blocks)|
    ensures Interleaved(blocks)[Position(Lengths(blocks), b, i)] == blocks[b][i]
  {
    var lens := Lengths(blocks);
    assert lens[b] <= Longest(lens);
    PrefixOfInterleaved(blocks, i);
    ColumnElement(blocks, b, i);
    ColumnsLength(blocks, i);
    ElementOfPrefix(Columns(blocks, i), Column(blocks, i), Interleaved(blocks), ColumnSize(lens[..b], i));
  }

  /** min(length, n) summed over the blocks. */
  function TotalUpTo(lens: seq<nat>, n: nat): nat {
    if |lens| == 0 then 0 else (if lens[0] < n then lens[0] else n) + TotalUpTo(lens[1..], n)
  }

  lemma {:induction false} TotalUpToStep(lens: seq<nat>, n: nat)
    ensures TotalUpTo(lens, n + 1) == TotalUpTo(lens, n) + ColumnSize(lens, n)
  {
    if |lens| > 0 {
      TotalUpToStep(lens[1..], n);
    }
  }

  lemma {:induction false} ColumnsSizeIsTotal(lens: seq<nat>, n: nat)
    ensures ColumnsSize(lens, n) == TotalUpTo(lens, n)
  {
    if n > 0 {
      ColumnsSizeIsTotal(lens, n - 1);
      TotalUpToStep(lens, n - 1);
    } else {
      TotalUpToZero(lens);
    }
  }

  lemma {:induction false} TotalUpToZero(lens: seq<nat>)
    ensures TotalUpTo(lens, 0) == 0
  {
    if |lens| > 0 {
      TotalUpToZero(lens[1..]);
    }
  }

  lemma {:induction false} TotalUpToAll(lens: seq<nat>, n: nat)
    requires forall b :: 0 <= b < |lens| ==> lens[b] <= n
    ensures TotalUpTo(lens, n) == Total(lens)
  {
    if |lens| > 0 {
      TotalUpToAll(lens[1..], n);
    }
  }

  /** Interleaving keeps the number of elements. */
  lemma InterleavedLength<T>(blocks: seq<seq<T>>)
    ensures |Interleaved(blocks)| == Total(Lengths(blocks))
  {
    var lens := Lengths(blocks);
    ColumnsLength(blocks, Longest(lens));
    ColumnsSizeIsTotal(lens, Longest(lens));
    TotalUpToAll(lens, Longest(lens));
  }

  /** Positions stay inside any sequence as long as the blocks together. */
  lemma PositionInRange(lens: seq<nat>, b: nat, i: nat)
    requires b < |lens| && i < lens[b]
    ensures Position(lens, b, i) < Total(lens)
  {
    var blocks := seq(|lens|, c requires 0 <= c < |lens| => seq(lens[c], _ => false));
    assert Lengths(blocks) == lens;
    ElementAtPosition(blocks, b, i);
    InterleavedLength(blocks);
  }

  /** The blocks, recovered from the interleaved sequence and their lengths. */
  ghost function Deinterleaved<T>(out: seq<T>, lens: seq<nat>): (blocks: seq<seq<T>>)
    requires |out| == Total(lens)
    ensures |blocks| == |lens|
  {
    seq(|lens|, b requires 0 <= b < |lens| => BlockOf(out, lens, b))
  }

  ghost function BlockOf<T>(out: seq<T>, lens: seq<nat>, b: nat): (block: seq<T>)
    requires |out| == Total(lens) && b < |lens|
    ensures |block| == lens[b]
  {
    seq(lens[b], i requires 0 <= i < lens[b] => (PositionInRange(lens, b, i); out[Position(lens, b, i)]))
  }

  /** De-interleaving undoes interleaving, whatever the block lengths. */
  lemma InterleaveRoundTrip<T>(blocks: seq<seq<T>>)
    ensures |Interleaved(blocks)| == Total(Lengths(blocks))
    ensures Deinterleaved(Interleaved(blocks), Lengths(blocks)) == blocks
  {
    var lens := Lengths(blocks);
    InterleavedLength(blocks);
    forall b | 0 <= b < |blocks| ensures BlockOf(Interleaved(blocks), lens, b) == blocks[b] {
      forall i | 0 <= i < |blocks[b]| ensures BlockOf(Interleaved(blocks), lens, b)[i] == blocks[b][i] {
        ElementAtPosition(blocks, b, i);
      }
    }
  }

  // ----- Cutting data into blocks ---------------------------------------------------------

  function Cut<T>(data: seq<T>, lens: seq<nat>): (blocks: seq<seq<T>>)
    requires Total(lens) == |data|
    ensures |blocks| == |lens|
  {
    if |lens| == 0 then [] else [data[..lens[0]]] + Cut(data[lens[0]..], lens[1..])
  }

  function Flatten<T>(blocks: seq<seq<T>>): seq<T> {
    if |blocks| == 0 then [] else blocks[0] + Flatten(blocks[1..])
  }

  lemma {:induction false} CutRoundTrip<T>(data: seq<T>, lens: seq<nat>)
    requires Total(lens) == |data|
    ensures Flatten(Cut(data, lens)) == data && Lengths(Cut(data, lens)) == lens
  {
    if |lens| > 0 {
      CutRoundTrip(data[lens[0]..], lens[1..]);
      var first, rest := data[..lens[0]], Cut(data[lens[0]..], lens[1..]);
      assert Cut(data, lens) == [first] + rest;
      hide Cut, Flatten;
      FlattenFirst(first, rest);
      LengthsFirst(first, rest);
      assert first + data[lens[0]..] == data && [lens[0]] + lens[1..] == lens;
    }
  }

  lemma FlattenFirst<T>(first: seq<T>, rest: seq<seq<T>>)
    ensures Flatten([first] + rest) == first + Flatten(rest)
  {
    assert ([first] + rest)[1..] == rest;
  }

  lemma LengthsFirst<T>(first: seq<T>, rest: seq<seq<T>>)
    ensures Lengths([first] + rest) == [|first|] + Lengths(rest)
  {
  }
}
