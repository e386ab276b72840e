/** Zigzag data placement: column pairs from right to left, alternately upward and downward,
    skipping the vertical timing pattern in column 6. */
module QrZigzag {
  import opened BitStream
  import opened QrLayout

  // ----- The path ---------------------------------------------------------------------

  /** A step of the path: column pair, row within the pair in walking order, side of the pair. */
  datatype Step = Step(pair: nat, row: nat, side: nat)

  predicate OddSize(size: nat) { size >= 21 && size % 2 == 1 }

  const START := Step(0, 0, 0)

  /** One past the last step. */
  function End(size: nat): Step { Step(size / 2, 0, 0) }

  predicate IsStep(size: nat, t: Step) {
    t.pair < size / 2 && t.row < size && t.side < 2
  }

  /** The right-hand column of a pair: column 6 is skipped. */
  function PairColumn(size: nat, pair: nat): int {
    var right := size as int - 1 - 2 * pair;
    if right > 6 then right else right - 1
  }

  /** The module visited. */
  function CellOf(size: nat, t: Step): (int, int) {
    (if t.pair % 2 == 0 then size as int - 1 - t.row else t.row, PairColumn(size, t.pair) - t.side)
  }

  /** The step that visits a module outside column 6. */
  function StepOf(size: nat, r: int, c: int): Step
    requires OddSize(size) && InGrid(size, r, c) && c != 6
  {
    var pair := if c > 6 then (size - 1 - c) / 2 else (size - 2 - c) / 2;
    Step(pair, if pair % 2 == 0 then size - 1 - r else r, PairColumn(size, pair) - c)
  }

  /** Every module outside column 6 is visited, by its step. */
  lemma CellOfStepOf(size: nat, r: int, c: int)
    requires OddSize(size) && InGrid(size, r, c) && c != 6
    ensures IsStep(size, StepOf(size, r, c)) && CellOf(size, StepOf(size, r, c)) == (r, c)
  {}

  /** Every step visits a module outside column 6, and no other step visits it. */
  lemma StepOfCellOf(size: nat, t: Step)
    requires OddSize(size) && IsStep(size, t)
    ensures InGrid(size, CellOf(size, t).0, CellOf(size, t).1) && CellOf(size, t).1 != 6
    ensures StepOf(size, CellOf(size, t).0, CellOf(size, t).1) == t
  {}

  function Next(size: nat, t: Step): Step {
    if t.side == 0 then t.(side := 1)
    else if t.row + 1 < size then Step(t.pair, t.row + 1, 0)
    else Step(t.pair + 1, 0, 0)
  }

  predicate Before(a: Step, b: Step) {
    a.pair < b.pair || (a.pair == b.pair && (a.row < b.row || (a.row == b.row && a.side < b.side)))
  }

  predicate IsPoint(size: nat, t: Step) { IsStep(size, t) || t == End(size) }

  // ----- Free modules in path order ------------------------------------------------------

  /** Which modules data may use. */
  type Layout = (int, int) -> bool

  /** The step before t. */
  function Previous(size: nat, t: Step): Step
    requires size > 0
  {
    if t.side > 0 then t.(side := t.side - 1)
    else if t.row > 0 then Step(t.pair, t.row - 1, 1)
    else if t.pair > 0 then Step(t.pair - 1, size - 1, 1)
    else t
  }

  /** The free modules visited before t, in order. */
  ghost function FreeCells(free: Layout, size: nat, t: Step): seq<(int, int)>
    requires size > 0
    decreases t.pair, t.row, t.side
  {
    if t == START then []
    else
      var (r, c) := CellOf(size, Previous(size, t));
      FreeCells(free, size, Previous(size, t)) + (if free(r, c) then [(r, c)] else [])
  }

  /** How many free modules come before (r, c). */
  ghost function Rank(free: Layout, size: nat, r: int, c: int): nat
    requires OddSize(size) && InGrid(size, r, c) && c != 6
  {
    |FreeCells(free, size, StepOf(size, r, c))|
  }

  lemma {:induction false} FreeCellsPrefix(free: Layout, size: nat, s: Step, t: Step)
    requires OddSize(size) && IsStep(size, s) && IsPoint(size, t) && (s == t || Before(s, t))
    ensures FreeCells(free, size, s) <= FreeCells(free, size, t)
    decreases t.pair, t.row, t.side
  {
    if s != t {
      FreeCellsPrefix(free, size, s, Previous(size, t));
    }
  }

  /** A free module stands in the list at its rank. */
  lemma FreeCellAtRank(free: Layout, size: nat, r: int, c: int, t: Step)
    requires OddSize(size) && InGrid(size, r, c) && c != 6 && free(r, c)
    requires IsPoint(size, t) && Before(StepOf(size, r, c), t)
    ensures Rank(free, size, r, c) < |FreeCells(free, size, t)|
    ensures FreeCells(free, size, t)[Rank(free, size, r, c)] == (r, c)
  {
    CellOfStepOf(size, r, c);
    var s := StepOf(size, r, c);
    if Next(size, s) == t {
      assert Previous(size, t) == s;
    } else {
      FreeCellsPrefix(free, size, Next(size, s), t);
      assert Previous(size, Next(size, s)) == s;
    }
  }

  /** Everything in the list is a free module outside column 6, at its rank. */
  lemma {:induction false} RankOfFreeCell(free: Layout, size: nat, t: Step, k: nat)
    requires OddSize(size) && IsPoint(size, t) && k < |FreeCells(free, size, t)|
    ensures var (r, c) := FreeCells(free, size, t)[k];
      InGrid(size, r, c) && c != 6 && free(r, c) && Before(StepOf(size, r, c), t) && Rank(free, size, r, c) == k
    decreases t.pair, t.row, t.side
  {
    var s := Previous(size, t);
    if k < |FreeCells(free, size, s)| {
      RankOfFreeCell(free, size, s, k);
      var (r, c) := FreeCells(free, size, s)[k];
      assert Before(StepOf(size, r, c), s);
    } else {
      StepOfCellOf(size, s);
    }
  }

  // ----- The placement loop -----------------------------------------------------------------

  function UnsetIn(before: (int, int) -> Module): Layout { (r, c) => before(r, c) == Unset }

  /** Bit i of the codewords, and zeros after them. */
  predicate CodewordBit(codewords: seq<bv8>, i: nat) {
    i / 8 < |codewords| && BitAt(codewords[i / 8], i % 8)
  }

  /** The grid after the first t steps: free modules passed carry their bit, the rest are as before. */
  ghost predicate PlacedUpTo(m: array2<Module>, before: (int, int) -> Module, codewords: seq<bv8>, t: Step)
    requires Square(m) && OddSize(m.Length0)
    reads m
  {
    forall r, c :: 0 <= r < m.Length0 && 0 <= c < m.Length1 ==>
      m[r, c] == if c != 6 && before(r, c) == Unset && Before(StepOf(m.Length0, r, c), t)
                 then ModuleOf(CodewordBit(codewords, Rank(UnsetIn(before), m.Length0, r, c))) else before(r, c)
  }

  /** The state of the loop before step t: the grid, and the list of modules used so far. */
  ghost predicate Placing(m: array2<Module>, before: (int, int) -> Module, codewords: seq<bv8>,
                          used: seq<(int, int)>, t: Step)
    reads m
  {
    && Square(m) && OddSize(m.Length0)
    && PlacedUpTo(m, before, codewords, t)
    && used == FreeCells(UnsetIn(before), m.Length0, t)
  }

  /** The modules visited before the step after t are those before t, and the one at t. */
  lemma NextStep(size: nat, t: Step)
    requires OddSize(size) && IsStep(size, t)
    ensures forall r, c {:trigger StepOf(size, r, c)} :: InGrid(size, r, c) && c != 6 ==>
      (Before(StepOf(size, r, c), Next(size, t)) <==> Before(StepOf(size, r, c), t) || (r, c) == CellOf(size, t))
    ensures StepOf(size, CellOf(size, t).0, CellOf(size, t).1) == t
    ensures !Before(t, t) && Previous(size, Next(size, t)) == t && Next(size, t) != START
  {
    StepOfCellOf(size, t);
    forall r, c | InGrid(size, r, c) && c != 6
      ensures Before(StepOf(size, r, c), Next(size, t)) <==> Before(StepOf(size, r, c), t) || (r, c) == CellOf(size, t)
    {
      CellOfStepOf(size, r, c);
    }
  }

  /** One visit of the loop. */
  method Visit(m: array2<Module>, codewords: seq<bv8>, used: seq<(int, int)>, row: int, col: int,
               ghost before: (int, int) -> Module, ghost t: Step)
      returns (used': seq<(int, int)>)
    requires Placing(m, before, codewords, used, t)
    requires IsStep(m.Length0, t) && CellOf(m.Length0, t) == (row, col)
    modifies m
    ensures Placing(m, before, codewords, used', Next(m.Length0, t))
  {
    used' := used;
    StepOfCellOf(m.Length0, t);
    NextStep(m.Length0, t);
    hide StepOf, CellOf, CodewordBit, Before, Next, Previous, IsStep;
    if m[row, col] == Unset {
      var bitIndex := |used|;
      m[row, col] := ModuleOf(CodewordBit(codewords, bitIndex));
      used' := used + [(row, col)];
    }
  }

  /** One column pair, upward or downward. */
  method PlacePair(m: array2<Module>, codewords: seq<bv8>, used: seq<(int, int)>, right: int, upward: bool,
                   ghost before: (int, int) -> Module, ghost pair: nat)
      returns (used': seq<(int, int)>)
    requires Placing(m, before, codewords, used, Step(pair, 0, 0)) && pair < m.Length0 / 2
    requires right == PairColumn(m.Length0, pair) && upward == (pair % 2 == 0)
    modifies m
    ensures Placing(m, before, codewords, used', Step(pair + 1, 0, 0))
  {
    hide Placing;
    var size := m.Length0;
    used' := used;
    for step := 0 to size
      invariant Placing(m, before, codewords, used', if step < size then Step(pair, step, 0) else Step(pair + 1, 0, 0))
    {
      var row := if upward then size - 1 - step else step;
      used' := Visit(m, codewords, used', row, right, before, Step(pair, step, 0));
      used' := Visit(m, codewords, used', row, right - 1, before, Step(pair, step, 1));
    }
  }

  lemma PlacedNothing(m: array2<Module>, before: (int, int) -> Module, codewords: seq<bv8>)
    requires Square(m) && OddSize(m.Length0)
    requires forall r, c :: 0 <= r < m.Length0 && 0 <= c < m.Length1 ==> m[r, c] == before(r, c)
    ensures Placing(m, before, codewords, [], START)
  {
    hide Rank, CodewordBit;
  }

  /** Places the codewords in zigzag order and lists the modules used. */
  method PlaceData(m: array2<Module>, codewords: seq<bv8>, ghost before: (int, int) -> Module)
      returns (free: seq<(int, int)>)
    requires Square(m) && OddSize(m.Length0)
    requires forall r, c :: 0 <= r < m.Length0 && 0 <= c < m.Length1 ==> m[r, c] == before(r, c)
    modifies m
    ensures Placing(m, before, codewords, free, End(m.Length0))
  {
    PlacedNothing(m, before, codewords);
    hide Placing;
    var size := m.Length0;
    free := [];
    var upward := true;
    var right := size as int - 1;
    ghost var pair := 0;
    while right >= 1
      invariant 0 <= pair <= size / 2 && upward == (pair % 2 == 0)
      invariant right == if size - 1 - 2 * pair >= 6 then size - 1 - 2 * pair else size - 2 - 2 * pair
      invariant Placing(m, before, codewords, free, Step(pair, 0, 0))
      decreases right
    {
      if right == 6 {
        right := 5; // pairs left of the timing column are one further left
      }
      free := PlacePair(m, codewords, free, right, upward, before, pair);
      upward := !upward;
      right := right - 2;
      pair := pair + 1;
    }
  }
}
