/** GF(256) as the QR code standard uses it: polynomials over GF(2) modulo
    x^8 + x^4 + x^3 + x^2 + 1 (0x11d).  The meaning of the product is shift-and-add;
    the exponent and logarithm tables of the source are proved to compute it. */
module Gf256 {

  // ----- The product, from its definition ------------------------------------

  /** Addition of polynomials over GF(2). */
  function Add(a: bv8, b: bv8): bv8 { a ^ b }

  /** x * a modulo 0x11d: shift left, and fold the bit that leaves back in as 0x1d. */
  function Times2(a: bv8): bv8 {
    (a << 1) ^ (a >> 7) ^ ((a >> 7) << 2) ^ ((a >> 7) << 3) ^ ((a >> 7) << 4)
  }

  /** x^n * a. */
  function Shifted(a: bv8, n: nat): bv8 {
    if n == 0 then a else Times2(Shifted(a, n - 1))
  }

  /** The powers of the generator: 2^n. */
  function Exp(n: nat): bv8 { Shifted(1, n) }

  /** x^i as a byte. */
  function BitMask(i: nat): bv8
    requires i < 8
  {
    if i == 0 then 0x01 else if i == 1 then 0x02 else if i == 2 then 0x04 else if i == 3 then 0x08
    else if i == 4 then 0x10 else if i == 5 then 0x20 else if i == 6 then 0x40 else 0x80
  }

  /** x^i * a when b has the term x^i, else 0. */
  function Term(a: bv8, b: bv8, i: nat): bv8
    requires i < 8
  {
    if b & BitMask(i) != 0 then Shifted(a, i) else 0
  }

  /** The sum of x^i * a over the first n terms x^i of b. */
  function PartialProduct(a: bv8, b: bv8, n: nat): bv8
    requires n <= 8
  {
    if n == 0 then 0
    else Add(PartialProduct(a, b, n - 1), Term(a, b, n - 1))
  }

  /** Shift-and-add multiplication modulo 0x11d. */
  function Product(a: bv8, b: bv8): bv8 { PartialProduct(a, b, 8) }

  /** The powers of 2 double until they pass 255, and are then reduced by 0x11d. */
  lemma KnownPowers()
    ensures Exp(0) == 1 && Exp(1) == 2 && Exp(7) == 0x80 && Exp(8) == 0x1d && Exp(9) == 0x3a
  {
    assert Shifted(1, 3) == 8;
    assert Shifted(1, 6) == 64;
  }

  // ----- Linearity -----------------------------------------------------------

  lemma AddLaws(a: bv8, b: bv8, c: bv8)
    ensures Add(a, b) == Add(b, a)
    ensures Add(Add(a, b), c) == Add(a, Add(b, c))
    ensures Add(a, 0) == a && Add(0, a) == a && Add(a, a) == 0
    ensures Add(a, b) == 0 ==> a == b
    ensures Add(a, Add(a, b)) == b
  {}

  lemma Times2Linear(a: bv8, b: bv8)
    ensures Times2(Add(a, b)) == Add(Times2(a), Times2(b))
  {}

  lemma Times2Injective(a: bv8, b: bv8)
    requires Times2(a) == Times2(b)
    ensures a == b
  {}

  lemma {:induction false} ShiftedLinear(a: bv8, b: bv8, n: nat)
    ensures Shifted(Add(a, b), n) == Add(Shifted(a, n), Shifted(b, n))
  {
    hide Add, Times2;
    if n > 0 {
      ShiftedLinear(a, b, n - 1);
      Times2Linear(Shifted(a, n - 1), Shifted(b, n - 1));
    }
  }

  lemma {:induction false} ShiftedSum(a: bv8, m: nat, n: nat)
    ensures Shifted(Shifted(a, m), n) == Shifted(a, m + n)
  {
    if n > 0 {
      ShiftedSum(a, m, n - 1);
    }
  }

  lemma {:induction false} ShiftedInjective(a: bv8, b: bv8, n: nat)
    requires Shifted(a, n) == Shifted(b, n)
    ensures a == b
  {
    if n > 0 {
      Times2Injective(Shifted(a, n - 1), Shifted(b, n - 1));
      ShiftedInjective(a, b, n - 1);
    }
  }

  lemma {:induction false} ShiftedZero(n: nat)
    ensures Shifted(0, n) == 0
  {
    if n > 0 {
      ShiftedZero(n - 1);
    }
  }

  lemma ExpNonzero(n: nat)
    ensures Exp(n) != 0
  {
    ShiftedZero(n);
    if Exp(n) == 0 {
      ShiftedInjective(1, 0, n);
    }
  }

  // ----- 2 has order 255 -----------------------------------------------------

  /** Eight doublings at once. */
  function Times256(a: bv8): bv8 {
    Times2(Times2(Times2(Times2(Times2(Times2(Times2(Times2(a))))))))
  }

  lemma Shifted8(a: bv8, n: nat)
    ensures Shifted(a, n + 8) == Times256(Shifted(a, n))
  {
    assert Shifted(a, n + 8) == Times2(Times2(Shifted(a, n + 6)));
    assert Shifted(a, n + 6) == Times2(Times2(Shifted(a, n + 4)));
    assert Shifted(a, n + 4) == Times2(Times2(Shifted(a, n + 2)));
    assert Shifted(a, n + 2) == Times2(Times2(Shifted(a, n)));
  }

  // Landmarks on the way round: the exponents 15, 51 and 85 do not give 1, 255 does.

  lemma Landmark127()
    ensures Exp(15) != 1 && Exp(127) == 204
  {
    assert Exp(3) == 8;
    assert Exp(5) == 32;
    assert Exp(7) == 128;
    Shifted8(1, 7); assert Exp(15) == 38; Shifted8(1, 15); assert Exp(23) == 201;
    Shifted8(1, 23); assert Exp(31) == 192; Shifted8(1, 31); assert Exp(39) == 53;
    Shifted8(1, 39); assert Exp(47) == 35; Shifted8(1, 47); assert Exp(55) == 160;
    Shifted8(1, 55); assert Exp(63) == 161; Shifted8(1, 63); assert Exp(71) == 188;
    Shifted8(1, 71); assert Exp(79) == 240; Shifted8(1, 79); assert Exp(87) == 127;
    Shifted8(1, 87); assert Exp(95) == 226; Shifted8(1, 95); assert Exp(103) == 136;
    Shifted8(1, 103); assert Exp(111) == 206; Shifted8(1, 111); assert Exp(119) == 147;
    Shifted8(1, 119); assert Exp(127) == 204;
  }

  lemma Landmark255()
    ensures Exp(255) == 1
  {
    Landmark127();
    Shifted8(1, 127); assert Exp(135) == 169; Shifted8(1, 135); assert Exp(143) == 84;
    Shifted8(1, 143); assert Exp(151) == 170; Shifted8(1, 151); assert Exp(159) == 115;
    Shifted8(1, 159); assert Exp(167) == 126; Shifted8(1, 167); assert Exp(175) == 255;
    Shifted8(1, 175); assert Exp(183) == 196; Shifted8(1, 183); assert Exp(191) == 65;
    Shifted8(1, 191); assert Exp(199) == 14; Shifted8(1, 199); assert Exp(207) == 166;
    Shifted8(1, 207); assert Exp(215) == 239; Shifted8(1, 215); assert Exp(223) == 9;
    Shifted8(1, 223); assert Exp(231) == 245; Shifted8(1, 231); assert Exp(239) == 22;
    Shifted8(1, 239); assert Exp(247) == 131;
    Shifted8(1, 247); assert Exp(255) == 1;
  }

  lemma Landmark51And85()
    ensures Exp(51) != 1 && Exp(85) != 1
  {
    assert Exp(3) == 8;
    assert Exp(5) == 32;
    Shifted8(1, 3); assert Exp(11) == 232; Shifted8(1, 11); assert Exp(19) == 90; Shifted8(1, 19); assert Exp(27) == 12;
    Shifted8(1, 27); assert Exp(35) == 156; Shifted8(1, 35); assert Exp(43) == 119;
    Shifted8(1, 43); assert Exp(51) == 10; Shifted8(1, 5); assert Exp(13) == 135;
    Shifted8(1, 13); assert Exp(21) == 117; Shifted8(1, 21); assert Exp(29) == 48;
    Shifted8(1, 29); assert Exp(37) == 74; Shifted8(1, 37); assert Exp(45) == 193;
    Shifted8(1, 45); assert Exp(53) == 40; Shifted8(1, 53); assert Exp(61) == 111;
    Shifted8(1, 61); assert Exp(69) == 47; Shifted8(1, 69); assert Exp(77) == 60;
    Shifted8(1, 77); assert Exp(85) == 214;
  }

  /** Exponents of 1 are closed under differences, hence under greatest common divisors. */
  lemma {:induction false} OneAtGcd(m: nat, n: nat) returns (g: nat, k: nat, l: nat)
    requires m > 0 && n > 0 && Exp(m) == 1 && Exp(n) == 1
    ensures 0 < g && Exp(g) == 1 && m == k * g && n == l * g
    decreases m + n
  {
    if m == n {
      g, k, l := m, 1, 1;
    } else if m < n {
      OneAtDifference(m, n);
      g, k, l := OneAtGcd(m, n - m);
      assert (k + l) * g == n;
      l := k + l;
    } else {
      OneAtDifference(n, m);
      g, k, l := OneAtGcd(m - n, n);
      assert (k + l) * g == m;
      k := k + l;
    }
  }

  lemma ProductAtLeast(l: nat, k: nat, g: nat)
    requires l >= k
    ensures l * g >= k * g
  {}

  lemma DivisorsOf255(g: nat, l: nat)
    requires l * g == 255 && g < 255
    ensures g in {1, 3, 5, 15} || g in {17, 51} || g == 85
  {
    if g >= 16 && l >= 16 {
      ProductAtLeast(l, 16, g);
    }
    if g < 16 {
      assert g == 0 || g == 1 || g == 2 || g == 3 || g == 4 || g == 5 || g == 6 || g == 7 || g == 8 || g == 9
          || g == 10 || g == 11 || g == 12 || g == 13 || g == 14 || g == 15;
    } else {
      assert l == 0 || l == 1 || l == 2 || l == 3 || l == 4 || l == 5 || l == 6 || l == 7 || l == 8 || l == 9
          || l == 10 || l == 11 || l == 12 || l == 13 || l == 14 || l == 15;
    }
  }

  lemma OneAtDifference(m: nat, n: nat)
    requires m <= n && Exp(m) == 1 && Exp(n) == 1
    ensures Exp(n - m) == 1
  {
    ShiftedSum(1, n - m, m);
    ShiftedInjective(Exp(n - m), 1, m);
  }

  lemma {:induction false} OneAtMultiple(g: nat, k: nat)
    ensures Exp(g) == 1 ==> Exp(k * g) == 1
  {
    if k > 0 && Exp(g) == 1 {
      OneAtMultiple(g, k - 1);
      ShiftedSum(1, (k - 1) * g, g);
      assert (k - 1) * g + g == k * g;
    }
  }

  /** No proper power short of 255 is 1: a divisor of 255 below 255 divides 15, 51 or 85. */
  lemma OrderIs255(d: nat)
    requires 0 < d < 255
    ensures Exp(d) != 1
  {
    Landmark127();
    Landmark255();
    Landmark51And85();
    if Exp(d) == 1 {
      var g, k, l := OneAtGcd(d, 255);
      ProductAtLeast(k, 1, g);
      DivisorsOf255(g, l);
      OneAtMultiple(1, 15); OneAtMultiple(3, 5); OneAtMultiple(5, 3); OneAtMultiple(17, 3);
    }
  }

  lemma ExpPeriodic(n: nat)
    ensures Exp(n + 255) == Exp(n)
  {
    Landmark255();
    ShiftedSum(1, 255, n);
  }

  lemma ExpInjective(i: nat, j: nat)
    requires i < 255 && j < 255 && Exp(i) == Exp(j)
    ensures i == j
  {
    if i < j {
      ShiftedSum(1, j - i, i);
      ShiftedInjective(Exp(j - i), 1, i);
      OrderIs255(j - i);
    } else if j < i {
      ShiftedSum(1, i - j, j);
      ShiftedInjective(Exp(i - j), 1, j);
      OrderIs255(i - j);
    }
  }

  // ----- Logarithms: every non-zero byte is a power of 2 -----------------------

  /** The byte values of the first n powers. */
  ghost function Powers(n: nat): set<int> { set i | 0 <= i < n :: Index(Exp(i)) }

  ghost function Below(lo: int, hi: int): (s: set<int>)
    ensures forall x :: x in s <==> lo <= x < hi
    decreases hi - lo
  {
    if lo >= hi then {} else Below(lo, hi - 1) + {hi - 1}
  }

  lemma {:induction false} BelowSize(lo: int, hi: int)
    requires lo <= hi
    ensures |Below(lo, hi)| == hi - lo
    decreases hi - lo
  {
    if lo < hi {
      BelowSize(lo, hi - 1);
    }
  }

  /** A byte as a table index. */
  function Index(b: bv8): (i: nat)
    ensures i < 256 && (b != 0 ==> i > 0)
  {
    b as int
  }

  lemma IndexInjective(b: bv8, c: bv8)
    requires Index(b) == Index(c)
    ensures b == c
  {}

  lemma PowersStep(n: nat)
    ensures Powers(n + 1) == Powers(n) + {Index(Exp(n))}
  {}

  lemma PowerIsNew(n: nat)
    requires n < 255
    ensures forall i: nat :: i < n ==> Index(Exp(i)) != Index(Exp(n))
  {
    forall i: nat | i < n ensures Index(Exp(i)) != Index(Exp(n)) {
      if Index(Exp(i)) == Index(Exp(n)) {
        IndexInjective(Exp(i), Exp(n));
        ExpInjective(i, n);
      }
    }
  }

  lemma {:induction false} PowersSize(n: nat)
    requires n <= 255
    ensures |Powers(n)| == n && Powers(n) <= Below(1, 256)
  {
    if n > 0 {
      PowersSize(n - 1);
      ExpNonzero(n - 1);
      PowerIsNew(n - 1);
      PowersStep(n - 1);
    }
  }

  lemma SubsetOfSameSize<T>(a: set<T>, b: set<T>)
    requires a <= b && |a| == |b|
    ensures a == b
  {
    assert |b| == |a| + |b - a| by {
      assert b == a + (b - a);
    }
  }

  lemma HasLog(b: bv8)
    requires b != 0
    ensures exists k: nat :: k < 255 && Exp(k) == b
  {
    PowersSize(255);
    BelowSize(1, 256);
    SubsetOfSameSize(Powers(255), Below(1, 256));
    assert Index(b) in Powers(255);
    var k :| 0 <= k < 255 && Index(Exp(k)) == Index(b);
    IndexInjective(Exp(k), b);
  }

  ghost function Log(b: bv8): (k: nat)
    requires b != 0
    ensures k < 255 && Exp(k) == b
  {
    HasLog(b);
    var k: nat :| k < 255 && Exp(k) == b;
    k
  }

  // ----- Field laws ------------------------------------------------------------

  /** The field product, by adding logarithms. */
  ghost function Mul(a: bv8, b: bv8): bv8 {
    if a == 0 || b == 0 then 0 else Exp(Log(a) + Log(b))
  }

  lemma ExpSum(i: nat, j: nat)
    ensures Mul(Exp(i), Exp(j)) == Exp(i + j)
  {
    ExpNonzero(i);
    ExpNonzero(j);
    var p, q := Log(Exp(i)), Log(Exp(j));
    ShiftedSum(1, q, p);
    ShiftedSum(1, j, p);
    ShiftedSum(1, p, j);
    ShiftedSum(1, i, j);
    assert j + p == p + j && i + j == j + i;
  }

  /** Multiplying by a power of 2 is shifting. */
  lemma MulExp(k: nat, b: bv8)
    ensures Mul(Exp(k), b) == Shifted(b, k)
  {
    ShiftedZero(k);
    if b != 0 {
      ExpSum(k, Log(b));
      ShiftedSum(1, Log(b), k);
    }
  }

  lemma MulOne(b: bv8)
    ensures Mul(1, b) == b && Mul(b, 1) == b
  {
    MulExp(0, b);
    if b != 0 {
      ExpSum(Log(b), 0);
    }
  }

  lemma MulCommutes(a: bv8, b: bv8)
    ensures Mul(a, b) == Mul(b, a)
  {}

  lemma MulAssociates(a: bv8, b: bv8, c: bv8)
    ensures Mul(Mul(a, b), c) == Mul(a, Mul(b, c))
  {
    if a != 0 && b != 0 && c != 0 {
      var i, j, k := Log(a), Log(b), Log(c);
      ExpSum(i + j, k); ExpSum(i, j + k);
      assert i + j + k == i + (j + k);
    }
  }

  lemma MulDistributes(a: bv8, b: bv8, c: bv8)
    ensures Mul(a, Add(b, c)) == Add(Mul(a, b), Mul(a, c))
  {
    AddLaws(0, 0, 0);
    hide Add, Times2;
    if a != 0 {
      var k := Log(a);
      MulExp(k, b); MulExp(k, c); MulExp(k, Add(b, c));
      ShiftedLinear(b, c, k);
    }
  }

  lemma NoZeroDivisors(a: bv8, b: bv8)
    ensures Mul(a, b) == 0 <==> a == 0 || b == 0
  {
    if a != 0 && b != 0 {
      ExpNonzero(Log(a) + Log(b));
    }
  }

  // ----- Adding logarithms is shift-and-add ---------------------------------------

  lemma {:induction false} PartialProductZero(b: bv8, n: nat)
    requires n <= 8
    ensures PartialProduct(0, b, n) == 0
  {
    if n > 0 {
      PartialProductZero(b, n - 1);
      ShiftedZero(n - 1);
    }
  }

  lemma {:induction false} ShiftedTimes2(a: bv8, n: nat)
    ensures Shifted(Times2(a), n) == Times2(Shifted(a, n))
  {
    if n > 0 {
      ShiftedTimes2(a, n - 1);
    }
  }

  lemma TermTimes2(a: bv8, b: bv8, i: nat)
    requires i < 8
    ensures Term(Times2(a), b, i) == Times2(Term(a, b, i))
  {
    ShiftedTimes2(a, i);
  }

  lemma {:induction false} PartialProductTimes2(a: bv8, b: bv8, n: nat)
    requires n <= 8
    ensures PartialProduct(Times2(a), b, n) == Times2(PartialProduct(a, b, n))
  {
    assert Times2(0) == 0;
    hide Add, Times2, Term;
    if n > 0 {
      PartialProductTimes2(a, b, n - 1);
      TermTimes2(a, b, n - 1);
      Times2Linear(PartialProduct(a, b, n - 1), Term(a, b, n - 1));
    }
  }

  /** The lowest n coefficients of b. */
  function LowBits(b: bv8, n: nat): bv8
    requires n <= 8
  {
    if n == 8 then b else b & (BitMask(n) - 1)
  }

  lemma LowBitsStep(b: bv8, n: nat)
    requires n < 8
    ensures LowBits(b, n + 1) == Add(LowBits(b, n), if b & BitMask(n) != 0 then BitMask(n) else 0)
  {}

  lemma ExpIsBitMask(n: nat)
    requires n < 8
    ensures Exp(n) == BitMask(n)
  {
    assert Exp(2) == 4;
    assert Exp(4) == 16;
    assert Exp(6) == 64;
  }

  lemma {:induction false} PartialProductOne(b: bv8, n: nat)
    requires n <= 8
    ensures PartialProduct(1, b, n) == LowBits(b, n)
  {
    if n > 0 {
      PartialProductOne(b, n - 1);
      LowBitsStep(b, n - 1);
      ExpIsBitMask(n - 1);
    }
  }

  lemma {:induction false} ProductExp(k: nat, b: bv8)
    ensures Product(Exp(k), b) == Shifted(b, k)
  {
    if k == 0 {
      PartialProductOne(b, 8);
    } else {
      ProductExp(k - 1, b);
      PartialProductTimes2(Exp(k - 1), b, 8);
    }
  }

  /** The field product is the carry-less product modulo 0x11d. */
  lemma MulIsProduct(a: bv8, b: bv8)
    ensures Mul(a, b) == Product(a, b)
  {
    if a == 0 {
      PartialProductZero(b, 8);
    } else {
      ProductExp(Log(a), b);
      MulExp(Log(a), b);
    }
  }

  // ----- The tables of the source -----------------------------------------------

  /** One step of the table-filling loop, on the wider number the source computes with. */
  function Doubled(x: bv16): bv16 {
    if (x << 1) & 0x100 != 0 then (x << 1) ^ 0x11d else x << 1
  }

  lemma DoubledIsTimes2(x: bv16, b: bv8)
    requires x == b as bv16
    ensures Doubled(x) < 256 && Doubled(x) == Times2(b) as bv16
  {}

  /** Fill both tables from the powers of 2. */
  method FillPowers(exp: array<bv8>, log: array<nat>)
    requires exp.Length == 512 && log.Length == 256
    modifies exp, log
    ensures forall k :: 0 <= k < 255 ==> exp[k] == Exp(k)
    ensures forall k :: 0 <= k < 255 ==> log[Index(Exp(k))] == k
  {
    var x: bv16 := 1;
    for i := 0 to 255
      invariant x == Exp(i) as bv16
      invariant forall k :: 0 <= k < i ==> exp[k] == Exp(k)
      invariant forall k :: 0 <= k < i ==> log[Index(Exp(k))] == k
    {
      DoubledIsTimes2(x, Exp(i));
      var b := x as bv8;
      assert b == Exp(i);
      hide Times2, Index, Doubled;
      PowerIsNew(i);
      exp[i] := b;
      log[Index(b)] := i;
      x := Doubled(x);
    }
  }

  /** The second half of the table repeats the first. */
  method RepeatPowers(exp: array<bv8>)
    requires exp.Length == 512
    requires forall k :: 0 <= k < 255 ==> exp[k] == Exp(k)
    modifies exp
    ensures forall k :: 0 <= k < 512 ==> exp[k] == Exp(k)
  {
    hide Times2, Shifted;
    for i := 255 to 512
      invariant forall k :: 0 <= k < i ==> exp[k] == Exp(k)
    {
      ExpPeriodic(i - 255);
      exp[i] := exp[i - 255];
    }
  }

  class GfTables {
    const exp: array<bv8>
    const log: array<nat>

    ghost function Footprint(): set<object> { {exp, log} }

    ghost predicate Valid()
      reads Footprint()
    {
      && exp.Length == 512 && log.Length == 256
      && (forall i :: 0 <= i < 512 ==> exp[i] == Exp(i))
      && (forall b: bv8 :: b != 0 ==> LogEntry(b))
    }

    ghost predicate LogEntry(b: bv8)
      requires log.Length == 256
      reads log
    {
      log[Index(b)] < 255 && Exp(log[Index(b)]) == b
    }

    constructor ()
      ensures Valid() && fresh(Footprint())
    {
      exp := new bv8[512](_ => 0);
      log := new nat[256](_ => 0);
      new;
      FillPowers(exp, log);
      RepeatPowers(exp);
      forall b: bv8 | b != 0 ensures LogEntry(b) {
        assert log[Index(Exp(Log(b)))] == Log(b);
      }
    }

    /** The table product is the field product. */
    method GfMul(a: bv8, b: bv8) returns (r: bv8)
      requires Valid()
      ensures r == Mul(a, b)
    {
      if a == 0 || b == 0 {
        return 0;
      }
      assert LogEntry(a) && LogEntry(b);
      var i, j := log[Index(a)], log[Index(b)];
      ExpSum(i, j);
      return exp[i + j];
    }
  }
}
