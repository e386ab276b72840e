/** Reed-Solomon error correction over GF(256): the generator polynomial, the in-place
    shift-register divider, and what they are for.  A polynomial is the sequence of its
    coefficients, highest power first. */
module ReedSolomon {
  import opened Gf256

  // ----- Polynomials -----------------------------------------------------------

  /** x^n. */
  ghost function Power(x: bv8, n: nat): bv8 {
    if n == 0 then 1 else Mul(Power(x, n - 1), x)
  }

  /** The value of p at x. */
  ghost function Eval(p: seq<bv8>, x: bv8): bv8 {
    if |p| == 0 then 0 else Add(Mul(Eval(p[..|p| - 1], x), x), p[|p| - 1])
  }

  ghost function Sum(p: seq<bv8>, q: seq<bv8>): (s: seq<bv8>)
    requires |p| == |q|
    ensures |s| == |p|
  {
    seq(|p|, i requires 0 <= i < |p| => Add(p[i], q[i]))
  }

  ghost function Scale(p: seq<bv8>, f: bv8): (s: seq<bv8>)
    ensures |s| == |p|
  {
    seq(|p|, i requires 0 <= i < |p| => Mul(p[i], f))
  }

  function Zeros(n: nat): (s: seq<bv8>)
    ensures |s| == n
  {
    seq(n, _ => 0)
  }

  lemma {:induction false} EvalConcat(p: seq<bv8>, q: seq<bv8>, x: bv8)
    ensures Eval(p + q, x) == Add(Mul(Eval(p, x), Power(x, |q|)), Eval(q, x))
  {
    hide Add, Mul;
    if |q| == 0 {
      assert p + q == p;
      MulOne(Eval(p, x));
      AddLaws(Eval(p, x), 0, 0);
    } else {
      var r, c := q[..|q| - 1], q[|q| - 1];
      assert (p + q)[..|p + q| - 1] == p + r;
      EvalConcat(p, r, x);
      var a, b, e := Mul(Eval(p, x), Power(x, |r|)), Eval(r, x), Eval(p, x);
      MulCommutes(Add(a, b), x); MulCommutes(a, x); MulCommutes(b, x);
      MulDistributes(x, a, b);
      MulAssociates(e, Power(x, |r|), x);
      AddLaws(Mul(a, x), Mul(b, x), c);
    }
  }

  lemma {:induction false} EvalSum(p: seq<bv8>, q: seq<bv8>, x: bv8)
    requires |p| == |q|
    ensures Eval(Sum(p, q), x) == Add(Eval(p, x), Eval(q, x))
  {
    AddLaws(0, 0, 0);
    hide Add, Mul;
    if |p| > 0 {
      var n := |p| - 1;
      assert Sum(p, q)[..n] == Sum(p[..n], q[..n]);
      EvalSum(p[..n], q[..n], x);
      var a, b := Eval(p[..n], x), Eval(q[..n], x);
      MulCommutes(Add(a, b), x); MulCommutes(a, x); MulCommutes(b, x);
      MulDistributes(x, a, b);
      Exchange(Mul(a, x), Mul(b, x), p[n], q[n]);
    }
  }

  lemma Exchange(a: bv8, b: bv8, c: bv8, d: bv8)
    ensures Add(Add(a, b), Add(c, d)) == Add(Add(a, c), Add(b, d))
  {
    hide Add;
    AddLaws(a, b, Add(c, d));
    AddLaws(b, c, d);
    AddLaws(c, b, d);
    AddLaws(a, c, Add(b, d));
  }

  lemma {:induction false} EvalScale(p: seq<bv8>, f: bv8, x: bv8)
    ensures Eval(Scale(p, f), x) == Mul(Eval(p, x), f)
  {
    NoZeroDivisors(0, f);
    hide Add, Mul;
    if |p| > 0 {
      var n := |p| - 1;
      assert Scale(p, f)[..n] == Scale(p[..n], f);
      EvalScale(p[..n], f, x);
      var e := Eval(p[..n], x);
      MulAssociates(e, f, x); MulAssociates(e, x, f); MulCommutes(f, x);
      MulCommutes(Add(Mul(e, x), p[n]), f); MulCommutes(Mul(e, x), f); MulCommutes(p[n], f);
      MulDistributes(f, Mul(e, x), p[n]);
    }
  }

  lemma {:induction false} EvalZeros(n: nat, x: bv8)
    ensures Eval(Zeros(n), x) == 0
  {
    NoZeroDivisors(0, x);
    AddLaws(0, 0, 0);
    hide Add, Mul;
    if n > 0 {
      assert Zeros(n)[..n - 1] == Zeros(n - 1);
      EvalZeros(n - 1, x);
    }
  }

  lemma EvalFirst(c: bv8, p: seq<bv8>, x: bv8)
    ensures Eval([c] + p, x) == Add(Mul(c, Power(x, |p|)), Eval(p, x))
  {
    EvalConcat([c], p, x);
    assert [c][..0] == [];
    NoZeroDivisors(0, x);
    AddLaws(c, 0, 0);
  }

  lemma EvalTimesX(p: seq<bv8>, x: bv8)
    ensures Eval(p + [0], x) == Mul(Eval(p, x), x)
  {
    assert (p + [0])[..|p|] == p;
    AddLaws(Mul(Eval(p, x), x), 0, 0);
  }

  lemma {:induction false} PowerOfExp(i: nat, n: nat)
    ensures Power(Exp(i), n) == Exp(i * n)
  {
    hide Mul;
    if n > 0 {
      PowerOfExp(i, n - 1);
      ExpSum(i * (n - 1), i);
      assert i * (n - 1) + i == i * n;
    }
  }

  // ----- The generator polynomial ------------------------------------------------

  /** p * (x + root). */
  ghost function TimesRoot(p: seq<bv8>, root: bv8): (q: seq<bv8>)
    ensures |q| == |p| + 1
  {
    Sum(p + [0], [0] + Scale(p, root))
  }

  /** The product of (x + 2^i) for i below the degree. */
  ghost function Generator(degree: nat): (g: seq<bv8>)
    ensures |g| == degree + 1
  {
    if degree == 0 then [1] else TimesRoot(Generator(degree - 1), Exp(degree - 1))
  }

  lemma EvalTimesRoot(p: seq<bv8>, root: bv8, x: bv8)
    ensures Eval(TimesRoot(p, root), x) == Mul(Eval(p, x), Add(x, root))
  {
    hide Add, Mul;
    var e := Eval(p, x);
    EvalSum(p + [0], [0] + Scale(p, root), x);
    EvalTimesX(p, x);
    EvalFirst(0, Scale(p, root), x);
    NoZeroDivisors(0, Power(x, |p|));
    AddLaws(Eval(Scale(p, root), x), 0, 0);
    EvalScale(p, root, x);
    MulDistributes(e, x, root);
  }

  lemma {:induction false} GeneratorIsMonic(degree: nat)
    ensures Generator(degree)[0] == 1
  {
    if degree > 0 {
      GeneratorIsMonic(degree - 1);
      AddLaws(1, 0, 0);
      hide Add, Mul;
      var g := Generator(degree - 1);
      assert TimesRoot(g, Exp(degree - 1))[0] == Add((g + [0])[0], 0);
    }
  }

  /** The generator vanishes at 2^0 .. 2^(degree - 1). */
  lemma {:induction false} GeneratorRoots(degree: nat, i: nat)
    requires i < degree
    ensures Eval(Generator(degree), Exp(i)) == 0
  {
    EvalTimesRoot(Generator(degree - 1), Exp(degree - 1), Exp(i));
    if i == degree - 1 {
      AddLaws(Exp(i), 0, 0);
    } else {
      GeneratorRoots(degree - 1, i);
    }
    NoZeroDivisors(Eval(Generator(degree - 1), Exp(i)), Add(Exp(i), Exp(degree - 1)));
  }

  lemma SmallProducts()
    ensures Mul(1, 1) == 1 && Mul(1, 2) == 2 && Mul(3, 1) == 3 && Mul(2, 1) == 2 && Mul(3, 3) == 5 && Mul(2, 3) == 6
  {
    MulOne(1);
    MulOne(2);
    MulOne(3);
    MulExp(1, 3);
    MulCommutes(3, 2);
    MulDistributes(3, 1, 2);
    assert Exp(1) == 2 && Shifted(3, 1) == 6 && Add(1, 2) == 3 && Add(3, 6) == 5;
    hide Mul, Exp, Shifted, Add;
  }

  /** Two error correction bytes go with x^2 + 3x + 2, which is (x + 1)(x + 2). */
  lemma KnownGenerator()
    ensures Generator(2) == [1, 3, 2]
  {
    SmallProducts();
    KnownPowers();
    hide Mul, Exp;
    assert Generator(0) == [1];
    assert Generator(1) == [1, 1];
  }

  // ----- The divider ---------------------------------------------------------------

  /** What the register adds to its leading coefficient when the next byte comes in. */
  ghost function Factor(rem: seq<bv8>, byte: bv8): bv8 {
    if |rem| == 0 then byte else Add(byte, rem[0])
  }

  /** The register moved up one place. */
  ghost function MovedUp(rem: seq<bv8>): (r: seq<bv8>)
    ensures |r| == |rem|
  {
    if |rem| == 0 then [] else rem[1..] + [0]
  }

  ghost function Divide(rem: seq<bv8>, byte: bv8, gen: seq<bv8>): (r: seq<bv8>)
    requires |gen| == |rem| + 1
    ensures |r| == |rem|
  {
    Sum(MovedUp(rem), Scale(gen[1..], Factor(rem, byte)))
  }

  /** The register after all the data. */
  ghost function Remainder(data: seq<bv8>, gen: seq<bv8>): (r: seq<bv8>)
    requires |gen| > 0
    ensures |r| == |gen| - 1
  {
    if |data| == 0 then Zeros(|gen| - 1)
    else Divide(Remainder(data[..|data| - 1], gen), data[|data| - 1], gen)
  }

  /** The factors the register used, which are the coefficients of the quotient. */
  ghost function Quotient(data: seq<bv8>, gen: seq<bv8>): (q: seq<bv8>)
    requires |gen| > 0
    ensures |q| == |data|
  {
    if |data| == 0 then []
    else
      Quotient(data[..|data| - 1], gen)
      + [Factor(Remainder(data[..|data| - 1], gen), data[|data| - 1])]
  }

  ghost function ErrorCorrection(data: seq<bv8>, ec: nat): (r: seq<bv8>)
    ensures |r| == ec
  {
    Remainder(data, Generator(ec))
  }

  /** x^3 leaves 7x + 6 when divided by x^2 + 3x + 2. */
  lemma KnownRemainder()
    ensures ErrorCorrection([1, 0], 2) == [7, 6]
  {
    SmallProducts();
    KnownGenerator();
    hide Mul, Generator;
    var gen: seq<bv8> := [1, 3, 2];
    assert [1, 0][..1] == [1] && [1][..0] == [];
    assert Remainder([], gen) == [0, 0];
    assert Remainder([1], gen) == [3, 2];
  }

  ghost function Codeword(data: seq<bv8>, ec: nat): seq<bv8> {
    data + ErrorCorrection(data, ec)
  }

  lemma EvalMovedUp(rem: seq<bv8>, x: bv8)
    requires |rem| > 0
    ensures Eval(MovedUp(rem), x) == Add(Mul(Eval(rem, x), x), Mul(rem[0], Power(x, |rem|)))
  {
    hide Add, Mul, Eval;
    var t, p := rem[1..], Power(x, |rem| - 1);
    assert rem == [rem[0]] + t;
    EvalFirst(rem[0], t, x);
    EvalTimesX(t, x);
    MulAssociates(rem[0], p, x);
    TimesAfterAdding(Mul(rem[0], p), Eval(t, x), x);
  }

  /** (a + b) * x + a * x is b * x. */
  lemma TimesAfterAdding(a: bv8, b: bv8, x: bv8)
    ensures Add(Mul(Add(a, b), x), Mul(a, x)) == Mul(b, x)
  {
    hide Mul;
    MulCommutes(Add(a, b), x); MulCommutes(a, x); MulCommutes(b, x);
    MulDistributes(x, a, b);
  }

  lemma Collect(xr: bv8, r0: bv8, b: bv8, f: bv8, xe: bv8, ge: bv8, fg: bv8)
    requires Mul(f, Add(xe, ge)) == fg
    requires f == Add(b, r0)
    ensures Add(Add(xr, Mul(r0, xe)), Mul(f, ge)) == Add(Add(xr, Mul(b, xe)), fg)
  {
    MulDistributes(f, xe, ge);
    MulCommutes(f, xe); MulCommutes(b, xe); MulCommutes(r0, xe);
    MulDistributes(xe, b, r0);
    Cancel(xr, Mul(b, xe), Mul(r0, xe), Mul(f, ge));
  }

  lemma Cancel(a: bv8, b: bv8, c: bv8, d: bv8)
    ensures Add(Add(a, c), d) == Add(Add(a, b), Add(Add(b, c), d))
  {}

  /** One step adds byte * x^ec and a multiple of the generator to x times the register. */
  lemma EvalDivide(rem: seq<bv8>, byte: bv8, gen: seq<bv8>, x: bv8)
    requires |gen| == |rem| + 1 && gen[0] == 1
    ensures Eval(Divide(rem, byte, gen), x)
         == Add(Add(Mul(Eval(rem, x), x), Mul(byte, Power(x, |rem|))), Mul(Factor(rem, byte), Eval(gen, x)))
  {
    NoZeroDivisors(0, x);
    AddLaws(byte, byte, 0);
    MulOne(Power(x, |rem|)); MulOne(byte);
    hide Add, Mul;
    var f, g, xe := Factor(rem, byte), gen[1..], Power(x, |rem|);
    assert gen == [1] + g;
    EvalFirst(1, g, x);
    if |rem| == 0 {
      AddLaws(1, 0, 0); AddLaws(0, byte, 0);
      assert Eval(gen, x) == Add(1, 0);
    } else {
      EvalSum(MovedUp(rem), Scale(g, f), x);
      EvalMovedUp(rem, x);
      EvalScale(g, f, x);
      MulCommutes(Eval(g, x), f);
      Collect(Mul(Eval(rem, x), x), rem[0], byte, f, xe, Eval(g, x), Mul(f, Eval(gen, x)));
    }
  }

  lemma DivisionStep(x: bv8, d: bv8, xe: bv8, r: bv8, q: bv8, g: bv8, b: bv8, f: bv8)
    requires Add(Mul(d, xe), r) == Mul(q, g)
    ensures Add(Mul(Add(Mul(d, x), b), xe), Add(Add(Mul(r, x), Mul(b, xe)), Mul(f, g)))
         == Mul(Add(Mul(q, x), f), g)
  {
    var dx, qx := Mul(d, x), Mul(q, x);
    MulCommutes(Add(dx, b), xe); MulCommutes(dx, xe); MulCommutes(b, xe);
    MulDistributes(xe, dx, b);
    MulCommutes(Add(qx, f), g); MulCommutes(qx, g); MulCommutes(f, g);
    MulDistributes(g, qx, f);
    MulAssociates(d, x, xe); MulCommutes(x, xe); MulAssociates(d, xe, x);
    MulAssociates(q, x, g); MulCommutes(x, g); MulAssociates(q, g, x);
    MulCommutes(Add(Mul(d, xe), r), x); MulCommutes(Mul(d, xe), x); MulCommutes(r, x);
    MulDistributes(x, Mul(d, xe), r);
    CancelMiddle(Mul(dx, xe), Mul(b, xe), Mul(r, x), Mul(f, g));
  }

  lemma CancelMiddle(a: bv8, b: bv8, c: bv8, d: bv8)
    ensures Add(Add(a, b), Add(Add(c, b), d)) == Add(Add(a, c), d)
  {}

  lemma AppendByte(front: seq<bv8>, byte: bv8, gen: seq<bv8>, x: bv8)
    requires |gen| > 0
    ensures Remainder(front + [byte], gen) == Divide(Remainder(front, gen), byte, gen)
    ensures Eval(front + [byte], x) == Add(Mul(Eval(front, x), x), byte)
    ensures Eval(Quotient(front + [byte], gen), x)
         == Add(Mul(Eval(Quotient(front, gen), x), x), Factor(Remainder(front, gen), byte))
  {
    hide Add, Mul;
    var data, f := front + [byte], Factor(Remainder(front, gen), byte);
    assert data[..|data| - 1] == front;
    assert Quotient(data, gen) == Quotient(front, gen) + [f];
    assert (Quotient(front, gen) + [f])[..|front|] == Quotient(front, gen);
  }

  /** The shift register divides: data * x^ec is quotient * generator + remainder,
      at every point x of the field and for data of any length. */
  lemma {:induction false} DivisionIdentity(data: seq<bv8>, gen: seq<bv8>, x: bv8)
    requires |gen| > 0 && gen[0] == 1
    ensures Add(Mul(Eval(data, x), Power(x, |gen| - 1)), Eval(Remainder(data, gen), x))
         == Mul(Eval(Quotient(data, gen), x), Eval(gen, x))
  {
    if |data| == 0 {
      EvalZeros(|gen| - 1, x);
      NoZeroDivisors(0, Power(x, |gen| - 1)); NoZeroDivisors(0, Eval(gen, x));
    } else {
      hide *;
      var front, byte := data[..|data| - 1], data[|data| - 1];
      assert data == front + [byte];
      DivisionIdentity(front, gen, x);
      AppendByte(front, byte, gen, x);
      var rem := Remainder(front, gen);
      EvalDivide(rem, byte, gen, x);
      DivisionStep(x, Eval(front, x), Power(x, |gen| - 1), Eval(rem, x), Eval(Quotient(front, gen), x),
                   Eval(gen, x), byte, Factor(rem, byte));
    }
  }

  /** A codeword vanishes at every root of the generator. */
  lemma CodewordRoots(data: seq<bv8>, ec: nat, i: nat)
    requires i < ec
    ensures Eval(Codeword(data, ec), Exp(i)) == 0
  {
    hide Add, Mul, Eval, Exp, Power, Generator, Remainder, Quotient;
    var gen := Generator(ec);
    GeneratorIsMonic(ec);
    GeneratorRoots(ec, i);
    DivisionIdentity(data, gen, Exp(i));
    EvalConcat(data, Remainder(data, gen), Exp(i));
    NoZeroDivisors(Eval(Quotient(data, gen), Exp(i)), 0);
  }

  // ----- Minimum distance --------------------------------------------------------

  /** The sum of v * x^m over the values v and their locators x. */
  ghost function PowerSum(vs: seq<bv8>, xs: seq<bv8>, m: nat): bv8
    requires |vs| == |xs|
  {
    if |vs| == 0 then 0 else Add(Mul(vs[0], Power(xs[0], m)), PowerSum(vs[1..], xs[1..], m))
  }

  /** How many of the values are not zero. */
  ghost function Weight(vs: seq<bv8>): nat {
    if |vs| == 0 then 0 else (if vs[0] != 0 then 1 else 0) + Weight(vs[1..])
  }

  ghost predicate Distinct(xs: seq<bv8>) {
    forall i, j :: 0 <= i < j < |xs| ==> xs[i] != xs[j]
  }

  /** Every value multiplied by (locator + root): the values at the root drop out. */
  ghost function Twisted(vs: seq<bv8>, xs: seq<bv8>, root: bv8): (t: seq<bv8>)
    requires |vs| == |xs|
    ensures |t| == |vs|
  {
    seq(|vs|, i requires 0 <= i < |vs| => Mul(vs[i], Add(xs[i], root)))
  }

  lemma TwistTerm(v: bv8, x: bv8, root: bv8, m: nat, s1: bv8, s0: bv8)
    ensures Add(Mul(Mul(v, Add(x, root)), Power(x, m)), Add(s1, Mul(root, s0)))
         == Add(Add(Mul(v, Power(x, m + 1)), s1), Mul(root, Add(Mul(v, Power(x, m)), s0)))
  {
    var p := Power(x, m);
    assert Power(x, m + 1) == Mul(p, x);
    hide Add, Mul;
    MulDistributes(v, x, root);
    var a, b := Mul(v, x), Mul(v, root);
    MulCommutes(Add(a, b), p); MulCommutes(a, p); MulCommutes(b, p);
    MulDistributes(p, a, b);
    MulAssociates(v, x, p); MulCommutes(x, p);
    MulAssociates(v, root, p); MulCommutes(v, root); MulAssociates(root, v, p);
    MulDistributes(root, Mul(v, p), s0);
    Exchange(Mul(a, p), Mul(b, p), s1, Mul(root, s0));
  }

  /** A twist trades two consecutive power sums for one. */
  lemma {:induction false} PowerSumTwisted(vs: seq<bv8>, xs: seq<bv8>, root: bv8, m: nat)
    requires |vs| == |xs|
    ensures PowerSum(Twisted(vs, xs, root), xs, m)
         == Add(PowerSum(vs, xs, m + 1), Mul(root, PowerSum(vs, xs, m)))
  {
    NoZeroDivisors(root, 0);
    AddLaws(0, 0, 0);
    hide Add, Mul, Power;
    if |vs| > 0 {
      PowerSumTwisted(vs[1..], xs[1..], root, m);
      assert Twisted(vs, xs, root)[1..] == Twisted(vs[1..], xs[1..], root);
      TwistTerm(vs[0], xs[0], root, m, PowerSum(vs[1..], xs[1..], m + 1), PowerSum(vs[1..], xs[1..], m));
    }
  }

  /** A twist at a locator outside the list keeps every non-zero value. */
  lemma {:induction false} TwistOutside(vs: seq<bv8>, xs: seq<bv8>, root: bv8)
    requires |vs| == |xs| && root !in xs
    ensures Weight(Twisted(vs, xs, root)) == Weight(vs)
  {
    if |vs| > 0 {
      assert Twisted(vs, xs, root)[1..] == Twisted(vs[1..], xs[1..], root);
      TwistOutside(vs[1..], xs[1..], root);
      NoZeroDivisors(vs[0], Add(xs[0], root));
      AddLaws(xs[0], root, 0);
    }
  }

  /** A twist at one of the locators removes exactly that value. */
  lemma {:induction false} TwistAt(vs: seq<bv8>, xs: seq<bv8>, p: nat)
    requires |vs| == |xs| && Distinct(xs) && p < |vs| && vs[p] != 0
    ensures Weight(Twisted(vs, xs, xs[p])) + 1 == Weight(vs)
  {
    var t := Twisted(vs, xs, xs[p]);
    assert t[1..] == Twisted(vs[1..], xs[1..], xs[p]);
    NoZeroDivisors(vs[0], Add(xs[0], xs[p]));
    AddLaws(xs[0], xs[p], 0);
    hide Add, Mul;
    if p == 0 {
      TwistOutside(vs[1..], xs[1..], xs[0]);
    } else {
      TwistAt(vs[1..], xs[1..], p - 1);
    }
  }

  lemma {:induction false} WeightPositive(vs: seq<bv8>, p: nat)
    requires p < |vs| && vs[p] != 0
    ensures Weight(vs) > 0
  {
    if p > 0 {
      WeightPositive(vs[1..], p - 1);
    }
  }

  lemma {:induction false} PowerSumOfOne(vs: seq<bv8>, xs: seq<bv8>, p: nat, m: nat)
    requires |vs| == |xs| && p < |vs|
    requires forall i :: 0 <= i < |vs| && i != p ==> vs[i] == 0
    ensures PowerSum(vs, xs, m) == Mul(vs[p], Power(xs[p], m))
  {
    NoZeroDivisors(0, Power(xs[0], m));
    AddLaws(Mul(vs[p], Power(xs[p], m)), 0, 0);
    hide Add, Mul, Power;
    if p == 0 {
      PowerSumOfNone(vs[1..], xs[1..], m);
    } else {
      PowerSumOfOne(vs[1..], xs[1..], p - 1, m);
    }
  }

  lemma {:induction false} PowerSumOfNone(vs: seq<bv8>, xs: seq<bv8>, m: nat)
    requires |vs| == |xs|
    requires forall i :: 0 <= i < |vs| ==> vs[i] == 0
    ensures PowerSum(vs, xs, m) == 0
  {
    AddLaws(0, 0, 0);
    if |vs| > 0 {
      NoZeroDivisors(0, Power(xs[0], m));
      hide Add, Mul, Power;
      PowerSumOfNone(vs[1..], xs[1..], m);
    }
  }

  /** Values at distinct locators whose first k power sums vanish are either all zero
      or more than k of them are not. */
  lemma {:induction false} VandermondeBound(vs: seq<bv8>, xs: seq<bv8>, k: nat, p: nat)
    requires |vs| == |xs| && Distinct(xs) && p < |vs| && vs[p] != 0
    requires forall m: nat :: m < k ==> PowerSum(vs, xs, m) == 0
    ensures Weight(vs) >= k + 1
    decreases k
  {
    WeightPositive(vs, p);
    if k > 0 {
      hide Add, Mul, Power;
      var t := Twisted(vs, xs, xs[p]);
      TwistAt(vs, xs, p);
      forall m: nat | m < k - 1 ensures PowerSum(t, xs, m) == 0 {
        PowerSumTwisted(vs, xs, xs[p], m);
        NoZeroDivisors(xs[p], 0);
        AddLaws(0, 0, 0);
      }
      if q: nat :| q < |t| && t[q] != 0 {
        VandermondeBound(t, xs, k - 1, q);
      } else {
        LoneValue(vs, xs, p);
      }
    }
  }

  /** If the twist at p leaves nothing, p is the only value, and the sum of the values is not zero. */
  lemma LoneValue(vs: seq<bv8>, xs: seq<bv8>, p: nat)
    requires |vs| == |xs| && Distinct(xs) && p < |vs| && vs[p] != 0
    requires forall i :: 0 <= i < |vs| ==> Twisted(vs, xs, xs[p])[i] == 0
    ensures PowerSum(vs, xs, 0) != 0
  {
    forall i | 0 <= i < |vs| && i != p ensures vs[i] == 0 {
      assert Twisted(vs, xs, xs[p])[i] == Mul(vs[i], Add(xs[i], xs[p]));
      NoZeroDivisors(vs[i], Add(xs[i], xs[p]));
      AddLaws(xs[i], xs[p], 0);
    }
    PowerSumOfOne(vs, xs, p, 0);
    MulOne(vs[p]);
  }

  /** The locators of a codeword of length n: 2^(n - 1) down to 2^0. */
  ghost function Locators(n: nat): (xs: seq<bv8>)
    ensures |xs| == n
    ensures forall i :: 0 <= i < n ==> xs[i] == Exp(n - 1 - i)
  {
    if n == 0 then [] else [Exp(n - 1)] + Locators(n - 1)
  }

  lemma LocatorsDistinct(n: nat)
    requires n <= 255
    ensures Distinct(Locators(n))
  {
    forall i, j | 0 <= i < j < n ensures Locators(n)[i] != Locators(n)[j] {
      if Exp(n - 1 - i) == Exp(n - 1 - j) {
        ExpInjective(n - 1 - i, n - 1 - j);
      }
    }
  }

  /** Evaluating a codeword at 2^m is its m-th power sum. */
  lemma {:induction false} EvalIsPowerSum(c: seq<bv8>, m: nat)
    ensures Eval(c, Exp(m)) == PowerSum(c, Locators(|c|), m)
  {
    if |c| > 0 {
      var n := |c| - 1;
      EvalIsPowerSum(c[1..], m);
      assert c == [c[0]] + c[1..];
      hide Add, Mul, Exp;
      assert Locators(|c|)[1..] == Locators(n);
      EvalFirst(c[0], c[1..], Exp(m));
      PowerOfExp(m, n);
      PowerOfExp(n, m);
      assert m * n == n * m;
    }
  }

  /** In how many positions two words of the same length differ. */
  ghost function Distance(a: seq<bv8>, b: seq<bv8>): nat
    requires |a| == |b|
  {
    if |a| == 0 then 0 else (if a[0] != b[0] then 1 else 0) + Distance(a[1..], b[1..])
  }

  lemma {:induction false} DistanceIsWeight(a: seq<bv8>, b: seq<bv8>)
    requires |a| == |b|
    ensures Distance(a, b) == Weight(Sum(a, b))
  {
    if |a| > 0 {
      DistanceIsWeight(a[1..], b[1..]);
      assert Sum(a, b)[1..] == Sum(a[1..], b[1..]);
      AddLaws(a[0], b[0], 0);
    }
  }

  lemma DifferenceSums(a: seq<bv8>, b: seq<bv8>, ec: nat, m: nat)
    requires |a| == |b| && m < ec
    ensures PowerSum(Sum(Codeword(a, ec), Codeword(b, ec)), Locators(|a| + ec), m) == 0
  {
    AddLaws(0, 0, 0);
    hide Add, Mul, Exp, Eval, PowerSum;
    CodewordRoots(a, ec, m);
    CodewordRoots(b, ec, m);
    EvalSum(Codeword(a, ec), Codeword(b, ec), Exp(m));
    EvalIsPowerSum(Sum(Codeword(a, ec), Codeword(b, ec)), m);
  }

  /** Different data blocks of one length, no longer than the field allows, give
      codewords that differ in at least ec + 1 positions. */
  lemma MinimumDistance(a: seq<bv8>, b: seq<bv8>, ec: nat)
    requires |a| == |b| && a != b && |a| + ec <= 255
    ensures Distance(Codeword(a, ec), Codeword(b, ec)) >= ec + 1
  {
    var p :| 0 <= p < |a| && a[p] != b[p];
    var v, w := Codeword(a, ec), Codeword(b, ec);
    var d, n := Sum(v, w), |a| + ec;
    hide Add, Mul, Exp, PowerSum, Locators, Weight, Distance, ErrorCorrection;
    AddLaws(a[p], b[p], 0);
    forall m: nat | m < ec ensures PowerSum(d, Locators(n), m) == 0 {
      DifferenceSums(a, b, ec, m);
    }
    LocatorsDistinct(n);
    VandermondeBound(d, Locators(n), ec, p);
    DistanceIsWeight(v, w);
  }

  lemma {:induction false} Triangle(a: seq<bv8>, b: seq<bv8>, c: seq<bv8>)
    requires |a| == |b| == |c|
    ensures Distance(a, c) <= Distance(b, a) + Distance(b, c)
  {
    if |a| > 0 {
      Triangle(a[1..], b[1..], c[1..]);
    }
  }

  /** With at most ec/2 wrong codewords in a block, no other block is as close to what was received. */
  lemma NearestIsUnique(received: seq<bv8>, a: seq<bv8>, b: seq<bv8>, ec: nat)
    requires |a| == |b| && a != b && |received| == |a| + ec <= 255
    requires 2 * Distance(received, Codeword(a, ec)) <= ec
    ensures Distance(received, Codeword(a, ec)) < Distance(received, Codeword(b, ec))
  {
    MinimumDistance(a, b, ec);
    Triangle(Codeword(a, ec), received, Codeword(b, ec));
  }

  // ----- The loops of the source -----------------------------------------------------

  /** One round of the generator loop: `next` starts at zero and takes every coefficient twice. */
  method MultiplyByRoot(tables: GfTables, poly: array<bv8>, root: bv8) returns (next: array<bv8>)
    requires tables.Valid()
    ensures fresh(next)
    ensures next[..] == TimesRoot(poly[..], root)
  {
    hide Add, Mul;
    next := new bv8[poly.Length + 1](_ => 0);
    var j := 0;
    while j < poly.Length
      invariant 0 <= j <= poly.Length
      invariant forall i :: 0 <= i < j ==> next[i] == TimesRoot(poly[..], root)[i]
      invariant next[j] == if j == 0 then 0 else Mul(poly[j - 1], root)
      invariant forall i :: j < i <= poly.Length ==> next[i] == 0
    {
      next[j] := Add(next[j], poly[j]);
      AddLaws(poly[j], if j == 0 then 0 else Mul(poly[j - 1], root), 0);
      var product := tables.GfMul(poly[j], root);
      next[j + 1] := Add(next[j + 1], product);
      AddLaws(product, 0, 0);
      j := j + 1;
    }
    AddLaws(next[j], 0, 0);
    assert next[..] == TimesRoot(poly[..], root);
  }

  method RsGenerator(tables: GfTables, degree: nat) returns (poly: array<bv8>)
    requires tables.Valid() && degree <= 512
    ensures fresh(poly)
    ensures poly[..] == Generator(degree)
  {
    hide Add, Mul;
    poly := new bv8[1](_ => 1);
    assert poly[..] == [1];
    for i := 0 to degree
      invariant fresh(poly) && tables.Valid()
      invariant poly[..] == Generator(i)
    {
      poly := MultiplyByRoot(tables, poly, tables.exp[i]);
    }
  }

  method RsEncode(tables: GfTables, data: seq<bv8>, ecLength: nat) returns (rem: array<bv8>)
    requires tables.Valid() && ecLength <= 512
    ensures fresh(rem)
    ensures rem[..] == ErrorCorrection(data, ecLength)
  {
    hide Add, Mul;
    var gen := RsGenerator(tables, ecLength);
    rem := new bv8[ecLength](_ => 0);
    assert rem[..] == Zeros(ecLength);
    assert data[..0] == [];
    for n := 0 to |data|
      invariant fresh(rem) && rem.Length == ecLength && rem !in tables.Footprint() && rem != gen
      invariant gen[..] == Generator(ecLength) && tables.Valid()
      invariant rem[..] == Remainder(data[..n], gen[..])
    {
      hide *;
      RemainderPrefix(data, n, gen[..]);
      ShiftIn(tables, rem, gen, data[n]);
    }
    assert data[..|data|] == data;
  }

  lemma RemainderPrefix(data: seq<bv8>, n: nat, gen: seq<bv8>)
    requires |gen| > 0 && n < |data|
    ensures Remainder(data[..n + 1], gen) == Divide(Remainder(data[..n], gen), data[n], gen)
  {
    assert data[..n + 1][..n] == data[..n];
  }

  /** The body of the encoder's loop, on the register in place. */
  method ShiftIn(tables: GfTables, rem: array<bv8>, gen: array<bv8>, byte: bv8)
    requires tables.Valid() && rem != gen && gen.Length == rem.Length + 1
    requires rem !in tables.Footprint()
    modifies rem
    ensures rem[..] == Divide(old(rem[..]), byte, gen[..])
  {
    hide Add, Mul;
    var ec := rem.Length;
    var factor := if ec > 0 then Add(byte, rem[0]) else byte;
    forall i | 0 <= i < ec - 1 {
      rem[i] := rem[i + 1];
    }
    if ec > 0 {
      rem[ec - 1] := 0;
    }
    assert rem[..] == MovedUp(old(rem[..]));
    if factor != 0 {
      AddMultiple(tables, rem, gen, factor);
    } else {
      AddNothing(rem[..], gen[1..]);
    }
  }

  lemma AddNothing(rem: seq<bv8>, gen: seq<bv8>)
    requires |gen| == |rem|
    ensures Sum(rem, Scale(gen, 0)) == rem
  {
    forall k | 0 <= k < |rem| ensures Add(rem[k], Mul(gen[k], 0)) == rem[k] {
      NoZeroDivisors(gen[k], 0);
      AddLaws(rem[k], 0, 0);
    }
  }

  method AddMultiple(tables: GfTables, rem: array<bv8>, gen: array<bv8>, factor: bv8)
    requires tables.Valid() && rem != gen && gen.Length == rem.Length + 1
    requires rem !in tables.Footprint()
    modifies rem
    ensures rem[..] == Sum(old(rem[..]), Scale(gen[1..], factor))
  {
    hide Add, Mul;
    var i := 0;
    while i < rem.Length
      invariant 0 <= i <= rem.Length
      invariant tables.Valid()
      invariant forall k :: 0 <= k < i ==> rem[k] == Add(old(rem[k]), Mul(gen[k + 1], factor))
      invariant forall k :: i <= k < rem.Length ==> rem[k] == old(rem[k])
    {
      var product := tables.GfMul(gen[i + 1], factor);
      rem[i] := Add(rem[i], product);
      i := i + 1;
    }
  }
}
