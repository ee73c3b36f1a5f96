/** An injection from n indices into 1..n hits every value. */
module Pigeonhole {
  ghost function Image(g: nat -> int, n: nat): set<int> {
    if n == 0 then {} else Image(g, n - 1) + {g(n - 1)}
  }

  ghost function UpTo(n: nat): set<int> {
    if n == 0 then {} else UpTo(n - 1) + {n}
  }

  lemma {:induction false} UpToCount(n: nat)
    ensures |UpTo(n)| == n && forall v :: v in UpTo(n) <==> 1 <= v <= n
  {
    if n > 0 {
      UpToCount(n - 1);
    }
  }

  lemma {:induction false} NotInImage(g: nat -> int, n: nat, v: int)
    requires forall i: nat :: i < n ==> g(i) != v
    ensures v !in Image(g, n)
  {
    if n > 0 {
      NotInImage(g, n - 1, v);
      assert g(n - 1) != v;
    }
  }

  lemma {:induction false} ImageWithin(g: nat -> int, n: nat, m: nat)
    requires forall i: nat :: i < n ==> g(i) in UpTo(m)
    ensures Image(g, n) <= UpTo(m)
  {
    if n > 0 {
      ImageWithin(g, n - 1, m);
      assert g(n - 1) in UpTo(m);
    }
  }

  lemma {:induction false} ImageCount(g: nat -> int, n: nat)
    requires forall i: nat, j: nat :: i < j < n ==> g(i) != g(j)
    ensures |Image(g, n)| == n
  {
    if n > 0 {
      ImageCount(g, n - 1);
      var last := g(n - 1);
      forall i: nat | i < n - 1 ensures g(i) != last {
        assert i < n - 1 < n;
      }
      NotInImage(g, n - 1, last);
    }
  }

  lemma SubsetOfSameSize(a: set<int>, b: set<int>)
    requires a <= b && |a| == |b|
    ensures a == b
  {
    assert b == a + (b - a);
    assert |b| == |a| + |b - a|;
  }

  lemma InjectionHits(g: nat -> int, n: nat, v: int) returns (i: nat)
    requires forall i: nat :: i < n ==> 1 <= g(i) <= n
    requires forall i: nat, j: nat :: i < j < n ==> g(i) != g(j)
    requires 1 <= v <= n
    ensures i < n && g(i) == v
  {
    ImageCount(g, n);
    UpToCount(n);
    ImageWithin(g, n, n);
    SubsetOfSameSize(Image(g, n), UpTo(n));
    if forall i: nat :: i < n ==> g(i) != v {
      NotInImage(g, n, v);
    }
    i :| i < n && g(i) == v;
  }
}

/** Repeated application of a function. */
module Iteration {
  function Iterate<T>(f: T -> T, n: nat, a: T): T {
    if n == 0 then a else f(Iterate(f, n - 1, a))
  }

  ghost predicate Additive<T>(add: (T, T) -> T, f: T -> T, a: T, b: T) {
    f(add(a, b)) == add(f(a), f(b))
  }

  lemma {:induction false} IterateAdditive<T(!new)>(add: (T, T) -> T, f: T -> T, n: nat, a: T, b: T)
    requires forall x, y :: Additive(add, f, x, y)
    ensures Iterate(f, n, add(a, b)) == add(Iterate(f, n, a), Iterate(f, n, b))
  {
    if n > 0 {
      IterateAdditive(add, f, n - 1, a, b);
      assert Additive(add, f, Iterate(f, n - 1, a), Iterate(f, n - 1, b));
    }
  }

  lemma {:induction false} IterateAdd<T>(f: T -> T, m: nat, n: nat, a: T)
    ensures Iterate(f, m + n, a) == Iterate(f, m, Iterate(f, n, a))
  {
    if m > 0 {
      IterateAdd(f, m - 1, n, a);
    }
  }

  lemma {:induction false} IterateFixed<T>(f: T -> T, n: nat, a: T)
    requires f(a) == a
    ensures Iterate(f, n, a) == a
  {
    if n > 0 {
      IterateFixed(f, n - 1, a);
    }
  }
}

/** Bit-level facts about multiplication by x modulo 0x11D, on bytes. */
module ByteShift {

  /** Multiplication by x modulo 0x11D. */
  function XTime(a: bv8): bv8 {
    if a & 0x80 != 0 then (a << 1) ^ 0x1D else a << 1
  }

  /** The same map without a branch: bit 7 is folded back onto bits 0, 2, 3 and 4. */
  function Folded(a: bv8): bv8 {
    (a << 1) ^ (a >> 7) ^ ((a >> 7) << 2) ^ ((a >> 7) << 3) ^ ((a >> 7) << 4)
  }

  lemma FoldedIsXTime(a: bv8)
    ensures XTime(a) == Folded(a)
  {}

  lemma FoldedXor(a: bv8, b: bv8)
    ensures Folded(a ^ b) == Folded(a) ^ Folded(b)
  {}

  lemma XTimeXor(a: bv8, b: bv8)
    ensures XTime(a ^ b) == XTime(a) ^ XTime(b)
  {
    FoldedIsXTime(a);
    FoldedIsXTime(b);
    FoldedIsXTime(a ^ b);
    FoldedXor(a, b);
  }

  lemma XTimeNonzero(a: bv8)
    ensures XTime(a) == 0 <==> a == 0
  {}

  /** Doubling without a carry out of the byte is a plain shift. */
  lemma XTimeOfHalf(b: bv8)
    ensures XTime(b >> 1) ^ (b & 1) == b
  {}

  /** The shift-and-reduce step on a wider integer. */
  function WideStep(x: bv16): bv16 {
    var y := x << 1;
    if y & 0x100 != 0 then y ^ 0x11D else y
  }

  lemma WideStepIsXTime(a: bv8)
    ensures WideStep(a as bv16) == XTime(a) as bv16
  {}

  lemma ByteRange(a: bv8)
    ensures 0 <= a as int < 256 && (a as int == 0 <==> a == 0)
  {
    if a as int == 0 {
      SameByte(a, 0);
    }
  }

  lemma SameByte(a: bv8, b: bv8)
    ensures a as int == b as int <==> a == b
  {
    assert (a as int) as bv8 == a && (b as int) as bv8 == b;
  }

  /** Widening a byte changes neither its value nor its bits. */
  lemma Narrow(a: bv8)
    ensures a as bv16 < 256 && (a as bv16) as bv8 == a && (a as bv16) as int == a as int < 256
  {}

  function Shift3(a: bv8): bv8 { XTime(XTime(XTime(a))) }

  function Shift15(a: bv8): bv8 { Shift3(Shift3(Shift3(Shift3(Shift3(a))))) }

  /** 2^(15 r), for r = 0 to 17. */
  const FIFTEENTHS: seq<bv8> := [1, 38, 96, 193, 185, 15, 223, 26, 59, 169, 85, 145, 150, 100, 89, 36, 44, 1]

  lemma LowFifteenths(r: nat)
    requires r < 9
    ensures Shift15(FIFTEENTHS[r]) == FIFTEENTHS[r + 1]
  {}

  lemma HighFifteenths(r: nat)
    requires 9 <= r < 17
    ensures Shift15(FIFTEENTHS[r]) == FIFTEENTHS[r + 1]
  {}

  /** 2^(51 r), reached from the nearest smaller multiple of 15. */
  lemma FiftyFirsts()
    ensures Shift3(Shift3(193)) == 10 && Shift3(Shift3(Shift3(Shift3(223)))) == 68
    ensures Shift3(85) == 146 && Shift3(Shift3(Shift3(100))) == 221
  {}

  /** 2^(85 r), reached the same way. */
  lemma EightyFifths()
    ensures XTime(Shift3(Shift3(Shift3(15)))) == 214 && XTime(XTime(Shift3(145))) == 215
  {}
}

/** Table arithmetic in GF(256) = F2[x] / (x^8 + x^4 + x^3 + x^2 + 1)  (services/shamir_service.py).
    Addition is xor; multiplication and inversion look up powers and discrete logarithms of 2. */
module GF256 {
  import opened ByteShift
  import opened Iteration
  import opened Pigeonhole
  import opened Fields

  /** The n-th power of the generator 2. */
  function Exp(n: nat): bv8 {
    Iterate(XTime, n, 1)
  }

  function FindLog(a: bv8, i: nat): (r: nat)
    requires i <= 255
    ensures r < 255
    decreases 255 - i
  {
    if i == 255 then 0 else if Exp(i) == a then i else FindLog(a, i + 1)
  }

  /** The discrete logarithm of a nonzero byte; 0 for the byte 0, as in a zero-filled table. */
  function Log(a: bv8): (r: nat)
    ensures r < 255
  {
    FindLog(a, 0)
  }

  // ---- the table-driven operations ----

  function Add(a: bv8, b: bv8): bv8 {
    a ^ b
  }

  /** Entry i of the 512-entry power table, whose second half repeats the first. */
  function ExpEntry(i: nat): bv8
    requires i < 512
  {
    Exp(i % 255)
  }

  function Mul(a: bv8, b: bv8): bv8 {
    if a == 0 || b == 0 then 0 else ExpEntry(Log(a) + Log(b))
  }

  /** Total version of the inverse; the source raises on 0, which `Inverse` models. */
  function Inv(a: bv8): bv8 {
    ExpEntry(255 - Log(a))
  }

  datatype Inverted = Inverted(value: bv8) | ZeroDivision

  function Inverse(a: bv8): Inverted {
    if a == 0 then ZeroDivision else Inverted(Inv(a))
  }

  const GF: Field<bv8> := Field(0, 1, Add, Mul, Inv)

  // ---- multiplication by x ----

  lemma XTimeAdditive(a: bv8, b: bv8)
    ensures Additive(Add, XTime, a, b)
  {
    XTimeXor(a, b);
  }

  lemma ShiftAdditive(n: nat, a: bv8, b: bv8)
    ensures Iterate(XTime, n, Add(a, b)) == Add(Iterate(XTime, n, a), Iterate(XTime, n, b))
  {
    forall x, y ensures Additive(Add, XTime, x, y) {
      XTimeAdditive(x, y);
    }
    IterateAdditive(Add, XTime, n, a, b);
  }

  lemma {:induction false} ExpNonzero(n: nat)
    ensures Exp(n) != 0
  {
    if n > 0 {
      ExpNonzero(n - 1);
      XTimeNonzero(Exp(n - 1));
    }
  }

  // ---- the generator has order 255 ----

  lemma Advance3(n: nat)
    ensures Exp(n + 3) == Shift3(Exp(n))
  {
    assert Exp(n + 2) == XTime(Exp(n + 1));
  }

  /** The powers shortly after a known one. */
  lemma AdvanceFrom(n: nat, v: bv8)
    requires Exp(n) == v
    ensures Exp(n + 3) == Shift3(v) && Exp(n + 6) == Shift3(Shift3(v)) && Exp(n + 9) == Shift3(Shift3(Shift3(v)))
    ensures Exp(n + 12) == Shift3(Shift3(Shift3(Shift3(v))))
    ensures Exp(n + 5) == XTime(XTime(Shift3(v))) && Exp(n + 10) == XTime(Shift3(Shift3(Shift3(v))))
  {
    Advance3(n);
    Advance3(n + 3);
    Advance3(n + 6);
    Advance3(n + 9);
    assert Exp(n + 4) == XTime(Exp(n + 3));
  }

  lemma Advance15(n: nat)
    ensures Exp(n + 15) == Shift15(Exp(n))
  {
    Advance3(n);
    Advance3(n + 3);
    Advance3(n + 6);
    Advance3(n + 9);
    Advance3(n + 12);
  }

  lemma {:induction false} Fifteenths(r: nat)
    requires r <= 17
    ensures Exp(15 * r) == FIFTEENTHS[r]
  {
    if r > 0 {
      Fifteenths(r - 1);
      Advance15(15 * (r - 1));
      if r - 1 < 9 {
        LowFifteenths(r - 1);
      } else {
        HighFifteenths(r - 1);
      }
    }
  }

  /** 2 raised to a proper multiple of 255/17, 255/5 or 255/3 is never 1. */
  lemma SeventeenthRoots(r: nat)
    requires 0 < r < 17
    ensures Exp(15 * r) != 1
  {
    Fifteenths(r);
  }

  lemma FifthRoots(r: nat)
    requires 0 < r < 5
    ensures Exp(51 * r) != 1
  {
    FiftyFirsts();
    if r == 1 {
      FifteenthsThen(3, 193, 51 * r);
    } else if r == 2 {
      FifteenthsThen(6, 223, 51 * r);
    } else if r == 3 {
      FifteenthsThen(10, 85, 51 * r);
    } else {
      FifteenthsThen(13, 100, 51 * r);
    }
  }

  lemma FifteenthsThen(q: nat, v: bv8, n: nat)
    requires q <= 17 && FIFTEENTHS[q] == v
    ensures n == 15 * q + 3 ==> Exp(n) == Shift3(v)
    ensures n == 15 * q + 6 ==> Exp(n) == Shift3(Shift3(v))
    ensures n == 15 * q + 9 ==> Exp(n) == Shift3(Shift3(Shift3(v)))
    ensures n == 15 * q + 12 ==> Exp(n) == Shift3(Shift3(Shift3(Shift3(v))))
    ensures n == 15 * q + 5 ==> Exp(n) == XTime(XTime(Shift3(v)))
    ensures n == 15 * q + 10 ==> Exp(n) == XTime(Shift3(Shift3(Shift3(v))))
  {
    Fifteenths(q);
    AdvanceFrom(15 * q, v);
  }

  lemma CubeRoots(r: nat)
    requires 0 < r < 3
    ensures Exp(85 * r) != 1
  {
    EightyFifths();
    if r == 1 {
      FifteenthsThen(5, 15, 85 * r);
    } else {
      FifteenthsThen(11, 145, 85 * r);
    }
  }

  /** Exp turns sums into iterated shifts. */
  lemma ExpAdd(m: nat, n: nat)
    ensures Exp(m + n) == Iterate(XTime, m, Exp(n))
  {
    IterateAdd(XTime, m, n, 1);
  }

  lemma FullTurn(n: nat)
    ensures n == 255 ==> Exp(n) == 1
  {
    Fifteenths(17);
  }

  lemma ExpPeriod(n: nat)
    ensures Exp(n + 255) == Exp(n)
  {
    var turn := 255;
    FullTurn(turn);
    ExpAdd(n, turn);
  }

  lemma {:induction false} ExpMod(n: nat, k: nat)
    ensures Exp(n + 255 * k) == Exp(n)
  {
    if k > 0 {
      ExpMod(n, k - 1);
      ExpPeriod(n + 255 * (k - 1));
    }
  }

  lemma ExpReduced(n: nat)
    ensures Exp(n) == Exp(n % 255)
  {
    ExpMod(n % 255, n / 255);
  }

  lemma {:induction false} PowersOfOne(k: nat, m: nat)
    requires Exp(k) == 1
    ensures Exp(m * k) == 1
  {
    if m > 0 {
      PowersOfOne(k, m - 1);
      ExpAdd((m - 1) * k, k);
      assert m * k == (m - 1) * k + k;
    }
  }

  /** If 2^k = 1 then also 2^(m * (k mod p)) = 1 whenever m * p = 255. */
  lemma ResidueOfOne(k: nat, m: nat, p: nat)
    requires Exp(k) == 1 && p > 0 && m * p == 255
    ensures Exp(m * (k % p)) == 1
  {
    PowersOfOne(k, m);
    assert m * k == m * (k % p) + 255 * (k / p) by {
      assert k == p * (k / p) + k % p;
    }
    ExpMod(m * (k % p), k / p);
  }

  lemma NotOneMod17(k: nat)
    requires k % 17 != 0
    ensures Exp(k) != 1
  {
    if Exp(k) == 1 {
      ResidueOfOne(k, 15, 17);
      SeventeenthRoots(k % 17);
    }
  }

  lemma NotOneMod5(k: nat)
    requires k % 5 != 0
    ensures Exp(k) != 1
  {
    if Exp(k) == 1 {
      ResidueOfOne(k, 51, 5);
      FifthRoots(k % 5);
    }
  }

  lemma NotOneMod3(k: nat)
    requires k % 3 != 0
    ensures Exp(k) != 1
  {
    if Exp(k) == 1 {
      ResidueOfOne(k, 85, 3);
      CubeRoots(k % 3);
    }
  }

  /** 2^k is 1 exactly when k is a multiple of 255. */
  lemma GeneratorOrder(k: nat)
    ensures Exp(k) == 1 <==> k % 255 == 0
  {
    if k % 255 == 0 {
      ExpReduced(k);
      assert Exp(0) == 1;
    } else if k % 17 != 0 {
      NotOneMod17(k);
    } else if k % 5 != 0 {
      NotOneMod5(k);
    } else if k % 3 != 0 {
      NotOneMod3(k);
    } else {
      CommonMultiple(k, k / 17, k / 5, k / 3);
    }
  }

  lemma CommonMultiple(k: int, a: int, c: int, d: int)
    requires k == 17 * a && k == 5 * c && k == 3 * d
    ensures k % 255 == 0
  {
    var b := 3 * c - 10 * a;
    assert a == 5 * b && b == 3 * (d - 28 * b);
    assert k == 255 * (d - 28 * b);
  }

  lemma ExpShiftedEqual(i: nat, j: nat)
    requires i < j < 255
    ensures Exp(i) != Exp(j)
  {
    if Exp(i) == Exp(j) {
      ExpAdd(255 - i, i);
      ExpAdd(255 - i, j);
      assert 255 - i + j == (j - i) + 255;
      ExpPeriod(j - i);
      GeneratorOrder(255);
      GeneratorOrder(j - i);
    }
  }

  // ---- every nonzero byte is a power of 2 ----

  lemma PowerInRange(i: nat)
    ensures 1 <= Exp(i) as int <= 255
  {
    ExpNonzero(i);
    ByteRange(Exp(i));
  }

  lemma PowersDiffer(i: nat, j: nat)
    requires i < j < 255
    ensures Exp(i) as int != Exp(j) as int
  {
    ExpShiftedEqual(i, j);
    SameByte(Exp(i), Exp(j));
  }

  lemma ExpSurjective(a: bv8) returns (i: nat)
    requires a != 0
    ensures i < 255 && Exp(i) == a
  {
    var g := (n: nat) => Exp(n) as int;
    forall n: nat | n < 255 ensures 1 <= g(n) <= 255 {
      PowerInRange(n);
    }
    forall m: nat, n: nat | m < n < 255 ensures g(m) != g(n) {
      PowersDiffer(m, n);
    }
    ByteRange(a);
    i := InjectionHits(g, 255, a as int);
    SameByte(Exp(i), a);
  }

  lemma {:induction false} FindLogCorrect(a: bv8, i: nat, k: nat)
    requires i <= k < 255 && Exp(k) == a
    ensures FindLog(a, i) == k
    decreases k - i
  {
    if i < k {
      ExpShiftedEqual(i, k);
      FindLogCorrect(a, i + 1, k);
    }
  }

  /** Exp and Log are mutual inverses on exponents below 255 and nonzero bytes. */
  lemma ExpLogInverse(a: bv8, k: nat)
    ensures a != 0 ==> Exp(Log(a)) == a
    ensures k < 255 ==> Log(Exp(k)) == k
  {
    if a != 0 {
      var i := ExpSurjective(a);
      FindLogCorrect(a, 0, i);
    }
    if k < 255 {
      FindLogCorrect(Exp(k), 0, k);
    }
  }

  // ---- the field axioms ----

  /** Multiplication adds exponents. */
  lemma MulExp(i: nat, j: nat)
    requires i < 255 && j < 255
    ensures Mul(Exp(i), Exp(j)) == Exp((i + j) % 255)
  {
    ExpNonzero(i);
    ExpNonzero(j);
    ExpLogInverse(0, i);
    ExpLogInverse(0, j);
  }

  /** Multiplying by 2^k is k shifts. */
  lemma MulByPower(a: bv8, k: nat)
    requires k < 255
    ensures Mul(a, Exp(k)) == Iterate(XTime, k, a)
  {
    if a == 0 {
      XTimeNonzero(0);
      IterateFixed(XTime, k, 0);
    } else {
      var i := ExpSurjective(a);
      MulExp(i, k);
      ExpReduced(i + k);
      ExpAdd(k, i);
    }
  }

  lemma MulCommutes(a: bv8, b: bv8)
    ensures Mul(a, b) == Mul(b, a)
  {}

  lemma MulZero(a: bv8)
    ensures Mul(a, 0) == 0 && Mul(0, a) == 0
  {}

  lemma MulAssociates(a: bv8, b: bv8, c: bv8)
    ensures Mul(Mul(a, b), c) == Mul(a, Mul(b, c))
  {
    if a != 0 && b != 0 && c != 0 {
      var i := ExpSurjective(a);
      var j := ExpSurjective(b);
      var k := ExpSurjective(c);
      ExpAssociates(i, j, k);
    } else {
      MulZero(a);
      MulZero(b);
      MulZero(c);
      MulZero(Mul(a, b));
      MulZero(Mul(b, c));
    }
  }

  lemma ExpAssociates(i: nat, j: nat, k: nat)
    requires i < 255 && j < 255 && k < 255
    ensures Mul(Mul(Exp(i), Exp(j)), Exp(k)) == Mul(Exp(i), Mul(Exp(j), Exp(k)))
  {
    forall x: nat, y: nat ensures AddsExponents(Mul, Exp, x, y) {
      if x < 255 && y < 255 {
        MulExp(x, y);
      }
    }
    ExponentsAssociate(Mul, Exp, i, j, k);
  }

  ghost predicate AddsExponents<T>(mul: (T, T) -> T, exp: nat -> T, x: nat, y: nat) {
    x < 255 && y < 255 ==> mul(exp(x), exp(y)) == exp((x + y) % 255)
  }

  lemma ExponentsAssociate<T>(mul: (T, T) -> T, exp: nat -> T, i: nat, j: nat, k: nat)
    requires forall x: nat, y: nat :: AddsExponents(mul, exp, x, y)
    requires i < 255 && j < 255 && k < 255
    ensures mul(mul(exp(i), exp(j)), exp(k)) == mul(exp(i), mul(exp(j), exp(k)))
  {
    assert AddsExponents(mul, exp, i, j) && AddsExponents(mul, exp, (i + j) % 255, k);
    assert AddsExponents(mul, exp, j, k) && AddsExponents(mul, exp, i, (j + k) % 255);
    ModAssociates(i, j, k);
  }

  lemma ModAssociates(i: nat, j: nat, k: nat)
    requires i < 255 && j < 255 && k < 255
    ensures ((i + j) % 255 + k) % 255 == (i + (j + k) % 255) % 255
  {
    assert (i + j) % 255 == if i + j < 255 then i + j else i + j - 255;
    assert (j + k) % 255 == if j + k < 255 then j + k else j + k - 255;
  }

  lemma MulOne(a: bv8)
    ensures Mul(a, 1) == a
  {
    MulByPower(a, 0);
    assert Exp(0) == 1;
  }

  lemma MulDistributes(a: bv8, b: bv8, c: bv8)
    ensures Mul(a, Add(b, c)) == Add(Mul(a, b), Mul(a, c))
  {
    MulCommutes(a, Add(b, c));
    MulCommutes(a, b);
    MulCommutes(a, c);
    if a != 0 {
      var k := ExpSurjective(a);
      MulByPower(Add(b, c), k);
      MulByPower(b, k);
      MulByPower(c, k);
      ShiftAdditive(k, b, c);
    } else {
      MulZero(b);
      MulZero(c);
      MulZero(Add(b, c));
      assert Add(0, 0) == 0;
    }
  }

  lemma MulInverse(a: bv8)
    requires a != 0
    ensures Mul(a, Inv(a)) == 1
  {
    ExpLogInverse(a, 0);
    OppositeExponents(Log(a));
  }

  lemma OppositeExponents(i: nat)
    requires i < 255
    ensures Mul(Exp(i), Exp((255 - i) % 255)) == 1
  {
    var j := OppositeResidue(i);
    MulExp(i, j);
    assert Exp(0) == 1;
  }

  lemma OppositeResidue(i: nat) returns (j: nat)
    requires i < 255
    ensures j == (255 - i) % 255 && j < 255 && (i + j) % 255 == 0
  {
    j := if i == 0 then 0 else 255 - i;
  }

  lemma AddLaws(a: bv8, b: bv8, c: bv8)
    ensures Add(a, b) == Add(b, a) && Add(Add(a, b), c) == Add(a, Add(b, c))
    ensures Add(a, 0) == a && Add(a, a) == 0
  {}

  lemma GFLaws(a: bv8, b: bv8, c: bv8)
    ensures Laws(GF, a, b, c)
  {
    AddLaws(a, b, c);
    MulCommutes(a, b);
    MulAssociates(a, b, c);
    MulOne(a);
    MulZero(a);
    MulDistributes(a, b, c);
    if a != 0 {
      MulInverse(a);
    }
  }

  /** Bytes with xor and the table-driven product and inverse form a field. */
  lemma GFIsField()
    ensures IsField(GF)
  {
    forall a, b, c ensures Laws(GF, a, b, c) {
      GFLaws(a, b, c);
    }
  }

  // ---- powers ----

  function Pow(base: bv8, e: nat): bv8 {
    if e == 0 then 1 else if base == 0 then 0 else ExpEntry((Log(base) * e) % 255)
  }

  function Repeated(base: bv8, n: nat): bv8 {
    if n == 0 then 1 else Mul(Repeated(base, n - 1), base)
  }

  lemma PowNonzero(base: bv8, e: nat)
    requires base != 0
    ensures Pow(base, e) == Exp((Log(base) * e) % 255)
  {
    assert e == 0 ==> Log(base) * e == 0;
    assert Exp(0) == 1;
  }

  /** The looked-up power is the repeated product. */
  lemma PowIsRepeated(base: bv8, n: nat)
    ensures Pow(base, n) == Repeated(base, n)
  {
    if base != 0 {
      PowNonzero(base, n);
      ExpLogInverse(base, 0);
      RepeatedExp(Log(base), n);
    } else if n > 0 {
      MulZero(Repeated(base, n - 1));
    }
  }

  lemma {:induction false} RepeatedExp(i: nat, n: nat)
    requires i < 255
    ensures i * n >= 0
    ensures Repeated(Exp(i), n) == Exp((i * n) % 255)
  {
    if n > 0 {
      RepeatedExp(i, n - 1);
      MulExp((i * (n - 1)) % 255, i);
      assert i * n == i * (n - 1) + i;
      ResidueStep(i * (n - 1), i);
    } else {
      assert Exp(0) == 1;
    }
  }

  lemma ResidueStep(m: nat, i: nat)
    ensures (m % 255 + i) % 255 == (m + i) % 255
  {}

  // ---- the reference product ----

  /** Shift-and-add multiplication of polynomials modulo 0x11D, lowest bit of b first. */
  function PolyMul(a: bv8, b: bv8): bv8
    decreases b
  {
    if b == 0 then 0
    else if b & 1 == 0 then PolyMul(XTime(a), b >> 1)
    else Add(a, PolyMul(XTime(a), b >> 1))
  }

  /** The table-driven product is that multiplication. */
  lemma {:induction false} MulIsPolyMul(a: bv8, b: bv8)
    ensures Mul(a, b) == PolyMul(a, b)
    decreases b
  {
    if b == 0 {
      MulZero(a);
    } else {
      var h := b >> 1;
      MulIsPolyMul(XTime(a), h);
      MulShiftsAcross(a, h);
      XTimeOfHalf(b);
      MulDistributes(a, XTime(h), b & 1);
      LowBit(b);
      MulOne(a);
      MulZero(a);
      AddLaws(Mul(a, XTime(h)), a, a);
    }
  }

  lemma LowBit(b: bv8)
    ensures b & 1 == 0 || b & 1 == 1
  {}

  /** A factor x can be moved from one operand to the other. */
  lemma MulShiftsAcross(a: bv8, b: bv8)
    ensures Mul(a, XTime(b)) == Mul(XTime(a), b)
  {
    MulByPower(a, 1);
    MulByPower(b, 1);
    assert Exp(1) == 2 && Iterate(XTime, 1, a) == XTime(a) && Iterate(XTime, 1, b) == XTime(b);
    MulCommutes(b, 2);
    MulAssociates(a, 2, b);
  }
}
