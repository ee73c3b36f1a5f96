/** Networks of addition, xor and rotation over any word type: each quarter round is invertible, so
    every sequence of quarter rounds is a bijection. */
module QuarterRounds {
  datatype Words<!T> = Words(add: (T, T) -> T, sub: (T, T) -> T, xor: (T, T) -> T, rotl: nat -> T -> T, rotr: nat -> T -> T)

  ghost predicate Laws<T>(w: Words<T>, a: T, b: T, n: nat) {
    && w.sub(w.add(a, b), b) == a && w.add(w.sub(a, b), b) == a
    && w.xor(w.xor(a, b), b) == a
    && (n in {7, 8, 12, 16} ==> w.rotr(n)(w.rotl(n)(a)) == a && w.rotl(n)(w.rotr(n)(a)) == a)
  }

  ghost predicate IsArx<T(!new)>(w: Words<T>) {
    forall a, b, n :: Laws(w, a, b, n)
  }

  /** x += y; z ^= x; z <<<= n */
  function Mix<T>(w: Words<T>, s: seq<T>, x: nat, y: nat, z: nat, n: nat): (t: seq<T>)
    requires x < |s| && y < |s| && z < |s|
    ensures |t| == |s|
  {
    var s1 := s[x := w.add(s[x], s[y])];
    s1[z := w.rotl(n)(w.xor(s1[z], s1[x]))]
  }

  function Unmix<T>(w: Words<T>, s: seq<T>, x: nat, y: nat, z: nat, n: nat): (t: seq<T>)
    requires x < |s| && y < |s| && z < |s|
    ensures |t| == |s|
  {
    var s1 := s[z := w.xor(w.rotr(n)(s[z]), s[x])];
    s1[x := w.sub(s1[x], s1[y])]
  }

  lemma MixInverts<T(!new)>(w: Words<T>, s: seq<T>, x: nat, y: nat, z: nat, n: nat)
    requires IsArx(w) && n in {7, 8, 12, 16}
    requires x < |s| && y < |s| && z < |s| && x != y && y != z && x != z
    ensures Unmix(w, Mix(w, s, x, y, z, n), x, y, z, n) == s
    ensures Mix(w, Unmix(w, s, x, y, z, n), x, y, z, n) == s
  {
    var sum := w.add(s[x], s[y]);
    assert Laws(w, s[x], s[y], n) && Laws(w, s[z], sum, n) && Laws(w, w.xor(s[z], sum), sum, n);
    assert Laws(w, w.rotr(n)(s[z]), s[x], n) && Laws(w, s[z], s[x], n);
  }

  datatype Quad = Quad(a: nat, b: nat, c: nat, d: nat)

  predicate ValidQuad(q: Quad) {
    q.a < 16 && q.b < 16 && q.c < 16 && q.d < 16
    && q.a != q.b && q.a != q.c && q.a != q.d && q.b != q.c && q.b != q.d && q.c != q.d
  }

  /** Section 2.1 of RFC 8439. */
  function QuarterRound<T>(w: Words<T>, s: seq<T>, q: Quad): (t: seq<T>)
    requires |s| == 16 && ValidQuad(q)
    ensures |t| == 16
  {
    var s1 := Mix(w, s, q.a, q.b, q.d, 16);
    var s2 := Mix(w, s1, q.c, q.d, q.b, 12);
    var s3 := Mix(w, s2, q.a, q.b, q.d, 8);
    Mix(w, s3, q.c, q.d, q.b, 7)
  }

  function QuarterRoundBack<T>(w: Words<T>, s: seq<T>, q: Quad): (t: seq<T>)
    requires |s| == 16 && ValidQuad(q)
    ensures |t| == 16
  {
    var s3 := Unmix(w, s, q.c, q.d, q.b, 7);
    var s2 := Unmix(w, s3, q.a, q.b, q.d, 8);
    var s1 := Unmix(w, s2, q.c, q.d, q.b, 12);
    Unmix(w, s1, q.a, q.b, q.d, 16)
  }

  lemma QuarterRoundUndone<T(!new)>(w: Words<T>, s: seq<T>, q: Quad)
    requires IsArx(w) && |s| == 16 && ValidQuad(q)
    ensures QuarterRoundBack(w, QuarterRound(w, s, q), q) == s
  {
    var s1 := Mix(w, s, q.a, q.b, q.d, 16);
    var s2 := Mix(w, s1, q.c, q.d, q.b, 12);
    var s3 := Mix(w, s2, q.a, q.b, q.d, 8);
    MixInverts(w, s3, q.c, q.d, q.b, 7);
    MixInverts(w, s2, q.a, q.b, q.d, 8);
    MixInverts(w, s1, q.c, q.d, q.b, 12);
    MixInverts(w, s, q.a, q.b, q.d, 16);
  }

  lemma QuarterRoundReached<T(!new)>(w: Words<T>, s: seq<T>, q: Quad)
    requires IsArx(w) && |s| == 16 && ValidQuad(q)
    ensures QuarterRound(w, QuarterRoundBack(w, s, q), q) == s
  {
    var s3 := Unmix(w, s, q.c, q.d, q.b, 7);
    var s2 := Unmix(w, s3, q.a, q.b, q.d, 8);
    var s1 := Unmix(w, s2, q.c, q.d, q.b, 12);
    MixInverts(w, s1, q.a, q.b, q.d, 16);
    MixInverts(w, s2, q.c, q.d, q.b, 12);
    MixInverts(w, s3, q.a, q.b, q.d, 8);
    MixInverts(w, s, q.c, q.d, q.b, 7);
  }

  /** A quarter round, forwards or backwards, as a total function. */
  function Forward<T>(w: Words<T>): (seq<T>, Quad) -> seq<T> {
    (s: seq<T>, q: Quad) => if |s| == 16 && ValidQuad(q) then QuarterRound(w, s, q) else s
  }

  function Backward<T>(w: Words<T>): (seq<T>, Quad) -> seq<T> {
    (s: seq<T>, q: Quad) => if |s| == 16 && ValidQuad(q) then QuarterRoundBack(w, s, q) else s
  }

  function Apply<T>(w: Words<T>, s: seq<T>, qs: seq<Quad>): seq<T> {
    Fold(Forward(w), s, qs)
  }

  function ApplyBack<T>(w: Words<T>, s: seq<T>, qs: seq<Quad>): seq<T> {
    FoldBack(Backward(w), s, qs)
  }

  function Fold<S, Q>(f: (S, Q) -> S, s: S, qs: seq<Q>): S
    decreases |qs|
  {
    if qs == [] then s else f(Fold(f, s, qs[..|qs| - 1]), qs[|qs| - 1])
  }

  function FoldBack<S, Q>(g: (S, Q) -> S, s: S, qs: seq<Q>): S
    decreases |qs|
  {
    if qs == [] then s else FoldBack(g, g(s, qs[|qs| - 1]), qs[..|qs| - 1])
  }

  ghost predicate Inverse<S, Q>(f: (S, Q) -> S, g: (S, Q) -> S, s: S, q: Q) {
    g(f(s, q), q) == s && f(g(s, q), q) == s
  }

  lemma {:induction false} FoldBijective<S(!new), Q(!new)>(f: (S, Q) -> S, g: (S, Q) -> S, s: S, qs: seq<Q>)
    requires forall t, q :: Inverse(f, g, t, q)
    ensures FoldBack(g, Fold(f, s, qs), qs) == s && Fold(f, FoldBack(g, s, qs), qs) == s
    decreases |qs|
  {
    if qs != [] {
      var front, last := qs[..|qs| - 1], qs[|qs| - 1];
      FoldBijective(f, g, s, front);
      assert Inverse(f, g, Fold(f, s, front), last);
      FoldBijective(f, g, g(s, last), front);
      assert Inverse(f, g, s, last);
    }
  }

  /** Running any quarter rounds forwards and then backwards, or the other way round, is the identity. */
  lemma ApplyBijective<T(!new)>(w: Words<T>, s: seq<T>, qs: seq<Quad>)
    requires IsArx(w)
    ensures ApplyBack(w, Apply(w, s, qs), qs) == s && Apply(w, ApplyBack(w, s, qs), qs) == s
  {
    forall t, q ensures Inverse(Forward(w), Backward(w), t, q) {
      if |t| == 16 && ValidQuad(q) {
        QuarterRoundUndone(w, t, q);
        QuarterRoundReached(w, t, q);
      }
    }
    FoldBijective(Forward(w), Backward(w), s, qs);
  }

  lemma {:induction false} FoldAppend<S, Q>(f: (S, Q) -> S, s: S, xs: seq<Q>, ys: seq<Q>)
    ensures Fold(f, s, xs + ys) == Fold(f, Fold(f, s, xs), ys)
    decreases |ys|
  {
    if ys == [] {
      assert xs + ys == xs;
    } else {
      var all := xs + ys;
      assert all[..|all| - 1] == xs + ys[..|ys| - 1];
      FoldAppend(f, s, xs, ys[..|ys| - 1]);
    }
  }

  /** Column rounds, then diagonal rounds. */
  const DOUBLE_ROUND: seq<Quad> := [
    Quad(0, 4, 8, 12), Quad(1, 5, 9, 13), Quad(2, 6, 10, 14), Quad(3, 7, 11, 15),
    Quad(0, 5, 10, 15), Quad(1, 6, 11, 12), Quad(2, 7, 8, 13), Quad(3, 4, 9, 14)]

  lemma DoubleRoundValid(k: nat)
    requires k < 8
    ensures ValidQuad(DOUBLE_ROUND[k])
  {}

  function DoubleRounds(n: nat): seq<Quad> {
    if n == 0 then [] else DoubleRounds(n - 1) + DOUBLE_ROUND
  }

  lemma ApplyStep<T>(w: Words<T>, s: seq<T>, qs: seq<Quad>, k: nat)
    requires k < |qs|
    ensures Apply(w, s, qs[..k + 1]) == Forward(w)(Apply(w, s, qs[..k]), qs[k])
  {
    assert qs[..k + 1][..k] == qs[..k];
  }
}

/** Words of 32 bits as integers: addition modulo 2^32, bitwise xor and or, rotation. */
module Words32 {
  import opened Basics

  type Word = x: int | 0 <= x < U32

  function AddWord(a: Word, b: Word): Word { (a + b) % U32 }

  function SubWord(a: Word, b: Word): Word { (a - b) % U32 }

  lemma AddSubInvert(a: Word, b: Word)
    ensures SubWord(AddWord(a, b), b) == a && AddWord(SubWord(a, b), b) == a
  {}

  // ---- bitwise operations ----

  function Pow2(k: nat): (r: nat)
    ensures r > 0
  {
    if k == 0 then 1 else 2 * Pow2(k - 1)
  }

  function Xor(a: nat, b: nat): nat
    decreases a + b
  {
    if a == 0 then b else if b == 0 then a else 2 * Xor(a / 2, b / 2) + (a % 2 + b % 2) % 2
  }

  function Or(a: nat, b: nat): nat
    decreases a + b
  {
    if a == 0 then b else if b == 0 then a
    else 2 * Or(a / 2, b / 2) + (if a % 2 == 1 || b % 2 == 1 then 1 else 0)
  }

  lemma {:induction false} XorHalves(a: nat, b: nat)
    ensures Xor(a, b) / 2 == Xor(a / 2, b / 2) && Xor(a, b) % 2 == (a % 2 + b % 2) % 2
  {}

  lemma {:induction false} XorBound(a: nat, b: nat, k: nat)
    requires a < Pow2(k) && b < Pow2(k)
    ensures Xor(a, b) < Pow2(k)
  {
    if k > 0 {
      XorBound(a / 2, b / 2, k - 1);
      XorHalves(a, b);
    }
  }

  lemma {:induction false} XorCancels(a: nat, b: nat)
    ensures Xor(Xor(a, b), b) == a
    decreases a + b
  {
    if a > 0 || b > 0 {
      var x := Xor(a, b);
      XorCancels(a / 2, b / 2);
      XorHalves(a, b);
      XorHalves(x, b);
      BitTwice(a % 2, b % 2);
      SameHalves(Xor(x, b), a);
    }
  }

  lemma BitTwice(p: nat, q: nat)
    requires p < 2 && q < 2
    ensures ((p + q) % 2 + q) % 2 == p
  {}

  lemma SameHalves(a: nat, b: nat)
    requires a / 2 == b / 2 && a % 2 == b % 2
    ensures a == b
  {}

  function ShiftLeft(v: nat, n: nat): nat {
    if n == 0 then v else 2 * ShiftLeft(v, n - 1)
  }

  function ShiftRight(v: nat, n: nat): nat {
    if n == 0 then v else ShiftRight(v, n - 1) / 2
  }

  /** Or-ing into zeroed low bits is addition. */
  lemma {:induction false} DisjointOr(x: nat, y: nat, k: nat)
    requires y < Pow2(k)
    ensures Or(ShiftLeft(x, k), y) == ShiftLeft(x, k) + y
  {
    if k > 0 {
      DisjointOr(x, y / 2, k - 1);
    }
  }

  lemma {:induction false} ShiftLeftMultiplies(v: nat, n: nat)
    ensures ShiftLeft(v, n) == v * Pow2(n)
  {
    if n > 0 {
      ShiftLeftMultiplies(v, n - 1);
      assert 2 * (v * Pow2(n - 1)) == v * (2 * Pow2(n - 1));
    }
  }

  lemma {:induction false} ShiftRightDivides(v: nat, n: nat)
    ensures ShiftRight(v, n) == v / Pow2(n)
  {
    if n > 0 {
      ShiftRightDivides(v, n - 1);
      HalfOfQuotient(v, Pow2(n - 1));
    }
  }

  lemma HalfOfQuotient(v: nat, p: nat)
    requires p > 0
    ensures (v / p) / 2 == v / (2 * p)
  {
    var a, r := v / p, v % p;
    var b, s := a / 2, a % 2;
    assert v == p * a + r && a == 2 * b + s;
    assert p * a == b * (2 * p) + p * s;
    assert 0 <= p * s + r < 2 * p by {
      assert s == 0 || s == 1;
    }
    DivMod(b, 2 * p, p * s + r);
  }

  lemma PowersOfTwo()
    ensures Pow2(7) == 128 && Pow2(8) == 256 && Pow2(12) == 4096 && Pow2(16) == 65536
    ensures Pow2(20) == 1048576 && Pow2(24) == 16777216 && Pow2(25) == 33554432 && Pow2(32) == U32
  {
    Pow2Step(7); Pow2Step(8); Pow2Step(12); Pow2Step(16); Pow2Step(20); Pow2Step(24); Pow2Step(28);
    assert Pow2(3) == 8;
    Pow2Step(3);
    assert Pow2(7) == 128;
    assert Pow2(25) == 2 * Pow2(24);
  }

  lemma Pow2Step(k: nat)
    ensures Pow2(k + 4) == 16 * Pow2(k)
  {
    assert Pow2(k + 2) == 2 * Pow2(k + 1);
    assert Pow2(k + 4) == 2 * Pow2(k + 3);
  }

  function XorWord(a: Word, b: Word): Word {
    PowersOfTwo();
    XorBound(a, b, 32);
    Xor(a, b)
  }

  // ---- rotation ----

  /** The word with its top and bottom parts exchanged, where p * q = 2^32 and the top part is below p. */
  function Swap(a: Word, p: nat, q: nat): Word
    requires p > 0 && q > 0 && p * q == U32
  {
    SwapFits(a, p, q);
    (a % q) * p + a / q
  }

  lemma MulCancelLess(k: int, x: int, y: int)
    requires k > 0 && k * x < k * y
    ensures x < y
  {}

  lemma MulMonotone(x: int, y: int, k: int)
    requires x <= y && k >= 0
    ensures x * k <= y * k
  {}

  lemma SwapFits(a: Word, p: nat, q: nat)
    requires p > 0 && q > 0 && p * q == U32
    ensures 0 <= a / q < p && 0 <= a % q < q && 0 <= (a % q) * p + a / q < U32
  {
    var hi, lo := a / q, a % q;
    assert q * hi <= a < q * p;
    MulCancelLess(q, hi, p);
    MulMonotone(lo, q - 1, p);
    assert (q - 1) * p == U32 - p;
  }

  lemma SwapInverts(a: Word, p: nat, q: nat)
    requires p > 0 && q > 0 && p * q == U32
    ensures Swap(Swap(a, p, q), q, p) == a
  {
    var hi, lo := a / q, a % q;
    SwapFits(a, p, q);
    DivMod(lo, p, hi);
  }

  lemma DivMod(x: nat, p: nat, r: nat)
    requires r < p
    ensures (x * p + r) / p == x && (x * p + r) % p == r
  {
    var n := x * p + r;
    var d := n / p - x;
    assert n == p * (n / p) + n % p;
    assert p * d == r - n % p;
    MulCancelLess(p, d, 1);
    MulCancelLess(p, -1, d);
  }

  /** 2^n for the rotation amounts of a quarter round, and its cofactor in 2^32. */
  function Power(n: nat): nat {
    if n == 16 then 65536 else if n == 12 then 4096 else if n == 8 then 256 else 128
  }

  function Cofactor(n: nat): nat {
    if n == 16 then 65536 else if n == 12 then 1048576 else if n == 8 then 16777216 else 33554432
  }

  lemma PowerTimesCofactor(n: nat)
    ensures Power(n) * Cofactor(n) == U32
  {}

  function LeftBy(n: nat): Word -> Word {
    PowerTimesCofactor(n);
    (a: Word) => Swap(a, Power(n), Cofactor(n))
  }

  function RightBy(n: nat): Word -> Word {
    PowerTimesCofactor(n);
    (a: Word) => Swap(a, Cofactor(n), Power(n))
  }

  lemma RotationsInvert(a: Word, n: nat)
    ensures RightBy(n)(LeftBy(n)(a)) == a && LeftBy(n)(RightBy(n)(a)) == a
  {
    PowerTimesCofactor(n);
    SwapInverts(a, Power(n), Cofactor(n));
    SwapInverts(a, Cofactor(n), Power(n));
  }

  // ---- what the operations do to the bits ----

  /** Bit k, the lowest one being bit 0. */
  function Bit(v: nat, k: nat): nat {
    if k == 0 then v % 2 else Bit(v / 2, k - 1)
  }

  /** Each bit of an exclusive or is the sum of the two bits modulo two. */
  lemma {:induction false} XorBits(a: nat, b: nat, k: nat)
    ensures Bit(Xor(a, b), k) == (Bit(a, k) + Bit(b, k)) % 2
  {
    XorHalves(a, b);
    if k > 0 {
      XorBits(a / 2, b / 2, k - 1);
    }
  }

  /** Sums lose the carry out of 32 bits, exclusive or works on single bits, and rotation by n puts the top n bits
      at the bottom. */
  lemma WordOperations(a: Word, b: Word, k: nat, n: nat)
    requires n in {7, 8, 12, 16}
    ensures AddWord(a, b) == if a + b < 0x1_0000_0000 then a + b else a + b - 0x1_0000_0000
    ensures Bit(XorWord(a, b), k) == (Bit(a, k) + Bit(b, k)) % 2
    ensures LeftBy(n)(a) == a % Pow2(32 - n) * Pow2(n) + a / Pow2(32 - n)
  {
    XorBits(a, b, k);
    PowersOfTwo();
  }

  // ---- the masked-integer forms of the source ----

  /** ((v << n) | (v >> (32 - n))) & 0xFFFFFFFF on unbounded integers. */
  function Rotl32(v: Word, n: nat): int
    requires n <= 32
  {
    Or(ShiftLeft(v, n), ShiftRight(v, 32 - n)) % U32
  }

  /** It is the rotation of the 32-bit word. */
  lemma Rotl32IsRotation(v: Word, n: nat)
    requires n in {7, 8, 12, 16}
    ensures Rotl32(v, n) == LeftBy(n)(v)
  {
    var p, q := Power(n), Cofactor(n);
    PowersOfTwo();
    PowerTimesCofactor(n);
    SwapFits(v, p, q);
    assert Pow2(n) == p && Pow2(32 - n) == q;
    ShiftLeftMultiplies(v, n);
    ShiftRightDivides(v, 32 - n);
    DisjointOr(v, ShiftRight(v, 32 - n), n);
    MaskedShift(v, p, q);
  }

  lemma MaskedShift(v: Word, p: nat, q: nat)
    requires p > 0 && q > 0 && p * q == U32
    ensures (v * p + v / q) % U32 == Swap(v, p, q)
  {
    var hi, lo := v / q, v % q;
    SwapFits(v, p, q);
    assert v == hi * q + lo;
    assert v * p == hi * (p * q) + lo * p;
    DivMod(hi, U32, lo * p + hi);
  }
}

/** HChaCha20  (services/xchacha20_poly1305.py, section 2.2 of draft-irtf-cfrg-xchacha). */
module HChaCha20 {
  import opened Basics
  import opened QuarterRounds
  import opened Words32

  const WORDS: Words<Word> := Words(AddWord, SubWord, XorWord, LeftBy, RightBy)

  lemma WordLaws(a: Word, b: Word, n: nat)
    ensures Laws(WORDS, a, b, n)
  {
    AddSubInvert(a, b);
    XorCancels(a, b);
    RotationsInvert(a, n);
  }

  lemma WordsAreArx()
    ensures IsArx(WORDS)
  {
    forall a, b, n ensures Laws(WORDS, a, b, n) {
      WordLaws(a, b, n);
    }
  }

  /** The quarter round as the source writes it: sums masked to 32 bits, rotations by shift, or and
      mask, on a list of integers. Every entry stays a 32-bit word and the result is the quarter round
      of section 2.1 of RFC 8439. */
  method MaskedQuarterRound(state: array<Word>, q: Quad)
    requires state.Length == 16 && ValidQuad(q)
    modifies state
    ensures state[..] == QuarterRound(WORDS, old(state[..]), q)
  {
    MaskedMix(state, q.a, q.b, q.d, 16);
    MaskedMix(state, q.c, q.d, q.b, 12);
    MaskedMix(state, q.a, q.b, q.d, 8);
    MaskedMix(state, q.c, q.d, q.b, 7);
  }

  method MaskedMix(state: array<Word>, x: nat, y: nat, z: nat, n: nat)
    requires x < state.Length && y < state.Length && z < state.Length && n in {7, 8, 12, 16}
    modifies state
    ensures state[..] == Mix(WORDS, old(state[..]), x, y, z, n)
  {
    ghost var s1 := state[..][x := AddWord(state[x], state[y])];
    state[x] := (state[x] + state[y]) % U32;
    assert state[..] == s1;
    state[z] := XorWord(state[z], state[x]);
    Rotl32IsRotation(state[z], n);
    state[z] := Rotl32(state[z], n);
    assert state[..] == s1[z := LeftBy(n)(XorWord(s1[z], s1[x]))];
  }

  method RoundInPlace(state: array<Word>, q: Quad)
    requires state.Length == 16 && ValidQuad(q)
    modifies state
    ensures state[..] == Forward(WORDS)(old(state[..]), q)
  {
    MaskedQuarterRound(state, q);
  }

  method DoubleRoundInPlace(state: array<Word>)
    requires state.Length == 16
    modifies state
    ensures state[..] == Apply(WORDS, old(state[..]), DOUBLE_ROUND)
  {
    for k := 0 to 8
      invariant state[..] == Apply(WORDS, old(state[..]), DOUBLE_ROUND[..k])
    {
      ApplyStep(WORDS, old(state[..]), DOUBLE_ROUND, k);
      DoubleRoundValid(k);
      RoundInPlace(state, DOUBLE_ROUND[k]);
    }
    assert DOUBLE_ROUND[..8] == DOUBLE_ROUND;
  }

  /** Ten double rounds in place. */
  method TwentyRounds(state: array<Word>)
    requires state.Length == 16
    modifies state
    ensures state[..] == Apply(WORDS, old(state[..]), DoubleRounds(10))
  {
    for r := 0 to 10
      invariant state[..] == Apply(WORDS, old(state[..]), DoubleRounds(r))
    {
      FoldAppend(Forward(WORDS), old(state[..]), DoubleRounds(r), DOUBLE_ROUND);
      DoubleRoundInPlace(state);
    }
  }

  lemma {:induction false} ApplySize(s: seq<Word>, qs: seq<Quad>)
    requires |s| == 16
    ensures |Apply(WORDS, s, qs)| == 16
    decreases |qs|
  {
    if qs != [] {
      ApplySize(s, qs[..|qs| - 1]);
    }
  }

  /** The twenty-round core is a bijection on 16-word states, with `ApplyBack` as its inverse. */
  lemma CoreIsBijection(s: seq<Word>)
    ensures ApplyBack(WORDS, Apply(WORDS, s, DoubleRounds(10)), DoubleRounds(10)) == s
    ensures Apply(WORDS, ApplyBack(WORDS, s, DoubleRounds(10)), DoubleRounds(10)) == s
  {
    WordsAreArx();
    ApplyBijective(WORDS, s, DoubleRounds(10));
  }

  /** A quarter round written out as in section 2.1 of RFC 8439. */
  lemma QuarterRoundIsRfc8439(s: seq<Word>, q: Quad)
    requires |s| == 16 && ValidQuad(q)
    ensures
      var a1 := AddWord(s[q.a], s[q.b]);
      var d1 := LeftBy(16)(XorWord(s[q.d], a1));
      var c1 := AddWord(s[q.c], d1);
      var b1 := LeftBy(12)(XorWord(s[q.b], c1));
      var a2 := AddWord(a1, b1);
      var d2 := LeftBy(8)(XorWord(d1, a2));
      var c2 := AddWord(c1, d2);
      var b2 := LeftBy(7)(XorWord(b1, c2));
      QuarterRound(WORDS, s, q) == s[q.a := a2][q.b := b2][q.c := c2][q.d := d2]
  {}

  /** The k-th quarter round: four on the columns of the 4 by 4 state, four on its diagonals, and so on. */
  function QuadAt(k: nat): Quad {
    var i := k % 4;
    if k / 4 % 2 == 0 then Quad(i, 4 + i, 8 + i, 12 + i)
    else Quad(i, 4 + (i + 1) % 4, 8 + (i + 2) % 4, 12 + (i + 3) % 4)
  }

  /** k quarter rounds, one after the other. */
  function Rounds(s: seq<Word>, k: nat): (t: seq<Word>)
    requires |s| == 16
    ensures |t| == 16
  {
    if k == 0 then s else QuarterRound(WORDS, Rounds(s, k - 1), QuadAt(k - 1))
  }

  lemma DoubleRoundQuads(k: nat)
    ensures DOUBLE_ROUND[k % 8] == QuadAt(k)
  {
    var r := k % 8;
    assert k % 4 == r % 4 && k / 4 % 2 == r / 4;
  }

  lemma {:induction false} QuadsInOrder(n: nat, k: nat)
    requires k < 8 * n
    ensures |DoubleRounds(n)| == 8 * n && DoubleRounds(n)[k] == QuadAt(k)
  {
    if n > 1 {
      QuadsInOrder(n - 1, if k < 8 * (n - 1) then k else 0);
    } else {
      assert DoubleRounds(0) == [] && DoubleRounds(1) == DOUBLE_ROUND;
    }
    if k >= 8 * (n - 1) {
      LastDoubleRound(n, k);
    }
  }

  lemma LastDoubleRound(n: nat, k: nat)
    requires 0 < n && 8 * (n - 1) <= k < 8 * n && |DoubleRounds(n - 1)| == 8 * (n - 1)
    ensures DoubleRounds(n)[k] == QuadAt(k)
  {
    DoubleRoundQuads(k);
    assert k % 8 == k - 8 * (n - 1);
  }

  /** The core is eighty quarter rounds. */
  lemma {:induction false} CoreIsRounds(s: seq<Word>, k: nat)
    requires |s| == 16 && k <= 80
    ensures |DoubleRounds(10)| == 80 && Apply(WORDS, s, DoubleRounds(10)[..k]) == Rounds(s, k)
  {
    QuadsInOrder(10, 0);
    if k > 0 {
      CoreIsRounds(s, k - 1);
      QuadsInOrder(10, k - 1);
      ApplyStep(WORDS, s, DoubleRounds(10), k - 1);
    }
  }

  const CONSTANTS: seq<Word> := [0x61707865, 0x3320646E, 0x79622D32, 0x6B206574]

  /** The subkey words for a key of eight words and a nonce of four: the first and last four words of
      the core's output. */
  method Block(key: seq<Word>, nonce: seq<Word>) returns (subkey: seq<Word>)
    requires |key| == 8 && |nonce| == 4
    ensures var out := Apply(WORDS, CONSTANTS + key + nonce, DoubleRounds(10));
      |out| == 16 && subkey == out[0..4] + out[12..16]
  {
    var start := CONSTANTS + key + nonce;
    var state := new Word[16](i requires 0 <= i < 16 => start[i]);
    assert state[..] == start;
    TwentyRounds(state);
    subkey := state[0..4] + state[12..16];
  }
}
