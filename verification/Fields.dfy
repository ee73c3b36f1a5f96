/** Polynomials and Lagrange interpolation over an arbitrary field of characteristic two.

    The field is a value, so nothing here depends on how its elements are represented. */
module Fields {

  /** The operations of a field. In characteristic two, subtraction is `add`. */
  datatype Field<!T> = Field(zero: T, one: T, add: (T, T) -> T, mul: (T, T) -> T, inv: T -> T)

  /** Every field law for one triple of elements. */
  ghost predicate Laws<T>(f: Field<T>, a: T, b: T, c: T) {
    && f.add(a, b) == f.add(b, a)
    && f.add(f.add(a, b), c) == f.add(a, f.add(b, c))
    && f.add(a, f.zero) == a
    && f.add(a, a) == f.zero
    && f.mul(a, b) == f.mul(b, a)
    && f.mul(f.mul(a, b), c) == f.mul(a, f.mul(b, c))
    && f.mul(a, f.one) == a
    && f.mul(a, f.zero) == f.zero
    && f.mul(a, f.add(b, c)) == f.add(f.mul(a, b), f.mul(a, c))
    && (a != f.zero ==> f.mul(a, f.inv(a)) == f.one)
    && f.one != f.zero
  }

  ghost predicate IsField<T(!new)>(f: Field<T>) {
    forall a, b, c :: Laws(f, a, b, c)
  }

  // ---- element-level consequences ----

  lemma NoZeroDivisors<T(!new)>(f: Field<T>, a: T, b: T)
    requires IsField(f) && a != f.zero && b != f.zero
    ensures f.mul(a, b) != f.zero
  {
    assert Laws(f, a, b, f.inv(b));
    assert Laws(f, f.zero, f.inv(b), a) && Laws(f, f.inv(b), a, a) && Laws(f, b, a, a);
  }

  /** a + b is zero exactly when a and b coincide. */
  lemma AddIsZero<T(!new)>(f: Field<T>, a: T, b: T)
    requires IsField(f)
    ensures f.add(a, b) == f.zero <==> a == b
  {
    assert Laws(f, a, b, b) && Laws(f, b, b, b) && Laws(f, f.zero, b, b);
  }

  /** Adding the same element twice changes nothing. */
  lemma AddCancels<T(!new)>(f: Field<T>, a: T, b: T)
    requires IsField(f)
    ensures f.add(f.add(a, b), b) == a
  {
    assert Laws(f, a, b, b) && Laws(f, b, b, b);
  }

  lemma AddInterchange<T(!new)>(f: Field<T>, a: T, b: T, c: T, d: T)
    requires IsField(f)
    ensures f.add(f.add(a, b), f.add(c, d)) == f.add(f.add(a, c), f.add(b, d))
  {
    assert Laws(f, a, b, f.add(c, d)) && Laws(f, b, c, d) && Laws(f, c, b, d);
    assert Laws(f, a, c, f.add(b, d));
  }

  // ---- polynomials: coefficient lists, constant term first ----

  /** Horner form of the polynomial's value. */
  function Eval<T>(f: Field<T>, p: seq<T>, x: T): T {
    if p == [] then f.zero else f.add(p[0], f.mul(x, Eval(f, p[1..], x)))
  }

  function Zeros<T>(f: Field<T>, n: nat): seq<T> {
    seq(n, _ => f.zero)
  }

  /** Coefficients of  prev + (X + r) * p . */
  function MulLinearFrom<T>(f: Field<T>, prev: T, p: seq<T>, r: T): (q: seq<T>)
    ensures |q| == |p| + 1
  {
    if p == [] then [prev] else [f.add(prev, f.mul(p[0], r))] + MulLinearFrom(f, p[0], p[1..], r)
  }

  function MulLinear<T>(f: Field<T>, p: seq<T>, r: T): (q: seq<T>)
    ensures |q| == |p| + 1
  {
    MulLinearFrom(f, f.zero, p, r)
  }

  lemma {:induction false} EvalMulLinearFrom<T(!new)>(f: Field<T>, prev: T, p: seq<T>, r: T, x: T)
    requires IsField(f)
    ensures Eval(f, MulLinearFrom(f, prev, p, r), x) == f.add(prev, f.mul(f.add(x, r), Eval(f, p, x)))
  {
    if p == [] {
      assert Laws(f, x, prev, prev) && Laws(f, f.add(x, r), prev, prev);
    } else {
      var c, e := p[0], Eval(f, p[1..], x);
      var s := f.add(x, r);
      EvalMulLinearFrom(f, c, p[1..], r, x);
      calc {
        Eval(f, MulLinearFrom(f, prev, p, r), x);
        f.add(f.add(prev, f.mul(c, r)), f.mul(x, f.add(c, f.mul(s, e))));
        { assert Laws(f, x, c, f.mul(s, e)); }
        f.add(f.add(prev, f.mul(c, r)), f.add(f.mul(x, c), f.mul(x, f.mul(s, e))));
        { LinearStep(f, prev, c, r, x, f.mul(x, f.mul(s, e))); }
        f.add(prev, f.add(f.mul(s, c), f.mul(x, f.mul(s, e))));
        { assert Laws(f, x, s, e) && Laws(f, s, x, e); }
        f.add(prev, f.add(f.mul(s, c), f.mul(s, f.mul(x, e))));
        { assert Laws(f, s, c, f.mul(x, e)); }
        f.add(prev, f.mul(s, f.add(c, f.mul(x, e))));
      }
    }
  }

  lemma LinearStep<T(!new)>(f: Field<T>, prev: T, c: T, r: T, x: T, z: T)
    requires IsField(f)
    ensures f.add(f.add(prev, f.mul(c, r)), f.add(f.mul(x, c), z))
         == f.add(prev, f.add(f.mul(f.add(x, r), c), z))
  {
    var cr, xc := f.mul(c, r), f.mul(x, c);
    assert Laws(f, prev, cr, f.add(xc, z)) && Laws(f, cr, xc, z);
    assert Laws(f, c, x, r) && Laws(f, c, f.add(x, r), x) && Laws(f, x, c, c);
    assert Laws(f, cr, xc, c);
  }

  /** (X + r) * p takes the value (x + r) * p(x). */
  lemma EvalMulLinear<T(!new)>(f: Field<T>, p: seq<T>, r: T, x: T)
    requires IsField(f)
    ensures Eval(f, MulLinear(f, p, r), x) == f.mul(f.add(x, r), Eval(f, p, x))
  {
    EvalMulLinearFrom(f, f.zero, p, r, x);
    var v := f.mul(f.add(x, r), Eval(f, p, x));
    assert Laws(f, f.zero, v, v) && Laws(f, v, v, v);
  }

  // ---- the factor theorem ----

  /** Synthetic division by X + r: the quotient's coefficients. */
  function Divide<T>(f: Field<T>, p: seq<T>, r: T): (q: seq<T>)
    requires p != []
    ensures |q| == |p| - 1
  {
    if |p| == 1 then [] else [Eval(f, p[1..], r)] + Divide(f, p[1..], r)
  }

  lemma {:induction false} DivideRestores<T(!new)>(f: Field<T>, p: seq<T>, r: T)
    requires IsField(f) && p != []
    ensures MulLinearFrom(f, Eval(f, p, r), Divide(f, p, r), r) == p
  {
    var e := Eval(f, p[1..], r);
    assert Laws(f, r, e, e) && Laws(f, e, r, r);
    AddCancels(f, p[0], f.mul(r, e));
    if |p| == 1 {
      assert Laws(f, r, r, r) && Laws(f, p[0], r, r);
    } else {
      DivideRestores(f, p[1..], r);
      assert p == [p[0]] + p[1..];
    }
  }

  ghost predicate Distinct<T(!new)>(xs: seq<T>) {
    forall i, j :: 0 <= i < j < |xs| ==> xs[i] != xs[j]
  }

  ghost predicate Vanishes<T>(f: Field<T>, p: seq<T>, xs: seq<T>) {
    forall i :: 0 <= i < |xs| ==> Eval(f, p, xs[i]) == f.zero
  }

  lemma {:induction false} MulLinearZeros<T(!new)>(f: Field<T>, n: nat, r: T)
    requires IsField(f)
    ensures MulLinearFrom(f, f.zero, Zeros(f, n), r) == Zeros(f, n + 1)
  {
    if n > 0 {
      assert Laws(f, f.zero, r, r) && Laws(f, r, f.zero, r);
      assert Zeros(f, n)[1..] == Zeros(f, n - 1);
      MulLinearZeros(f, n - 1, r);
    }
  }

  /** A polynomial with at least as many distinct roots as coefficients is the zero polynomial. */
  lemma {:induction false} TooManyRoots<T(!new)>(f: Field<T>, p: seq<T>, xs: seq<T>)
    requires IsField(f) && Distinct(xs) && |p| <= |xs| && Vanishes(f, p, xs)
    ensures p == Zeros(f, |p|)
    decreases |p|
  {
    if p != [] {
      var r, q := xs[0], Divide(f, p, xs[0]);
      DivideRestores(f, p, r);
      assert p == MulLinear(f, q, r);
      forall i | 0 <= i < |xs| - 1
        ensures Eval(f, q, xs[1..][i]) == f.zero
      {
        var x := xs[i + 1];
        EvalMulLinear(f, q, r, x);
        AddIsZero(f, x, r);
        if Eval(f, q, x) != f.zero {
          NoZeroDivisors(f, f.add(x, r), Eval(f, q, x));
        }
      }
      TooManyRoots(f, q, xs[1..]);
      MulLinearZeros(f, |q|, r);
    }
  }

  // ---- sums and multiples of polynomials ----

  function PolyAdd<T>(f: Field<T>, p: seq<T>, q: seq<T>): (s: seq<T>)
    requires |p| == |q|
    ensures |s| == |p|
  {
    seq(|p|, i requires 0 <= i < |p| => f.add(p[i], q[i]))
  }

  function Scale<T>(f: Field<T>, k: T, p: seq<T>): (s: seq<T>)
    ensures |s| == |p|
  {
    seq(|p|, i requires 0 <= i < |p| => f.mul(k, p[i]))
  }

  lemma {:induction false} EvalAdd<T(!new)>(f: Field<T>, p: seq<T>, q: seq<T>, x: T)
    requires IsField(f) && |p| == |q|
    ensures Eval(f, PolyAdd(f, p, q), x) == f.add(Eval(f, p, x), Eval(f, q, x))
  {
    if p == [] {
      assert Laws(f, f.zero, x, x);
    } else {
      var e, g := Eval(f, p[1..], x), Eval(f, q[1..], x);
      assert PolyAdd(f, p, q)[1..] == PolyAdd(f, p[1..], q[1..]);
      EvalAdd(f, p[1..], q[1..], x);
      assert Laws(f, x, e, g);
      AddInterchange(f, p[0], q[0], f.mul(x, e), f.mul(x, g));
    }
  }

  lemma {:induction false} EvalScale<T(!new)>(f: Field<T>, k: T, p: seq<T>, x: T)
    requires IsField(f)
    ensures Eval(f, Scale(f, k, p), x) == f.mul(k, Eval(f, p, x))
  {
    if p == [] {
      assert Laws(f, k, x, x);
    } else {
      var e := Eval(f, p[1..], x);
      assert Scale(f, k, p)[1..] == Scale(f, k, p[1..]);
      EvalScale(f, k, p[1..], x);
      assert Laws(f, x, k, e) && Laws(f, k, x, e) && Laws(f, k, p[0], f.mul(x, e));
    }
  }

  lemma {:induction false} EvalZeros<T(!new)>(f: Field<T>, n: nat, x: T)
    requires IsField(f)
    ensures Eval(f, Zeros(f, n), x) == f.zero
  {
    if n > 0 {
      assert Zeros(f, n)[1..] == Zeros(f, n - 1);
      EvalZeros(f, n - 1, x);
      assert Laws(f, x, x, x) && Laws(f, f.zero, x, x);
    }
  }

  /** Trailing zero coefficients do not change the value. */
  lemma {:induction false} EvalPadded<T(!new)>(f: Field<T>, p: seq<T>, n: nat, x: T)
    requires IsField(f)
    ensures Eval(f, p + Zeros(f, n), x) == Eval(f, p, x)
  {
    if p == [] {
      EvalZeros(f, n, x);
      assert p + Zeros(f, n) == Zeros(f, n);
    } else {
      assert (p + Zeros(f, n))[1..] == p[1..] + Zeros(f, n);
      EvalPadded(f, p[1..], n, x);
    }
  }

  /** Two polynomials of the same length that agree on that many distinct points are the same. */
  lemma AgreeingPolynomialsEqual<T(!new)>(f: Field<T>, p: seq<T>, q: seq<T>, xs: seq<T>)
    requires IsField(f) && Distinct(xs) && |p| == |q| <= |xs|
    requires forall i :: 0 <= i < |xs| ==> Eval(f, p, xs[i]) == Eval(f, q, xs[i])
    ensures p == q
  {
    var d := PolyAdd(f, p, q);
    forall i | 0 <= i < |xs| ensures Eval(f, d, xs[i]) == f.zero {
      EvalAdd(f, p, q, xs[i]);
      AddIsZero(f, Eval(f, p, xs[i]), Eval(f, q, xs[i]));
    }
    TooManyRoots(f, d, xs);
    forall i | 0 <= i < |p| ensures p[i] == q[i] {
      assert d[i] == f.zero;
      AddIsZero(f, p[i], q[i]);
    }
  }
}
