/** Lagrange interpolation over a field of characteristic two: the closed form of the basis
    values, exact recovery of a polynomial's values, and the interpolating polynomial. */
module Lagrange {
  import opened Fields

  /** The first `m` points with point `i` left out, in their original order. */
  function Others<T>(xs: seq<T>, i: nat, m: nat): (ys: seq<T>)
    requires m <= |xs|
    ensures |ys| == if i < m then m - 1 else m
  {
    if m == 0 then [] else if m - 1 == i then Others(xs, i, m - 1) else Others(xs, i, m - 1) + [xs[m - 1]]
  }

  /** The product of x + y over all y in ys. */
  function RootProduct<T>(f: Field<T>, ys: seq<T>, x: T): T {
    if ys == [] then f.one
    else f.mul(RootProduct(f, ys[..|ys| - 1], x), f.add(x, ys[|ys| - 1]))
  }

  /** The coefficients of the product of X + y over all y in ys. */
  function RootPolynomial<T>(f: Field<T>, ys: seq<T>): (p: seq<T>)
    ensures |p| == |ys| + 1
  {
    if ys == [] then [f.one]
    else MulLinear(f, RootPolynomial(f, ys[..|ys| - 1]), ys[|ys| - 1])
  }

  /** The i-th Lagrange basis value at x: prod (x + xj) / prod (xi + xj) over j != i. */
  function Basis<T>(f: Field<T>, xs: seq<T>, i: nat, x: T): T
    requires i < |xs|
  {
    var ys := Others(xs, i, |xs|);
    f.mul(RootProduct(f, ys, x), f.inv(RootProduct(f, ys, xs[i])))
  }

  /** All basis values at x, one per point. */
  function BasisRow<T>(f: Field<T>, xs: seq<T>, x: T): (row: seq<T>)
    ensures |row| == |xs|
  {
    seq(|xs|, i requires 0 <= i < |xs| => Basis(f, xs, i, x))
  }

  /** The sum of v[i] * c[i], accumulated from the left. */
  function Dot<T>(f: Field<T>, v: seq<T>, c: seq<T>): T
    requires |v| == |c|
  {
    if v == [] then f.zero
    else f.add(Dot(f, v[..|v| - 1], c[..|v| - 1]), f.mul(v[|v| - 1], c[|v| - 1]))
  }

  // ---- products of linear factors ----

  /** Meeting one more point j != i multiplies the numerator and the denominator once. */
  lemma OthersStep<T>(f: Field<T>, xs: seq<T>, i: nat, j: nat, x: T)
    requires i < |xs| && j < |xs| && i != j
    ensures RootPolynomial(f, Others(xs, i, j + 1)) == MulLinear(f, RootPolynomial(f, Others(xs, i, j)), xs[j])
    ensures RootProduct(f, Others(xs, i, j + 1), x) == f.mul(RootProduct(f, Others(xs, i, j), x), f.add(x, xs[j]))
  {
    var ys := Others(xs, i, j + 1);
    assert ys == Others(xs, i, j) + [xs[j]];
    assert ys[..|ys| - 1] == Others(xs, i, j);
  }

  lemma OthersSkip<T>(xs: seq<T>, i: nat)
    requires i < |xs|
    ensures Others(xs, i, i + 1) == Others(xs, i, i)
  {}

  /** Expanding the coefficients and evaluating gives the product of the factors. */
  lemma {:induction false} EvalRootPolynomial<T(!new)>(f: Field<T>, ys: seq<T>, x: T)
    requires IsField(f)
    ensures Eval(f, RootPolynomial(f, ys), x) == RootProduct(f, ys, x)
  {
    if ys == [] {
      assert Laws(f, x, x, x) && Laws(f, f.one, x, x);
    } else {
      var front, last := ys[..|ys| - 1], ys[|ys| - 1];
      EvalRootPolynomial(f, front, x);
      EvalMulLinear(f, RootPolynomial(f, front), last, x);
      assert Laws(f, f.add(x, last), RootProduct(f, front, x), x);
    }
  }

  /** The product vanishes exactly at its own roots. */
  lemma {:induction false} RootProductZero<T(!new)>(f: Field<T>, ys: seq<T>, x: T)
    requires IsField(f)
    ensures RootProduct(f, ys, x) == f.zero <==> x in ys
  {
    if ys == [] {
      assert Laws(f, x, x, x);
    } else {
      var front, last := ys[..|ys| - 1], ys[|ys| - 1];
      var g, s := RootProduct(f, front, x), f.add(x, last);
      RootProductZero(f, front, x);
      AddIsZero(f, x, last);
      assert ys == front + [last];
      assert Laws(f, g, s, s) && Laws(f, s, g, g);
      if g != f.zero && s != f.zero {
        NoZeroDivisors(f, g, s);
      }
    }
  }

  lemma {:induction false} OthersMembers<T(!new)>(xs: seq<T>, i: nat, m: nat, y: T)
    requires m <= |xs|
    ensures y in Others(xs, i, m) <==> exists j :: 0 <= j < m && j != i && xs[j] == y
  {
    if m > 0 {
      OthersMembers(xs, i, m - 1, y);
    }
  }

  /** Point i's denominator vanishes exactly when its coordinate is repeated. */
  lemma DenominatorZero<T(!new)>(f: Field<T>, xs: seq<T>, i: nat)
    requires IsField(f) && i < |xs|
    ensures RootProduct(f, Others(xs, i, |xs|), xs[i]) == f.zero
       <==> exists j :: 0 <= j < |xs| && j != i && xs[j] == xs[i]
  {
    RootProductZero(f, Others(xs, i, |xs|), xs[i]);
    OthersMembers(xs, i, |xs|, xs[i]);
  }

  /** On the points themselves the basis is the identity matrix. */
  lemma BasisAtPoints<T(!new)>(f: Field<T>, xs: seq<T>, i: nat, k: nat)
    requires IsField(f) && Distinct(xs) && i < |xs| && k < |xs|
    ensures i == k ==> Basis(f, xs, i, xs[k]) == f.one
    ensures i != k ==> Basis(f, xs, i, xs[k]) == f.zero
  {
    var ys := Others(xs, i, |xs|);
    var d := RootProduct(f, ys, xs[i]);
    DenominatorZero(f, xs, i);
    assert Laws(f, d, d, d);
    if i != k {
      OthersMembers(xs, i, |xs|, xs[k]);
      RootProductZero(f, ys, xs[k]);
      assert Laws(f, f.inv(d), f.zero, d) && Laws(f, f.zero, f.inv(d), d);
    }
  }

  // ---- the interpolating polynomial ----

  /** Coefficients of v times the m-th basis polynomial. */
  function InterpolantTerm<T>(f: Field<T>, xs: seq<T>, v: T, m: nat): (p: seq<T>)
    requires m < |xs|
    ensures |p| == |xs|
  {
    var ys := Others(xs, m, |xs|);
    Scale(f, f.mul(v, f.inv(RootProduct(f, ys, xs[m]))), RootPolynomial(f, ys))
  }

  /** Coefficients of the sum of values[i] * Basis(i) over the first m points. */
  function Interpolant<T>(f: Field<T>, xs: seq<T>, values: seq<T>, m: nat): (p: seq<T>)
    requires |values| == |xs| && m <= |xs|
    ensures |p| == |xs|
  {
    if m == 0 then Zeros(f, |xs|)
    else PolyAdd(f, Interpolant(f, xs, values, m - 1), InterpolantTerm(f, xs, values[m - 1], m - 1))
  }

  /** The m-th scaled numerator takes the value values[m] * Basis(m). */
  lemma EvalInterpolantTerm<T(!new)>(f: Field<T>, xs: seq<T>, v: T, x: T, m: nat)
    requires IsField(f) && m < |xs|
    ensures Eval(f, InterpolantTerm(f, xs, v, m), x) == f.mul(v, Basis(f, xs, m, x))
  {
    var ys := Others(xs, m, |xs|);
    var n, d := RootProduct(f, ys, x), f.inv(RootProduct(f, ys, xs[m]));
    EvalScale(f, f.mul(v, d), RootPolynomial(f, ys), x);
    EvalRootPolynomial(f, ys, x);
    assert Laws(f, v, d, n) && Laws(f, d, n, n);
  }

  lemma DotStep<T(!new)>(f: Field<T>, v: seq<T>, c: seq<T>, m: nat)
    requires |v| == |c| && m < |v|
    ensures Dot(f, v[..m + 1], c[..m + 1]) == f.add(Dot(f, v[..m], c[..m]), f.mul(v[m], c[m]))
  {
    assert v[..m + 1][..m] == v[..m] && c[..m + 1][..m] == c[..m];
  }

  lemma {:induction false} EvalInterpolant<T(!new)>(f: Field<T>, xs: seq<T>, values: seq<T>, x: T, m: nat)
    requires IsField(f) && |values| == |xs| && m <= |xs|
    ensures Eval(f, Interpolant(f, xs, values, m), x) == Dot(f, values[..m], BasisRow(f, xs, x)[..m])
  {
    if m == 0 {
      EvalZeros(f, |xs|, x);
    } else {
      EvalInterpolant(f, xs, values, x, m - 1);
      EvalAdd(f, Interpolant(f, xs, values, m - 1), InterpolantTerm(f, xs, values[m - 1], m - 1), x);
      EvalInterpolantTerm(f, xs, values[m - 1], x, m - 1);
      DotStep(f, values, BasisRow(f, xs, x), m - 1);
    }
  }

  ghost predicate UnitRow<T>(f: Field<T>, c: seq<T>, k: nat) {
    forall i :: 0 <= i < |c| ==> (i == k ==> c[i] == f.one) && (i != k ==> c[i] == f.zero)
  }

  lemma {:induction false} DotUnitRow<T(!new)>(f: Field<T>, v: seq<T>, c: seq<T>, k: nat)
    requires IsField(f) && |v| == |c| && UnitRow(f, c, k)
    ensures k < |v| ==> Dot(f, v, c) == v[k]
    ensures k >= |v| ==> Dot(f, v, c) == f.zero
  {
    if v != [] {
      var n := |v| - 1;
      DotUnitRow(f, v[..n], c[..n], k);
      SelectTerm(f, Dot(f, v[..n], c[..n]), v[n]);
    }
  }

  /** Adding v * 0 keeps a sum; adding v * 1 to an empty sum gives v. */
  lemma SelectTerm<T(!new)>(f: Field<T>, sum: T, v: T)
    requires IsField(f)
    ensures f.add(sum, f.mul(v, f.zero)) == sum
    ensures f.add(f.zero, f.mul(v, f.one)) == v
  {
    assert Laws(f, v, v, v) && Laws(f, sum, v, v) && Laws(f, v, f.zero, v);
  }

  lemma BasisRowIsUnit<T(!new)>(f: Field<T>, xs: seq<T>, k: nat)
    requires IsField(f) && Distinct(xs) && k < |xs|
    ensures UnitRow(f, BasisRow(f, xs, xs[k]), k)
  {
    forall i | 0 <= i < |xs| ensures i == k ==> Basis(f, xs, i, xs[k]) == f.one
                             ensures i != k ==> Basis(f, xs, i, xs[k]) == f.zero
    {
      BasisAtPoints(f, xs, i, k);
    }
  }

  /** The interpolant passes through every given point. */
  lemma InterpolantThroughPoints<T(!new)>(f: Field<T>, xs: seq<T>, values: seq<T>, k: nat)
    requires IsField(f) && Distinct(xs) && |values| == |xs| && k < |xs|
    ensures Eval(f, Interpolant(f, xs, values, |xs|), xs[k]) == values[k]
  {
    var row := BasisRow(f, xs, xs[k]);
    EvalInterpolant(f, xs, values, xs[k], |xs|);
    BasisRowIsUnit(f, xs, k);
    DotUnitRow(f, values, row, k);
    assert values[..|xs|] == values && row[..|xs|] == row;
  }

  /** The values of a polynomial on at least as many distinct points as it has coefficients
      determine its value everywhere, through the Lagrange combination. */
  lemma Interpolation<T(!new)>(f: Field<T>, p: seq<T>, xs: seq<T>, values: seq<T>, x: T)
    requires IsField(f) && Distinct(xs) && |p| <= |xs| == |values|
    requires forall i :: 0 <= i < |xs| ==> values[i] == Eval(f, p, xs[i])
    ensures Dot(f, values, BasisRow(f, xs, x)) == Eval(f, p, x)
  {
    var q, n := Interpolant(f, xs, values, |xs|), |xs| - |p|;
    forall i | 0 <= i < |xs| ensures Eval(f, p + Zeros(f, n), xs[i]) == Eval(f, q, xs[i]) {
      EvalPadded(f, p, n, xs[i]);
      InterpolantThroughPoints(f, xs, values, i);
    }
    AgreeingPolynomialsEqual(f, p + Zeros(f, n), q, xs);
    EvalPadded(f, p, n, x);
    EvalInterpolant(f, xs, values, x, |xs|);
    assert values[..|xs|] == values && BasisRow(f, xs, x)[..|xs|] == BasisRow(f, xs, x);
  }

  /** Each coefficient of  prev + (X + r) * p . */
  lemma {:induction false} MulLinearAt<T>(f: Field<T>, prev: T, p: seq<T>, r: T, k: nat)
    requires k <= |p|
    ensures k == |p| == 0 ==> MulLinearFrom(f, prev, p, r)[k] == prev
    ensures k == |p| > 0 ==> MulLinearFrom(f, prev, p, r)[k] == p[k - 1]
    ensures k == 0 < |p| ==> MulLinearFrom(f, prev, p, r)[k] == f.add(prev, f.mul(p[0], r))
    ensures 0 < k < |p| ==> MulLinearFrom(f, prev, p, r)[k] == f.add(p[k - 1], f.mul(p[k], r))
  {
    if k > 0 {
      MulLinearAt(f, p[0], p[1..], r, k - 1);
    }
  }

  // ---- completing fewer points than coefficients ----

  lemma EvalAtZero<T(!new)>(f: Field<T>, p: seq<T>)
    requires IsField(f) && p != []
    ensures Eval(f, p, f.zero) == p[0]
  {
    var e := Eval(f, p[1..], f.zero);
    assert Laws(f, e, f.zero, e) && Laws(f, p[0], e, e) && Laws(f, f.zero, e, e);
  }

  /** The coefficients after the constant term s of the polynomial through the points (xs, ys). */
  function Completion<T>(f: Field<T>, xs: seq<T>, ys: seq<T>, s: T): (coins: seq<T>)
    requires |xs| == |ys|
    ensures |coins| == |xs|
  {
    Interpolant(f, [f.zero] + xs, [s] + ys, |xs| + 1)[1..]
  }

  lemma DistinctCons<T(!new)>(x: T, xs: seq<T>)
    requires Distinct(xs) && x !in xs
    ensures Distinct([x] + xs)
  {
    var zs := [x] + xs;
    forall i, j | 0 <= i < j < |zs| ensures zs[i] != zs[j] {
      assert zs[j] == xs[j - 1] && xs[j - 1] in xs;
    }
  }

  /** With the constant term in front, the completion is the interpolant through zero and the points. */
  lemma CompletionIsInterpolant<T(!new)>(f: Field<T>, xs: seq<T>, ys: seq<T>, s: T)
    requires IsField(f) && Distinct(xs) && f.zero !in xs && |xs| == |ys|
    ensures [s] + Completion(f, xs, ys, s) == Interpolant(f, [f.zero] + xs, [s] + ys, |xs| + 1)
  {
    var q := Interpolant(f, [f.zero] + xs, [s] + ys, |xs| + 1);
    DistinctCons(f.zero, xs);
    EvalAtZero(f, q);
    InterpolantThroughPoints(f, [f.zero] + xs, [s] + ys, 0);
    assert q == [q[0]] + q[1..];
  }

  lemma CompletionAt<T(!new)>(f: Field<T>, xs: seq<T>, ys: seq<T>, s: T, i: nat)
    requires IsField(f) && Distinct(xs) && f.zero !in xs && |xs| == |ys| && i < |xs|
    ensures Eval(f, [s] + Completion(f, xs, ys, s), xs[i]) == ys[i]
  {
    var zs, vs := [f.zero] + xs, [s] + ys;
    DistinctCons(f.zero, xs);
    CompletionIsInterpolant(f, xs, ys, s);
    InterpolantThroughPoints(f, zs, vs, i + 1);
    assert |zs| == |xs| + 1 && zs[i + 1] == xs[i] && vs[i + 1] == ys[i];
  }

  lemma CompletionExplains<T(!new)>(f: Field<T>, xs: seq<T>, ys: seq<T>, s: T)
    requires IsField(f) && Distinct(xs) && f.zero !in xs && |xs| == |ys|
    ensures forall i :: 0 <= i < |xs| ==> Eval(f, [s] + Completion(f, xs, ys, s), xs[i]) == ys[i]
  {
    forall i: nat | i < |xs| ensures Eval(f, [s] + Completion(f, xs, ys, s), xs[i]) == ys[i] {
      CompletionAt(f, xs, ys, s, i);
    }
  }

  /** No other coefficients explain the same points with the same constant term. */
  lemma CompletionUnique<T(!new)>(f: Field<T>, xs: seq<T>, ys: seq<T>, s: T, coins: seq<T>)
    requires IsField(f) && Distinct(xs) && f.zero !in xs && |xs| == |ys| == |coins|
    requires forall i :: 0 <= i < |xs| ==> Eval(f, [s] + coins, xs[i]) == ys[i]
    ensures coins == Completion(f, xs, ys, s)
  {
    var zs := [f.zero] + xs;
    var p, q := [s] + coins, [s] + Completion(f, xs, ys, s);
    CompletionExplains(f, xs, ys, s);
    EvalAtZero(f, p);
    EvalAtZero(f, q);
    forall k | 0 <= k < |zs| ensures Eval(f, p, zs[k]) == Eval(f, q, zs[k]) {
      assert k > 0 ==> zs[k] == xs[k - 1];
    }
    AgreeingPolynomialsEqual(f, p, q, zs);
    assert coins == p[1..] && Completion(f, xs, ys, s) == q[1..];
  }
}
