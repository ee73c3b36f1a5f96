/** Construction of the power and log tables  (services/shamir_service.py). */
module GFTables {
  import opened ByteShift
  import opened GF256

  // ---- table construction ----

  /** The shift-and-reduce loop fills the power table with the powers of 2, repeated after 255
      entries, and the log table with the discrete logarithms. */
  method BuildTables() returns (exp: array<bv8>, log: array<nat>)
    ensures exp.Length == 512 && log.Length == 256
    ensures forall i :: 0 <= i < 512 ==> exp[i] == ExpEntry(i)
    ensures forall a: bv8 :: log[a as int] == Log(a)
  {
    exp := new bv8[512](_ => 0);
    log := new nat[256](_ => 0);
    FillPowers(exp, log);
    assert forall k :: 0 <= k < 255 ==> exp[k] == exp[..][k];
    RepeatPrefix(exp, 255);
    forall i | 0 <= i < 512 ensures exp[i] == ExpEntry(i) {
      if i >= 510 {
        assert exp[i] == exp[i - 255] == exp[i - 510];
      }
    }
    forall a: bv8 ensures log[a as int] == Log(a) {
      LogFilledMeans(log[..], a);
    }
  }

  /** Continues the first `period` entries over the rest of the table. */
  method RepeatPrefix<T>(table: array<T>, period: nat)
    requires 0 < period <= table.Length
    modifies table
    ensures forall k :: 0 <= k < period ==> table[k] == old(table[k])
    ensures forall k :: period <= k < table.Length ==> table[k] == table[k - period]
  {
    for i := period to table.Length
      invariant forall k :: 0 <= k < period ==> table[k] == old(table[k])
      invariant forall k :: period <= k < i ==> table[k] == table[k - period]
    {
      table[i] := table[i - period];
    }
  }

  /** The log table holds k at slot 2^k for every k below n, and 0 at slot 0. */
  ghost predicate LogFilled(log: seq<nat>, n: nat) {
    |log| == 256 && log[0] == 0 && forall k :: 0 <= k < n ==> log[Exp(k) as int] == k
  }

  lemma LogFilledMeans(log: seq<nat>, a: bv8)
    requires LogFilled(log, 255)
    ensures log[a as int] == Log(a)
  {
    ByteRange(a);
    if a == 0 {
      LogOfZero(0);
    } else {
      ExpLogInverse(a, 0);
    }
  }

  lemma LogFilledStep(log: seq<nat>, n: nat)
    requires LogFilled(log, n) && n < 255
    ensures LogFilled(log[Exp(n) as int := n], n + 1)
  {
    LogSlotFree(n);
  }

  /** The power table holds 2^k at slot k for every k below n. */
  ghost predicate PowersFilled(exp: seq<bv8>, n: nat) {
    n <= |exp| && forall k :: 0 <= k < n ==> exp[k] == Exp(k)
  }

  method FillPowers(exp: array<bv8>, log: array<nat>)
    requires exp.Length == 512 && log.Length == 256 && log[0] == 0
    modifies exp, log
    ensures PowersFilled(exp[..], 255) && LogFilled(log[..], 255)
  {
    var x: bv16 := 1;
    for i := 0 to 255
      invariant x == Exp(i) as bv16
      invariant PowersFilled(exp[..], i)
      invariant LogFilled(log[..], i)
    {
      Narrow(Exp(i));
      StorePower(exp, log, x as bv8, i);
      x := NextPower(x, i);
    }
  }

  method StorePower(exp: array<bv8>, log: array<nat>, x: bv8, i: nat)
    requires exp.Length == 512 && i < 255 && x == Exp(i)
    requires PowersFilled(exp[..], i) && LogFilled(log[..], i)
    modifies exp, log
    ensures PowersFilled(exp[..], i + 1) && LogFilled(log[..], i + 1)
  {
    exp[i] := x;
    LogFilledStep(log[..], i);
    ByteRange(x);
    log[x as int] := i;
  }

  /** Shift left; on overflow out of the byte, reduce by 0x11D. */
  method NextPower(x: bv16, ghost i: nat) returns (y: bv16)
    requires x == Exp(i) as bv16
    ensures y == Exp(i + 1) as bv16
  {
    WideStepIsXTime(Exp(i));
    y := x << 1;
    if y & 0x100 != 0 {
      y := y ^ 0x11D;
    }
  }

  /** Slot 2^i of the log table differs from slot 0 and from every slot written before. */
  lemma LogSlotFree(i: nat)
    requires i < 255
    ensures Exp(i) as int != 0
    ensures forall k :: 0 <= k < i ==> Exp(k) as int != Exp(i) as int
  {
    PowerInRange(i);
    forall k | 0 <= k < i ensures Exp(k) as int != Exp(i) as int {
      PowersDiffer(k, i);
    }
  }

  lemma {:induction false} LogOfZero(i: nat)
    requires i <= 255
    ensures FindLog(0, i) == 0
    decreases 255 - i
  {
    if i < 255 {
      ExpNonzero(i);
      LogOfZero(i + 1);
    }
  }
}

/** The loops of services/shamir_service.py over coefficient lists, for any field of characteristic
    two: each is proved against the algebra it is meant to compute. */
module LagrangeLoops {
  import opened Fields
  import opened Lagrange

  datatype Coefficients<T> = Coefficients(values: seq<T>) | ZeroDivision

  /** Accumulates c * power while raising the power, and computes the polynomial's value. */
  method EvalPoly<T(!new)>(f: Field<T>, coeffs: seq<T>, x: T) returns (result: T)
    requires IsField(f)
    ensures result == Eval(f, coeffs, x)
  {
    result := f.zero;
    var power := f.one;
    assert Laws(f, Eval(f, coeffs, x), f.one, f.zero);
    assert Laws(f, Eval(f, coeffs, x), f.zero, f.zero);
    assert coeffs[0..] == coeffs;
    for k := 0 to |coeffs|
      invariant Eval(f, coeffs, x) == f.add(result, f.mul(power, Eval(f, coeffs[k..], x)))
    {
      StepSum(f, result, power, coeffs[k], x, Eval(f, coeffs[k + 1..], x));
      assert coeffs[k..][1..] == coeffs[k + 1..];
      result := f.add(result, f.mul(coeffs[k], power));
      power := f.mul(power, x);
    }
    assert Laws(f, power, result, f.zero) && Laws(f, result, f.zero, f.zero);
  }

  lemma StepSum<T(!new)>(f: Field<T>, r: T, p: T, c: T, x: T, e: T)
    requires IsField(f)
    ensures f.add(r, f.mul(p, f.add(c, f.mul(x, e)))) == f.add(f.add(r, f.mul(c, p)), f.mul(f.mul(p, x), e))
  {
    assert Laws(f, p, c, f.mul(x, e)) && Laws(f, p, x, e);
    assert Laws(f, r, f.mul(c, p), f.mul(f.mul(p, x), e));
  }

  /** Multiplies a coefficient list by X + r on a zeroed list one longer. */
  method MultiplyLinear<T(!new)>(f: Field<T>, basis: seq<T>, r: T) returns (product: seq<T>)
    requires IsField(f)
    ensures product == MulLinear(f, basis, r)
  {
    product := Zeros(f, |basis| + 1);
    for k := 0 to |basis|
      invariant |product| == |basis| + 1
      invariant forall m :: 0 <= m < k ==> product[m] == MulLinear(f, basis, r)[m]
      invariant k == 0 ==> product[k] == f.zero
      invariant k > 0 ==> product[k] == basis[k - 1]
      invariant forall m :: k < m <= |basis| ==> product[m] == f.zero
    {
      MulLinearAt(f, f.zero, basis, r, k);
      assert Laws(f, basis[k], f.zero, f.zero);
      product := product[k := f.add(product[k], f.mul(basis[k], r))];
      product := product[k + 1 := f.add(product[k + 1], basis[k])];
    }
    MulLinearAt(f, f.zero, basis, r, |basis|);
  }

  /** Expands the numerator of basis polynomial i and accumulates its denominator. */
  method ExpandBasis<T(!new)>(f: Field<T>, points: seq<T>, i: nat) returns (basis: seq<T>, denom: T)
    requires IsField(f) && i < |points|
    ensures basis == RootPolynomial(f, Others(points, i, |points|))
    ensures denom == RootProduct(f, Others(points, i, |points|), points[i])
  {
    basis, denom := [f.one], f.one;
    for j := 0 to |points|
      invariant basis == RootPolynomial(f, Others(points, i, j))
      invariant denom == RootProduct(f, Others(points, i, j), points[i])
    {
      if j != i {
        OthersStep(f, points, i, j, points[i]);
        basis := MultiplyLinear(f, basis, points[j]);
        denom := f.mul(denom, f.add(points[i], points[j]));
      } else {
        OthersSkip(points, i);
      }
    }
  }

  /** The closed-form basis values, or a division by zero exactly when two points coincide. */
  method LagrangeCoefficients<T(==, !new)>(f: Field<T>, x: T, points: seq<T>) returns (r: Coefficients<T>)
    requires IsField(f)
    ensures r.Coefficients? <==> Distinct(points)
    ensures r.Coefficients? ==> r.values == BasisRow(f, points, x)
  {
    var coefficients: seq<T> := [];
    for i := 0 to |points|
      invariant coefficients == BasisRow(f, points, x)[..i]
      invariant forall a, b :: 0 <= a < i && 0 <= b < |points| && a != b ==> points[a] != points[b]
    {
      var basis, denom := ExpandBasis(f, points, i);
      var val := EvalPoly(f, basis, x);
      EvalRootPolynomial(f, Others(points, i, |points|), x);
      DenominatorZero(f, points, i);
      if denom == f.zero {
        return ZeroDivision;
      }
      coefficients := coefficients + [f.mul(val, f.inv(denom))];
    }
    r := Coefficients(coefficients);
  }

  lemma PrefixStep<T>(s: seq<T>, b: nat)
    requires b < |s|
    ensures s[..b] + [s[b]] == s[..b + 1]
  {}

  method WeightedSum<T(!new)>(f: Field<T>, points: seq<T>, coeffs: seq<T>) returns (val: T)
    requires |points| == |coeffs|
    ensures val == Dot(f, points, coeffs)
  {
    val := f.zero;
    for i := 0 to |coeffs|
      invariant val == Dot(f, points[..i], coeffs[..i])
    {
      DotStep(f, points, coeffs, i);
      val := f.add(val, f.mul(points[i], coeffs[i]));
    }
    assert points[..|points|] == points && coeffs[..|coeffs|] == coeffs;
  }
}

/** Shamir secret sharing over GF(256)  (services/shamir_service.py). The random polynomial
    coefficients are inputs, so every statement holds for all of them. */
module Shamir {
  import opened Fields
  import opened Lagrange
  import opened LagrangeLoops
  import opened GF256

  datatype Share = Share(index: bv8, bytes: seq<bv8>)

  datatype Error = EmptySecret | ThresholdTooSmall | TooFewShares | TooManyShares
                 | InsufficientShares | InvalidShare | ZeroDivisionError

  datatype Result<T> = Ok(value: T) | Err(error: Error)

  // ---- splitting ----

  /** The bytes of the share at x: byte b is the value at x of secret[b] + coins[b][0] X + ... */
  function ShareBytes(secret: seq<bv8>, coins: seq<seq<bv8>>, x: bv8): (bytes: seq<bv8>)
    requires |coins| == |secret|
    ensures |bytes| == |secret|
  {
    seq(|secret|, b requires 0 <= b < |secret| => Eval(GF, [secret[b]] + coins[b], x))
  }

  ghost predicate CoinsFor(coins: seq<seq<bv8>>, length: nat, threshold: int) {
    |coins| == length && forall b :: 0 <= b < |coins| ==> |coins[b]| == threshold - 1
  }

  /** The coordinate of the i-th share. */
  function ShareIndex(i: nat): bv8
    requires i < 10
  {
    (i + 1) as bv8
  }

  function PolyPower(x: bv8, k: nat): bv8 {
    if k == 0 then 1 else PolyMul(PolyPower(x, k - 1), x)
  }

  /** c_0 x^k xor c_1 x^(k+1) xor ..., with products of polynomials modulo 0x11D. */
  function PowerSum(coeffs: seq<bv8>, x: bv8, k: nat): bv8 {
    if coeffs == [] then 0 else PolyMul(coeffs[0], PolyPower(x, k)) ^ PowerSum(coeffs[1..], x, k + 1)
  }

  lemma {:induction false} PowerSumIsEval(coeffs: seq<bv8>, x: bv8, k: nat)
    ensures PowerSum(coeffs, x, k) == Mul(PolyPower(x, k), Eval(GF, coeffs, x))
    decreases |coeffs|
  {
    GFIsField();
    var power := PolyPower(x, k);
    if coeffs == [] {
      MulZero(power);
    } else {
      var rest := Eval(GF, coeffs[1..], x);
      PowerSumIsEval(coeffs[1..], x, k + 1);
      MulIsPolyMul(coeffs[0], power);
      MulIsPolyMul(power, x);
      MulDistributes(power, coeffs[0], Mul(x, rest));
      MulAssociates(power, x, rest);
      MulCommutes(power, coeffs[0]);
    }
  }

  /** Each share byte is the polynomial at the share's number, written out in bytes. */
  lemma ShareByteIsPowerSum(secret: seq<bv8>, coins: seq<seq<bv8>>, i: nat, b: nat)
    requires |coins| == |secret| && i < 10 && b < |secret|
    ensures ShareBytes(secret, coins, ShareIndex(i))[b] == PowerSum([secret[b]] + coins[b], (i + 1) as bv8, 0)
  {
    PowerSumIsEval([secret[b]] + coins[b], (i + 1) as bv8, 0);
    GFLaws(Eval(GF, [secret[b]] + coins[b], (i + 1) as bv8), 0, 0);
    MulCommutes(1, Eval(GF, [secret[b]] + coins[b], (i + 1) as bv8));
  }

  method SplitSecret(secret: seq<bv8>, numShares: int, threshold: int, coins: seq<seq<bv8>>)
    returns (r: Result<seq<Share>>)
    requires threshold >= 2 ==> CoinsFor(coins, |secret|, threshold)
    ensures r.Ok? <==> |secret| > 0 && 2 <= threshold <= numShares <= 10
    ensures r.Ok? ==> |r.value| == numShares
    ensures r.Ok? ==> forall i :: 0 <= i < numShares ==>
              r.value[i] == Share(ShareIndex(i), ShareBytes(secret, coins, ShareIndex(i)))
    ensures r.Ok? ==> forall i, b :: 0 <= i < numShares && 0 <= b < |secret| ==>
              && r.value[i].index == (i + 1) as bv8 && |r.value[i].bytes| == |secret|
              && r.value[i].bytes[b] == PowerSum([secret[b]] + coins[b], (i + 1) as bv8, 0)
    ensures r == Err(EmptySecret) <==> |secret| == 0
    ensures r == Err(ThresholdTooSmall) <==> |secret| > 0 && threshold < 2
    ensures r == Err(TooFewShares) <==> |secret| > 0 && 2 <= threshold && numShares < threshold
    ensures r == Err(TooManyShares) <==> |secret| > 0 && 2 <= threshold <= numShares && numShares > 10
  {
    if |secret| == 0 {
      return Err(EmptySecret);
    }
    if threshold < 2 {
      return Err(ThresholdTooSmall);
    }
    if numShares < threshold {
      return Err(TooFewShares);
    }
    if numShares > 10 {
      return Err(TooManyShares);
    }
    var shares: seq<seq<bv8>> := seq(numShares, _ => []);
    for b := 0 to |secret|
      invariant |shares| == numShares
      invariant forall i :: 0 <= i < numShares ==> shares[i] == ShareBytes(secret, coins, ShareIndex(i))[..b]
    {
      var coeffs := DrawCoefficients(secret[b], coins[b], threshold);
      shares := AppendShares(shares, coeffs);
    }
    r := Ok(seq(numShares, i requires 0 <= i < numShares => Share(ShareIndex(i), shares[i])));
    forall i, b | 0 <= i < numShares && 0 <= b < |secret|
      ensures ShareBytes(secret, coins, ShareIndex(i))[b] == PowerSum([secret[b]] + coins[b], (i + 1) as bv8, 0)
    {
      ShareByteIsPowerSum(secret, coins, i, b);
    }
  }

  /** The secret byte followed by threshold - 1 drawn coefficients. */
  method DrawCoefficients(byte: bv8, drawn: seq<bv8>, threshold: int) returns (coeffs: seq<bv8>)
    requires |drawn| == threshold - 1
    ensures coeffs == [byte] + drawn
  {
    coeffs := [byte];
    for d := 0 to threshold - 1
      invariant coeffs == [byte] + drawn[..d]
    {
      coeffs := coeffs + [drawn[d]];
    }
    assert drawn[..threshold - 1] == drawn;
  }

  /** Appends to every share the polynomial's value at that share's coordinate. */
  method AppendShares(shares: seq<seq<bv8>>, coeffs: seq<bv8>) returns (next: seq<seq<bv8>>)
    requires |shares| <= 10
    ensures |next| == |shares|
    ensures forall i :: 0 <= i < |shares| ==> next[i] == shares[i] + [Eval(GF, coeffs, ShareIndex(i))]
  {
    GFIsField();
    next := shares;
    for i := 0 to |shares|
      invariant |next| == |shares|
      invariant forall k :: 0 <= k < i ==> next[k] == shares[k] + [Eval(GF, coeffs, ShareIndex(k))]
      invariant forall k :: i <= k < |shares| ==> next[k] == shares[k]
    {
      var y := EvalPoly(GF, coeffs, ShareIndex(i));
      next := next[i := next[i] + [y]];
    }
  }

  // ---- reconstruction ----

  function Indices(shares: seq<Share>): (xs: seq<bv8>)
    ensures |xs| == |shares|
  {
    seq(|shares|, i requires 0 <= i < |shares| => shares[i].index)
  }

  function Column(shares: seq<Share>, b: nat): (ys: seq<bv8>)
    requires forall i :: 0 <= i < |shares| ==> b < |shares[i].bytes|
    ensures |ys| == |shares|
  {
    seq(|shares|, i requires 0 <= i < |shares| => shares[i].bytes[b])
  }

  ghost predicate SameLength(shares: seq<Share>, length: int) {
    forall i :: 0 <= i < |shares| ==> |shares[i].bytes| == length
  }

  /** The Lagrange combination at 0 of every byte column. */
  function Interpolated(shares: seq<Share>, length: nat): (secret: seq<bv8>)
    requires SameLength(shares, length)
    ensures |secret| == length
  {
    seq(length, b requires 0 <= b < length => Dot(GF, Column(shares, b), BasisRow(GF, Indices(shares), 0)))
  }

  method ReconstructSecret(shares: seq<Share>, expectedLength: int) returns (r: Result<seq<bv8>>)
    ensures r.Ok? <==> |shares| >= 2 && SameLength(shares, expectedLength)
                       && (expectedLength == 0 || Distinct(Indices(shares)))
    ensures r.Ok? ==> expectedLength >= 0 && r.value == Interpolated(shares, expectedLength)
    ensures r == Err(InsufficientShares) <==> |shares| < 2
    ensures r == Err(InvalidShare) <==> |shares| >= 2 && !SameLength(shares, expectedLength)
    ensures r == Err(ZeroDivisionError) <==>
      |shares| >= 2 && SameLength(shares, expectedLength) && expectedLength > 0 && !Distinct(Indices(shares))
  {
    if |shares| < 2 {
      return Err(InsufficientShares);
    }
    if exists i :: 0 <= i < |shares| && |shares[i].bytes| != expectedLength {
      return Err(InvalidShare);
    }
    assert |shares[0].bytes| == expectedLength;
    r := InterpolateBytes(shares, expectedLength);
  }

  method InterpolateBytes(shares: seq<Share>, length: nat) returns (r: Result<seq<bv8>>)
    requires SameLength(shares, length)
    ensures r.Ok? <==> length == 0 || Distinct(Indices(shares))
    ensures r.Ok? ==> r.value == Interpolated(shares, length)
    ensures r.Err? ==> r.error == ZeroDivisionError
  {
    var result: seq<bv8> := [];
    ghost var secret := Interpolated(shares, length);
    for b := 0 to length
      invariant result == secret[..b]
      invariant b > 0 ==> Distinct(Indices(shares))
    {
      var val := InterpolateByte(Column(shares, b), Indices(shares));
      if val.Err? {
        return Err(ZeroDivisionError);
      }
      assert val.value == secret[b];
      PrefixStep(secret, b);
      result := result + [val.value];
    }
    r := Ok(result);
  }

  /** One byte of the secret, from the share bytes at the given coordinates. */
  method InterpolateByte(points: seq<bv8>, indices: seq<bv8>) returns (r: Result<bv8>)
    requires |points| == |indices|
    ensures r.Ok? <==> Distinct(indices)
    ensures r.Ok? ==> r.value == Dot(GF, points, BasisRow(GF, indices, 0))
  {
    GFIsField();
    var coeffs := LagrangeCoefficients(GF, 0, indices);
    if coeffs.ZeroDivision? {
      return Err(ZeroDivisionError);
    }
    var val := WeightedSum(GF, points, coeffs.values);
    r := Ok(val);
  }

  // ---- what sharing is for ----

  /** Shares produced by one split of `secret`. */
  ghost predicate FromSplit(shares: seq<Share>, secret: seq<bv8>, coins: seq<seq<bv8>>)
    requires |coins| == |secret|
  {
    forall i :: 0 <= i < |shares| ==> shares[i].bytes == ShareBytes(secret, coins, shares[i].index)
  }

  /** Any `threshold` or more shares with distinct coordinates, in any order, give back the secret,
      whatever the random coefficients were. */
  lemma ReconstructionExact(secret: seq<bv8>, coins: seq<seq<bv8>>, threshold: nat, shares: seq<Share>)
    requires CoinsFor(coins, |secret|, threshold) && FromSplit(shares, secret, coins)
    requires |shares| >= threshold && Distinct(Indices(shares))
    ensures SameLength(shares, |secret|) && Interpolated(shares, |secret|) == secret
  {
    GFIsField();
    forall b | 0 <= b < |secret| ensures Interpolated(shares, |secret|)[b] == secret[b] {
      var p, xs := [secret[b]] + coins[b], Indices(shares);
      Interpolation(GF, p, xs, Column(shares, b), 0);
      ConstantTerm(p);
    }
  }

  /** Share coordinates are nonzero and pairwise different. */
  lemma ShareIndexDistinct(i: nat, j: nat)
    requires i < 10 && j < 10
    ensures ShareIndex(i) != 0 && (ShareIndex(i) == ShareIndex(j) <==> i == j)
  {
    assert ShareIndex(i) as int == i + 1 && ShareIndex(j) as int == j + 1;
  }

  /** The shares of a split at the given positions. */
  function Picked(secret: seq<bv8>, coins: seq<seq<bv8>>, picks: seq<nat>): (shares: seq<Share>)
    requires |coins| == |secret| && forall k :: 0 <= k < |picks| ==> picks[k] < 10
    ensures |shares| == |picks|
  {
    seq(|picks|, k requires 0 <= k < |picks| =>
      Share(ShareIndex(picks[k]), ShareBytes(secret, coins, ShareIndex(picks[k]))))
  }

  /** End to end: whichever threshold or more of the split's shares come back, in whatever order,
      they interpolate to the secret. */
  lemma SplitThenReconstruct(secret: seq<bv8>, coins: seq<seq<bv8>>, threshold: nat, numShares: nat, picks: seq<nat>)
    requires 2 <= threshold <= numShares <= 10 && CoinsFor(coins, |secret|, threshold)
    requires forall k :: 0 <= k < |picks| ==> picks[k] < numShares
    requires Distinct(picks) && |picks| >= threshold
    ensures var shares := Picked(secret, coins, picks);
      SameLength(shares, |secret|) && Distinct(Indices(shares)) && Interpolated(shares, |secret|) == secret
  {
    var shares := Picked(secret, coins, picks);
    forall i, j | 0 <= i < j < |shares| ensures Indices(shares)[i] != Indices(shares)[j] {
      ShareIndexDistinct(picks[i], picks[j]);
    }
    ReconstructionExact(secret, coins, threshold, shares);
  }

  lemma ConstantTerm(p: seq<bv8>)
    requires p != []
    ensures Eval(GF, p, 0) == p[0]
  {
    GFIsField();
    EvalAtZero(GF, p);
  }

  /** The coefficients under which secret byte s gives the bytes ys at coordinates xs. */
  function MatchingCoins(xs: seq<bv8>, ys: seq<bv8>, s: bv8): (coins: seq<bv8>)
    requires |xs| == |ys|
    ensures |coins| == |xs|
  {
    Completion(GF, xs, ys, s)
  }

  ghost predicate Explains(xs: seq<bv8>, ys: seq<bv8>, s: bv8, coins: seq<bv8>)
    requires |xs| == |ys|
  {
    forall i :: 0 <= i < |xs| ==> Eval(GF, [s] + coins, xs[i]) == ys[i]
  }

  /** Fewer than `threshold` shares say nothing: at any threshold - 1 distinct nonzero coordinates,
      every secret byte is consistent with the observed bytes under exactly one coefficient choice. */
  lemma PerfectSecrecy(xs: seq<bv8>, ys: seq<bv8>, s: bv8, coins: seq<bv8>)
    requires Distinct(xs) && 0 !in xs && |ys| == |xs| == |coins|
    ensures Explains(xs, ys, s, coins) <==> coins == MatchingCoins(xs, ys, s)
  {
    GFIsField();
    if Explains(xs, ys, s, coins) {
      CompletionUnique(GF, xs, ys, s, coins);
    }
    CompletionExplains(GF, xs, ys, s);
  }

  /** The coefficients under which another secret has the given shares. */
  function ExplainingCoins(secret: seq<bv8>, shares: seq<Share>): (coins: seq<seq<bv8>>)
    requires forall i :: 0 <= i < |shares| ==> |shares[i].bytes| == |secret|
    ensures |coins| == |secret|
  {
    seq(|secret|, b requires 0 <= b < |secret| => MatchingCoins(Indices(shares), Column(shares, b), secret[b]))
  }

  /** Whoever sees one share fewer than the threshold, of any split, learns nothing: every other secret of that
      length has the same shares at those positions under exactly one choice of coefficients. */
  lemma SharesHideSecret(secret: seq<bv8>, coins: seq<seq<bv8>>, threshold: nat, numShares: nat, picks: seq<nat>,
                         other: seq<bv8>, otherCoins: seq<seq<bv8>>)
    requires 2 <= threshold <= numShares <= 10 && |other| == |secret|
    requires CoinsFor(coins, |secret|, threshold) && CoinsFor(otherCoins, |other|, threshold)
    requires Distinct(picks) && |picks| == threshold - 1 && forall k :: 0 <= k < |picks| ==> picks[k] < numShares
    ensures var seen := Picked(secret, coins, picks);
      && CoinsFor(ExplainingCoins(other, seen), |other|, threshold)
      && (Picked(other, otherCoins, picks) == seen <==> otherCoins == ExplainingCoins(other, seen))
  {
    var seen, xs := Picked(secret, coins, picks), Indices(Picked(secret, coins, picks));
    PickedIndices(picks, xs);
    var explaining := ExplainingCoins(other, seen);
    forall b | 0 <= b < |other|
      ensures Explains(xs, Column(seen, b), other[b], otherCoins[b]) <==> otherCoins[b] == explaining[b]
    {
      PerfectSecrecy(xs, Column(seen, b), other[b], otherCoins[b]);
    }
    PickedExplained(other, otherCoins, picks, seen);
  }

  lemma PickedIndices(picks: seq<nat>, xs: seq<bv8>)
    requires Distinct(picks) && |xs| == |picks|
    requires forall k :: 0 <= k < |picks| ==> picks[k] < 10 && xs[k] == ShareIndex(picks[k])
    ensures Distinct(xs) && 0 !in xs
  {
    forall i, j | 0 <= i < j < |xs| ensures xs[i] != xs[j] {
      ShareIndexDistinct(picks[i], picks[j]);
    }
    forall k | 0 <= k < |xs| ensures xs[k] != 0 {
      ShareIndexDistinct(picks[k], picks[k]);
    }
  }

  /** A split has the given shares at the given positions exactly if its coefficients explain every byte. */
  lemma PickedExplained(secret: seq<bv8>, coins: seq<seq<bv8>>, picks: seq<nat>, seen: seq<Share>)
    requires |coins| == |secret| && |seen| == |picks|
    requires forall k :: 0 <= k < |picks| ==>
      picks[k] < 10 && seen[k].index == ShareIndex(picks[k]) && |seen[k].bytes| == |secret|
    ensures Picked(secret, coins, picks) == seen <==>
      forall b :: 0 <= b < |secret| ==> Explains(Indices(seen), Column(seen, b), secret[b], coins[b])
  {
    var mine := Picked(secret, coins, picks);
    if forall b :: 0 <= b < |secret| ==> Explains(Indices(seen), Column(seen, b), secret[b], coins[b]) {
      forall k | 0 <= k < |picks| ensures mine[k] == seen[k] {
        forall b | 0 <= b < |secret| ensures mine[k].bytes[b] == seen[k].bytes[b] {
          assert Column(seen, b)[k] == seen[k].bytes[b] && Indices(seen)[k] == seen[k].index;
        }
      }
    }
  }
}
