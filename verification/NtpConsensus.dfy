/** The consensus step of ntp_client.py over real-valued timestamps: median, removal of responses half
    a second or more away from it, mean of the rest. */
module NtpConsensus {
  import opened Basics

  function Insert(x: real, s: seq<real>): (r: seq<real>)
    ensures |r| == |s| + 1
  {
    if s == [] then [x] else if x <= s[0] then [x] + s else [s[0]] + Insert(x, s[1..])
  }

  function Sort(s: seq<real>): (r: seq<real>)
    ensures |r| == |s|
  {
    if s == [] then [] else Insert(s[0], Sort(s[1..]))
  }

  /** The middle entry, or the mean of the two middle entries. */
  function Middle(sorted: seq<real>): real
    requires sorted != []
  {
    var m := |sorted| / 2;
    if |sorted| % 2 == 1 then sorted[m] else (sorted[m - 1] + sorted[m]) / 2.0
  }

  function Median(s: seq<real>): real
    requires s != []
  {
    Middle(Sort(s))
  }

  function Abs(x: real): real {
    if x < 0.0 then -x else x
  }

  function Close(s: seq<real>, center: real): seq<real> {
    if s == [] then []
    else (if Abs(s[0] - center) < 0.5 then [s[0]] else []) + Close(s[1..], center)
  }

  function Sum(s: seq<real>): real {
    if s == [] then 0.0 else s[0] + Sum(s[1..])
  }

  function Mean(s: seq<real>): real
    requires s != []
  {
    Sum(s) / |s| as real
  }

  /** No response, no time; a single response is taken as it is. */
  function Consensus(responses: seq<real>): Option<real> {
    if responses == [] then None
    else if |responses| == 1 then Some(responses[0])
    else
      var center := Median(responses);
      var close := Close(responses, center);
      Some(if close != [] then Mean(close) else center)
  }

  // ---- sorting ----

  ghost predicate Ascending(s: seq<real>) {
    forall i, j :: 0 <= i < j < |s| ==> s[i] <= s[j]
  }

  /** How many entries lie between lo and hi. */
  function Within(s: seq<real>, lo: real, hi: real): nat {
    if s == [] then 0 else (if lo <= s[0] <= hi then 1 else 0) + Within(s[1..], lo, hi)
  }

  ghost predicate AtLeast(s: seq<real>, bound: real) {
    forall i :: 0 <= i < |s| ==> bound <= s[i]
  }

  lemma {:induction false} InsertAtLeast(x: real, s: seq<real>, bound: real)
    requires AtLeast(s, bound) && bound <= x
    ensures AtLeast(Insert(x, s), bound)
  {
    if s != [] && x > s[0] {
      InsertAtLeast(x, s[1..], bound);
    }
  }

  lemma ConsAscends(x: real, s: seq<real>)
    requires Ascending(s) && AtLeast(s, x)
    ensures Ascending([x] + s)
  {}

  lemma {:induction false} InsertAscends(x: real, s: seq<real>)
    requires Ascending(s)
    ensures Ascending(Insert(x, s))
  {
    if s != [] {
      if x <= s[0] {
        ConsAscends(x, s);
      } else {
        InsertAscends(x, s[1..]);
        InsertAtLeast(x, s[1..], s[0]);
        ConsAscends(s[0], Insert(x, s[1..]));
      }
    }
  }

  lemma {:induction false} InsertWithin(x: real, s: seq<real>, lo: real, hi: real)
    ensures Within(Insert(x, s), lo, hi) == Within(s, lo, hi) + if lo <= x <= hi then 1 else 0
  {
    if s != [] && x > s[0] {
      InsertWithin(x, s[1..], lo, hi);
    }
  }

  /** The sorted list is ascending and has as many entries as the original in every interval. */
  lemma {:induction false} SortCorrect(s: seq<real>, lo: real, hi: real)
    ensures Ascending(Sort(s)) && Within(Sort(s), lo, hi) == Within(s, lo, hi)
  {
    if s != [] {
      SortCorrect(s[1..], lo, hi);
      InsertAscends(s[0], Sort(s[1..]));
      InsertWithin(s[0], Sort(s[1..]), lo, hi);
    }
  }

  // ---- the median ----

  lemma {:induction false} InsertKeepsEntries(x: real, s: seq<real>)
    ensures multiset(Insert(x, s)) == multiset(s) + multiset{x}
  {
    if s != [] && x > s[0] {
      InsertKeepsEntries(x, s[1..]);
      assert s == [s[0]] + s[1..];
    }
  }

  lemma {:induction false} SortKeepsEntries(s: seq<real>)
    ensures multiset(Sort(s)) == multiset(s) && Ascending(Sort(s))
  {
    if s != [] {
      SortKeepsEntries(s[1..]);
      InsertKeepsEntries(s[0], Sort(s[1..]));
      InsertAscends(s[0], Sort(s[1..]));
      assert s == [s[0]] + s[1..];
    }
  }

  /** There is only one way to put numbers in order. */
  lemma {:induction false} OneAscending(s: seq<real>, t: seq<real>)
    requires Ascending(s) && Ascending(t) && multiset(s) == multiset(t)
    ensures s == t
  {
    SameSize(s, t);
    if s != [] {
      SameTails(s, t);
      OneAscending(s[1..], t[1..]);
      assert s == [s[0]] + s[1..] && t == [t[0]] + t[1..];
    }
  }

  lemma SameTails(s: seq<real>, t: seq<real>)
    requires Ascending(s) && Ascending(t) && multiset(s) == multiset(t) && s != [] && t != []
    ensures s[0] == t[0] && Ascending(s[1..]) && Ascending(t[1..]) && multiset(s[1..]) == multiset(t[1..])
  {
    SameSize(s, t);
    FirstIsLeast(s, t[0]);
    FirstIsLeast(t, s[0]);
    TailEntries(s);
    TailEntries(t);
  }

  lemma SameSize(s: seq<real>, t: seq<real>)
    requires multiset(s) == multiset(t)
    ensures |s| == |t|
    ensures s != [] ==> t[0] in multiset(s) && s[0] in multiset(t)
  {
    assert |multiset(s)| == |s| && |multiset(t)| == |t|;
    assert s != [] ==> s[0] in s && t[0] in t;
  }

  lemma FirstIsLeast(s: seq<real>, x: real)
    requires Ascending(s) && x in multiset(s)
    ensures s != [] && s[0] <= x
  {
    assert x in s;
  }

  lemma TailEntries(s: seq<real>)
    requires s != []
    ensures s == [s[0]] + s[1..] && multiset(s[1..]) == multiset(s) - multiset{s[0]}
  {
    assert s == [s[0]] + s[1..];
  }

  /** The median of an odd number of responses is the middle one in ascending order, of an even number the mean
      of the middle two. */
  lemma MedianOfOrdered(s: seq<real>, t: seq<real>)
    requires s != [] && Ascending(t) && multiset(t) == multiset(s)
    ensures |t| == |s|
    ensures Median(s) == if |t| % 2 == 1 then t[|t| / 2] else (t[|t| / 2 - 1] + t[|t| / 2]) / 2.0
  {
    SortKeepsEntries(s);
    OneAscending(Sort(s), t);
    assert |multiset(t)| == |t| && |multiset(s)| == |s|;
  }

  /** How many responses are strictly within half a second of the center. */
  function CountNear(s: seq<real>, center: real): nat {
    if s == [] then 0 else (if center - 0.5 < s[0] < center + 0.5 then 1 else 0) + CountNear(s[1..], center)
  }

  function SumNear(s: seq<real>, center: real): real {
    if s == [] then 0.0 else (if center - 0.5 < s[0] < center + 0.5 then s[0] else 0.0) + SumNear(s[1..], center)
  }

  lemma {:induction false} CloseIsNear(s: seq<real>, center: real)
    ensures |Close(s, center)| == CountNear(s, center) && Sum(Close(s, center)) == SumNear(s, center)
  {
    if s != [] {
      CloseIsNear(s[1..], center);
      if Abs(s[0] - center) < 0.5 {
        assert Close(s, center)[1..] == Close(s[1..], center);
      } else {
        assert Close(s, center) == Close(s[1..], center);
      }
    }
  }

  predicate IsMean(x: real, count: nat, sum: real) {
    x * count as real == sum
  }

  lemma MeanOfNear(s: seq<real>, center: real)
    ensures Close(s, center) == [] <==> CountNear(s, center) == 0
    ensures Close(s, center) != [] ==> IsMean(Mean(Close(s, center)), CountNear(s, center), SumNear(s, center))
  {
    var close := Close(s, center);
    CloseIsNear(s, center);
    if close != [] {
      QuotientTimes(Sum(close), |close| as real);
    }
  }

  lemma QuotientTimes(x: real, n: real)
    requires n > 0.0
    ensures x / n * n == x
  {}

  /** The consensus is the mean of the responses strictly within half a second of the median: times their number
      it is their sum. With none that close it is the median, and a single response stands for itself. */
  lemma ConsensusExact(responses: seq<real>)
    ensures responses == [] ==> Consensus(responses) == None
    ensures |responses| == 1 ==> Consensus(responses) == Some(responses[0])
    ensures |responses| > 1 ==>
      var center := Median(responses);
      && Consensus(responses).Some?
      && (CountNear(responses, center) == 0 ==> Consensus(responses).value == center)
      && (CountNear(responses, center) > 0 ==>
            IsMean(Consensus(responses).value, CountNear(responses, center), SumNear(responses, center)))
  {
    if |responses| > 1 {
      MeanOfNear(responses, Median(responses));
    }
  }

  // ---- the median is within the majority's interval ----

  lemma {:induction false} WithinAtMost(s: seq<real>, lo: real, hi: real, from: nat, to: nat)
    requires from <= to <= |s|
    requires forall i :: 0 <= i < |s| && lo <= s[i] <= hi ==> from <= i < to
    ensures Within(s, lo, hi) <= to - from
  {
    if s != [] {
      if from > 0 {
        WithinAtMost(s[1..], lo, hi, from - 1, to - 1);
      } else if to > 0 {
        WithinAtMost(s[1..], lo, hi, 0, to - 1);
      } else {
        WithinAtMost(s[1..], lo, hi, 0, 0);
      }
    }
  }

  /** With more than half of an ascending list in the interval, its middle entries lie in it. */
  lemma MiddleInside(s: seq<real>, lo: real, hi: real)
    requires Ascending(s) && 2 * Within(s, lo, hi) > |s|
    ensures s != [] && lo <= Middle(s) <= hi
  {
    if s == [] {
      assert false;
    }
    var m := |s| / 2;
    if s[m] > hi {
      WithinAtMost(s, lo, hi, 0, m);
    }
    if s[m] < lo {
      WithinAtMost(s, lo, hi, m + 1, |s|);
    }
    if |s| % 2 == 0 && s[m - 1] < lo {
      WithinAtMost(s, lo, hi, m, |s|);
    }
  }

  lemma MedianInside(s: seq<real>, lo: real, hi: real)
    requires 2 * Within(s, lo, hi) > |s|
    ensures s != [] && lo <= Median(s) <= hi
  {
    SortCorrect(s, lo, hi);
    MiddleInside(Sort(s), lo, hi);
  }

  // ---- the mean stays near the median ----

  lemma {:induction false} CloseAreClose(s: seq<real>, center: real)
    ensures forall i :: 0 <= i < |Close(s, center)| ==> Abs(Close(s, center)[i] - center) < 0.5
  {
    if s != [] {
      CloseAreClose(s[1..], center);
    }
  }

  lemma {:induction false} SumBounds(s: seq<real>, lo: real, hi: real)
    requires forall i :: 0 <= i < |s| ==> lo <= s[i] <= hi
    ensures lo * |s| as real <= Sum(s) <= hi * |s| as real
  {
    if s != [] {
      SumBounds(s[1..], lo, hi);
      var n := |s[1..]| as real;
      assert |s| as real == n + 1.0;
      assert lo * (n + 1.0) == lo * n + lo && hi * (n + 1.0) == hi * n + hi;
    }
  }

  lemma MeanBounds(s: seq<real>, lo: real, hi: real)
    requires s != [] && forall i :: 0 <= i < |s| ==> lo <= s[i] <= hi
    ensures lo <= Mean(s) <= hi
  {
    SumBounds(s, lo, hi);
    QuotientBounds(Sum(s), |s| as real, lo, hi);
  }

  lemma QuotientBounds(x: real, n: real, lo: real, hi: real)
    requires n > 0.0 && lo * n <= x <= hi * n
    ensures lo <= x / n <= hi
  {
    var q := x / n;
    assert q * n == x;
  }

  /** If more than half of the responses are within eps of the true time, so is the consensus up to the
      half-second filter; the fallback to the raw median included. */
  lemma MajorityBoundsConsensus(responses: seq<real>, truth: real, eps: real)
    requires 2 * Within(responses, truth - eps, truth + eps) > |responses|
    ensures Consensus(responses).Some?
    ensures truth - eps - 0.5 <= Consensus(responses).value <= truth + eps + 0.5
  {
    MedianInside(responses, truth - eps, truth + eps);
    var center := Median(responses);
    var close := Close(responses, center);
    if |responses| == 1 {
      assert Within(responses[1..], truth - eps, truth + eps) == 0;
    } else if close != [] {
      CloseAreClose(responses, center);
      MeanBounds(close, center - 0.5, center + 0.5);
    }
  }

  /** Exactly half is not enough: two responses, one right, and the fallback is arbitrarily far off. */
  lemma HalfIsNotEnough(truth: real, far: real)
    requires far >= 1.0
    ensures 2 * Within([truth, truth + 2.0 * far], truth, truth) == 2
    ensures Consensus([truth, truth + 2.0 * far]) == Some(truth + far)
  {
    var s := [truth, truth + 2.0 * far];
    assert s[1..] == [truth + 2.0 * far] && s[1..][1..] == [];
    assert Sort(s[1..]) == s[1..] && Sort(s) == s;
    assert Median(s) == truth + far;
    assert Within(s[1..], truth, truth) == 0;
    assert Close(s[1..], truth + far) == [];
  }
}
