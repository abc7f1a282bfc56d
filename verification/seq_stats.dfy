/** Exact-arithmetic counterparts of the numpy reductions the analysis code
    uses on sample records: sum, mean, min, max, mean removal and argmax. */
module SeqStats {

  function Sum(s: seq<real>): real
  {
    if |s| == 0 then 0.0 else s[0] + Sum(s[1..])
  }

  function Mean(s: seq<real>): real
    requires |s| > 0
  {
    Sum(s) / (|s| as real)
  }

  /** numpy `min`: the smallest element, which occurs in the record. */
  function Min(s: seq<real>): (r: real)
    requires |s| > 0
    ensures forall i :: 0 <= i < |s| ==> r <= s[i]
    ensures r in s
  {
    if |s| == 1 then s[0]
    else
      var m := Min(s[1..]);
      assert forall i :: 1 <= i < |s| ==> s[i] == s[1..][i - 1];
      if s[0] <= m then s[0] else m
  }

  /** numpy `max`: the largest element, which occurs in the record. */
  function Max(s: seq<real>): (r: real)
    requires |s| > 0
    ensures forall i :: 0 <= i < |s| ==> s[i] <= r
    ensures r in s
  {
    if |s| == 1 then s[0]
    else
      var m := Max(s[1..]);
      assert forall i :: 1 <= i < |s| ==> s[i] == s[1..][i - 1];
      if s[0] >= m then s[0] else m
  }

  /** `x - x.mean()`: every sample shifted by the same offset. */
  function Demean(s: seq<real>): (r: seq<real>)
    ensures |r| == |s|
  {
    if |s| == 0 then [] else Shift(s, Mean(s))
  }

  function Shift(s: seq<real>, c: real): (r: seq<real>)
    ensures |r| == |s|
    ensures forall i :: 0 <= i < |s| ==> r[i] == s[i] - c
  {
    seq(|s|, i requires 0 <= i < |s| => s[i] - c)
  }

  /** Subtracting `c` from every sample lowers the sum by `|s| * c`. */
  lemma {:induction false} SumShift(s: seq<real>, c: real)
    ensures Sum(Shift(s, c)) == Sum(s) - (|s| as real) * c
  {
    if |s| > 0 {
      SumShift(s[1..], c);
      assert Shift(s, c)[1..] == Shift(s[1..], c);
    }
  }

  /** Mean removal leaves a record whose samples sum to zero. */
  lemma DemeanSumsToZero(s: seq<real>)
    ensures Sum(Demean(s)) == 0.0
  {
    if |s| > 0 {
      SumShift(s, Mean(s));
    }
  }

  /** Mean removal is idempotent: a de-meaned record has mean zero, so
      removing it again changes nothing. */
  lemma DemeanIdempotent(s: seq<real>)
    ensures Demean(Demean(s)) == Demean(s)
  {
    if |s| > 0 {
      DemeanSumsToZero(s);
      assert Mean(Demean(s)) == 0.0;
    }
  }

  /** Samples bounded by `lo` and `hi` sum to between `|s| * lo` and `|s| * hi`. */
  lemma {:induction false} SumWithin(s: seq<real>, lo: real, hi: real)
    requires forall i :: 0 <= i < |s| ==> lo <= s[i] <= hi
    ensures (|s| as real) * lo <= Sum(s) <= (|s| as real) * hi
  {
    if |s| > 0 {
      var t := s[1..];
      assert forall i :: 0 <= i < |t| ==> t[i] == s[i + 1];
      SumWithin(t, lo, hi);
      var m := |t| as real;
      assert (|s| as real) == m + 1.0;
      assert (m + 1.0) * lo == m * lo + lo;
      assert (m + 1.0) * hi == m * hi + hi;
    }
  }

  /** The mean scaled back by the record length is the record's sum. */
  lemma MeanTimesLength(s: seq<real>)
    requires |s| > 0
    ensures Mean(s) * (|s| as real) == Sum(s)
  {
    var n := |s| as real;
    assert n > 0.0;
    assert (Sum(s) / n) * n == Sum(s);
  }

  lemma PositiveFactor(n: real, x: real)
    requires n > 0.0 && n * x >= 0.0
    ensures x >= 0.0
  {
  }

  lemma DivideBounds(lo: real, total: real, hi: real, n: real)
    requires n > 0.0 && n * lo <= total <= n * hi
    ensures lo <= total / n <= hi
  {
    var q := total / n;
    assert n * q == total;
    assert n * (q - lo) == total - n * lo;
    assert n * (hi - q) == n * hi - total;
    PositiveFactor(n, q - lo);
    PositiveFactor(n, hi - q);
  }

  /** Samples bounded by `lo` and `hi` have a mean between them. */
  lemma MeanWithin(s: seq<real>, lo: real, hi: real)
    requires |s| > 0
    requires forall i :: 0 <= i < |s| ==> lo <= s[i] <= hi
    ensures lo <= Mean(s) <= hi
  {
    SumWithin(s, lo, hi);
    DivideBounds(lo, Sum(s), hi, |s| as real);
  }

  /** The arithmetic mean lies between the extremes. */
  lemma MeanBetweenMinMax(s: seq<real>)
    requires |s| > 0
    ensures Min(s) <= Mean(s) <= Max(s)
  {
    MeanWithin(s, Min(s), Max(s));
  }

  /** numpy `argmax` over `s[lo..]`, as an index of `s`: the FIRST position
      holding the largest value of the suffix. */
  function ArgMaxFrom(s: seq<real>, lo: nat): (k: nat)
    requires lo < |s|
    ensures lo <= k < |s|
    ensures forall j :: lo <= j < |s| ==> s[j] <= s[k]
    ensures forall j :: lo <= j < k ==> s[j] < s[k]
    decreases |s| - lo
  {
    if lo == |s| - 1 then lo
    else
      var k := ArgMaxFrom(s, lo + 1);
      if s[lo] >= s[k] then lo else k
  }
}
