/** Per-column statistics of the reference table and the two rescaling formulas
    built on them: min-max scaling and z-score standardisation. A column is a
    sequence of real numbers, one per table row. */
module ColumnStats {

  /** The smallest value of a column (pandas `Series.min`). */
  function ColMin(s: seq<real>): (m: real)
    requires |s| > 0
    ensures m in s
    ensures forall i :: 0 <= i < |s| ==> m <= s[i]
  {
    if |s| == 1 then s[0]
    else
      var rest := ColMin(s[1..]);
      if s[0] <= rest then s[0] else rest
  }

  /** The largest value of a column (pandas `Series.max`). */
  function ColMax(s: seq<real>): (m: real)
    requires |s| > 0
    ensures m in s
    ensures forall i :: 0 <= i < |s| ==> s[i] <= m
  {
    if |s| == 1 then s[0]
    else
      var rest := ColMax(s[1..]);
      if s[0] >= rest then s[0] else rest
  }

  /** The sum of a column, accumulated from the first row onward. */
  function ColSum(s: seq<real>): real
  {
    if s == [] then 0.0 else ColSum(s[..|s| - 1]) + s[|s| - 1]
  }

  /** The arithmetic mean of a column (pandas `Series.mean`). */
  function ColMean(s: seq<real>): real
    requires |s| > 0
  {
    ColSum(s) / (|s| as real)
  }

  /** The mean lies between the column's minimum and maximum. */
  lemma MeanBetween(s: seq<real>)
    requires |s| > 0
    ensures ColMin(s) <= ColMean(s) <= ColMax(s)
  {
    MeanAtLeast(s, ColMin(s));
    MeanAtMost(s, ColMax(s));
  }

  lemma MeanAtLeast(s: seq<real>, lo: real)
    requires |s| > 0
    requires forall i :: 0 <= i < |s| ==> lo <= s[i]
    ensures lo <= ColSum(s) / (|s| as real)
  {
    SumAtLeast(s, lo);
    DivAtLeast(ColSum(s), |s| as real, lo);
  }

  lemma MeanAtMost(s: seq<real>, hi: real)
    requires |s| > 0
    requires forall i :: 0 <= i < |s| ==> s[i] <= hi
    ensures ColSum(s) / (|s| as real) <= hi
  {
    SumAtMost(s, hi);
    DivAtMost(ColSum(s), |s| as real, hi);
  }

  lemma {:induction false} SumAtLeast(s: seq<real>, m: real)
    requires forall i :: 0 <= i < |s| ==> m <= s[i]
    ensures (|s| as real) * m <= ColSum(s)
  {
    if s != [] {
      var n := |s| - 1;
      SumAtLeast(s[..n], m);
      assert (|s| as real) * m == (n as real) * m + m;
    }
  }

  lemma {:induction false} SumAtMost(s: seq<real>, m: real)
    requires forall i :: 0 <= i < |s| ==> s[i] <= m
    ensures ColSum(s) <= (|s| as real) * m
  {
    if s != [] {
      var n := |s| - 1;
      SumAtMost(s[..n], m);
      assert (|s| as real) * m == (n as real) * m + m;
    }
  }

  lemma DivAtLeast(a: real, d: real, lo: real)
    requires d > 0.0 && d * lo <= a
    ensures lo <= a / d
  {
    var q := a / d;
    assert q * d == a;
    if q < lo {
      MulPositive(lo - q, d);
    }
  }

  lemma DivAtMost(a: real, d: real, hi: real)
    requires d > 0.0 && a <= d * hi
    ensures a / d <= hi
  {
    var q := a / d;
    assert q * d == a;
    if q > hi {
      MulPositive(q - hi, d);
    }
  }

  lemma DivBetween(a: real, d: real, lo: real, hi: real)
    requires d > 0.0 && d * lo <= a <= d * hi
    ensures lo <= a / d <= hi
  {
    DivAtLeast(a, d, lo);
    DivAtMost(a, d, hi);
  }

  lemma MulPositive(x: real, y: real)
    requires x > 0.0 && y > 0.0
    ensures x * y > 0.0
  {
  }

  /** Min-max scaling of one value against a column's minimum `lo` and maximum
      `hi`; a column whose range is zero scales every value to 0.0 and nothing
      is divided. */
  function MinMaxScale(v: real, lo: real, hi: real): (r: real)
    ensures v == lo ==> r == 0.0
    ensures hi - lo != 0.0 && v == hi ==> r == 1.0
    ensures lo <= v <= hi ==> 0.0 <= r <= 1.0
    ensures hi - lo == 0.0 ==> r == 0.0
  {
    if hi - lo != 0.0 then
      ScaleWithinRange(v, lo, hi);
      (v - lo) / (hi - lo)
    else
      0.0
  }

  /** For a non-zero range the formula sends `lo` to 0, `hi` to 1 and every
      value of the range into [0, 1]. */
  lemma ScaleWithinRange(v: real, lo: real, hi: real)
    requires hi - lo != 0.0
    ensures v == lo ==> (v - lo) / (hi - lo) == 0.0
    ensures v == hi ==> (v - lo) / (hi - lo) == 1.0
    ensures lo <= v <= hi ==> 0.0 <= (v - lo) / (hi - lo) <= 1.0
  {
    if lo <= v <= hi {
      DivBetween(v - lo, hi - lo, 0.0, 1.0);
    }
  }

  /** Min-max scaling between two values keeps their order. */
  lemma MinMaxScaleMonotone(v1: real, v2: real, lo: real, hi: real)
    requires lo <= hi && v1 <= v2
    ensures MinMaxScale(v1, lo, hi) <= MinMaxScale(v2, lo, hi)
  {
    if lo < hi {
      DivMonotone(v1 - lo, v2 - lo, hi - lo);
    }
  }

  lemma DivMonotone(a: real, b: real, d: real)
    requires d > 0.0 && a <= b
    ensures a / d <= b / d
  {
    var qa, qb := a / d, b / d;
    assert qa * d == a && qb * d == b;
    DivAtLeast(b - a, d, 0.0);
    assert qb - qa == (b - a) / d;
  }

  /** Z-score standardisation of one value against a column's mean and
      standard deviation; a zero deviation gives 0.0 and nothing is divided. */
  function ZScore(v: real, mean: real, std: real): (r: real)
    ensures v == mean ==> r == 0.0
    ensures std == 0.0 ==> r == 0.0
    ensures std > 0.0 ==> (r > 0.0 <==> v > mean)
  {
    if std != 0.0 then
      ZScoreSign(v, mean, std);
      (v - mean) / std
    else
      0.0
  }

  lemma ZScoreSign(v: real, mean: real, std: real)
    requires std != 0.0
    ensures std > 0.0 ==> ((v - mean) / std > 0.0 <==> v > mean)
  {
    var q := (v - mean) / std;
    assert q * std == v - mean;
    if std > 0.0 && q > 0.0 {
      assert q * std > 0.0;
    }
    if std > 0.0 && q <= 0.0 {
      assert q * std <= 0.0;
    }
  }

  /** With a positive deviation the standardisation is strictly increasing. */
  lemma {:induction false} ZScoreStrictlyIncreasing(v1: real, v2: real, mean: real, std: real)
    requires std > 0.0 && v1 < v2
    ensures ZScore(v1, mean, std) < ZScore(v2, mean, std)
  {
    var q1, q2 := (v1 - mean) / std, (v2 - mean) / std;
    assert q1 * std == v1 - mean && q2 * std == v2 - mean;
    if q1 >= q2 {
      assert q1 * std >= q2 * std;
    }
  }

  /** A whole column rescaled by min-max scaling against its own minimum and
      maximum, as `(col - col.min()) / (col.max() - col.min())`, or set to 0.0
      everywhere when its range is zero. */
  function ScaleColumn(col: seq<real>): (r: seq<real>)
    ensures |r| == |col|
  {
    if |col| == 0 then []
    else
      var lo, hi := ColMin(col), ColMax(col);
      seq(|col|, i requires 0 <= i < |col| => MinMaxScale(col[i], lo, hi))
  }

  /** Entry `i` of a scaled column is the scaled entry `i`: the stored value of
      a row is the formula applied to that row's raw value. */
  lemma ScaleColumnAt(col: seq<real>, i: int)
    requires 0 <= i < |col|
    ensures ScaleColumn(col)[i] == MinMaxScale(col[i], ColMin(col), ColMax(col))
  {
  }

  /** Every scaled entry lies in [0, 1]; the column minimum becomes 0, the
      column maximum 1, and a column of zero range becomes 0 throughout. */
  lemma ScaleColumnRange(col: seq<real>, i: int)
    requires 0 <= i < |col|
    ensures 0.0 <= ScaleColumn(col)[i] <= 1.0
    ensures col[i] == ColMin(col) ==> ScaleColumn(col)[i] == 0.0
    ensures col[i] == ColMax(col) && ColMax(col) - ColMin(col) != 0.0 ==> ScaleColumn(col)[i] == 1.0
    ensures ColMax(col) - ColMin(col) == 0.0 ==> ScaleColumn(col)[i] == 0.0
  {
    assert ColMin(col) <= col[i] <= ColMax(col);
  }

  /** Scaling a column that is already scaled changes nothing: a scaled column
      has minimum 0 and maximum 1 (or is all zeros). */
  lemma {:induction false} ScaleColumnIdempotent(col: seq<real>)
    ensures ScaleColumn(ScaleColumn(col)) == ScaleColumn(col)
  {
    var s := ScaleColumn(col);
    if |col| > 0 {
      if ColMax(col) - ColMin(col) != 0.0 {
        ScaledRangeIsUnit(col);
      } else {
        assert forall i :: 0 <= i < |s| ==> s[i] == 0.0 by {
          forall i | 0 <= i < |s| ensures s[i] == 0.0 {
            ScaleColumnRange(col, i);
          }
        }
        assert ColMin(s) == 0.0 && ColMax(s) == 0.0 by {
          assert ColMin(s) in s && ColMax(s) in s;
        }
      }
      forall i | 0 <= i < |s| ensures ScaleColumn(s)[i] == s[i] {
        ScaleColumnAt(s, i);
        ScaleColumnRange(col, i);
      }
    }
  }

  /** A column of non-zero range scales to one whose minimum is 0 and whose
      maximum is 1. */
  lemma ScaledRangeIsUnit(col: seq<real>)
    requires |col| > 0 && ColMax(col) - ColMin(col) != 0.0
    ensures ColMin(ScaleColumn(col)) == 0.0 && ColMax(ScaleColumn(col)) == 1.0
  {
    var s := ScaleColumn(col);
    var iMin :| 0 <= iMin < |col| && col[iMin] == ColMin(col);
    var iMax :| 0 <= iMax < |col| && col[iMax] == ColMax(col);
    ScaleColumnRange(col, iMin);
    ScaleColumnRange(col, iMax);
    forall i | 0 <= i < |s| ensures 0.0 <= s[i] <= 1.0 {
      ScaleColumnRange(col, i);
    }
    MinIsAttained(s, iMin);
    MaxIsAttained(s, iMax);
  }

  /** An entry no larger than any other is the minimum. */
  lemma MinIsAttained(s: seq<real>, k: int)
    requires 0 <= k < |s| && forall i :: 0 <= i < |s| ==> s[k] <= s[i]
    ensures ColMin(s) == s[k]
  {
    var m := ColMin(s);
    assert m <= s[k];
    assert m in s;
  }

  /** An entry no smaller than any other is the maximum. */
  lemma MaxIsAttained(s: seq<real>, k: int)
    requires 0 <= k < |s| && forall i :: 0 <= i < |s| ==> s[i] <= s[k]
    ensures ColMax(s) == s[k]
  {
    var m := ColMax(s);
    assert s[k] <= m;
    assert m in s;
  }
}
