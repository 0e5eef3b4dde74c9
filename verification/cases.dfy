/** The case record (`Caso`) and the weighted Euclidean distance and similarity
    between two cases, as specification functions. `math.sqrt` is a library
    call: it enters as a parameter `sqrt` that must return the non-negative
    square root of every non-negative argument. */
module Cases {
  import opened OrderedDict

  /** `Caso(id, diagnosis, atributos)`: the attribute dict maps attribute names
      to values and remembers the order the names were inserted in. */
  datatype Case = Case(id: int, diagnosis: string, attrs: Dict<real>)

  /** `pesos.get(a, 1)`: an attribute without a weight weighs 1, and no weight
      is negative when none of the given ones is. */
  function Weight(pesos: map<string, real>, a: string): (w: real)
    ensures a !in pesos ==> w == 1.0
    ensures NonNegativeWeights(pesos) ==> w >= 0.0
  {
    if a in pesos then pesos[a] else 1.0
  }

  predicate NonNegativeWeights(pesos: map<string, real>) {
    forall a :: a in pesos ==> pesos[a] >= 0.0
  }

  /** `sqrt` behaves as `math.sqrt` on the non-negative reals: it returns the
      non-negative square root. `sqrt(0) == 0` follows from that, but the
      solver does not find it unaided, so it is stated as well. */
  ghost predicate IsSquareRoot(sqrt: real -> real) {
    && sqrt(0.0) == 0.0
    && forall x :: 0.0 <= x ==> IsRootOf(sqrt(x), x)
  }

  /** `r` is the non-negative square root of `x`. */
  predicate IsRootOf(r: real, x: real) {
    0.0 <= r && r * r == x
  }

  /** `c2` has a value for every attribute `c1` iterates over, so that
      `caso2.atributos[atributo]` never fails. */
  predicate Comparable(c1: Case, c2: Case) {
    && c1.attrs.Valid()
    && forall a :: a in c1.attrs.vals ==> a in c2.attrs.vals
  }

  /** The weighted sum of squared differences over `keys`, accumulated in key
      order: the running total `soma`. */
  function WeightedSqSum(keys: seq<string>, x: map<string, real>, y: map<string, real>, pesos: map<string, real>): (s: real)
    requires forall a :: a in keys ==> a in x && a in y
    ensures NonNegativeWeights(pesos) ==> s >= 0.0
  {
    if keys == [] then 0.0
    else
      var a := keys[|keys| - 1];
      var d := x[a] - y[a];
      WeightedSqSum(keys[..|keys| - 1], x, y, pesos) + SqTerm(Weight(pesos, a), d)
  }

  /** The contribution `w * diff ** 2` of one attribute to the sum. */
  function SqTerm(w: real, diff: real): (t: real)
    ensures w >= 0.0 ==> t >= 0.0
    ensures w == 0.0 || diff == 0.0 ==> t == 0.0
  {
    assert diff * diff >= 0.0;
    w * (diff * diff)
  }

  /** One more key adds its weighted squared difference `w * diff ** 2` to the
      running sum. */
  lemma SqSumStep(keys: seq<string>, i: nat, x: map<string, real>, y: map<string, real>, pesos: map<string, real>,
                  w: real, diff: real)
    requires i < |keys|
    requires forall a :: a in keys ==> a in x && a in y
    requires w == Weight(pesos, keys[i]) && diff == x[keys[i]] - y[keys[i]]
    ensures forall a :: a in keys[..i] ==> a in x && a in y
    ensures WeightedSqSum(keys[..i + 1], x, y, pesos) == WeightedSqSum(keys[..i], x, y, pesos) + SqTerm(w, diff)
  {
    var p := keys[..i + 1];
    var k := p[|p| - 1];
    assert p[..|p| - 1] == keys[..i] && k == keys[i];
    assert forall a :: a in p ==> a in keys;
    assert Weight(pesos, k) == w && x[k] - y[k] == diff;
  }

  /** The squared distance of two cases: the sum over the attributes of `c1`. */
  function SqSum(c1: Case, c2: Case, pesos: map<string, real>): real
    requires Comparable(c1, c2)
  {
    WeightedSqSum(c1.attrs.keys, c1.attrs.vals, c2.attrs.vals, pesos)
  }

  /** The weighted Euclidean distance: the non-negative number whose square is
      the weighted squared sum. */
  function DistanceOf(c1: Case, c2: Case, pesos: map<string, real>, sqrt: real -> real): (d: real)
    requires IsSquareRoot(sqrt) && NonNegativeWeights(pesos) && Comparable(c1, c2)
    ensures 0.0 <= d && d * d == SqSum(c1, c2, pesos)
  {
    sqrt(SqSum(c1, c2, pesos))
  }

  /** The similarity `1 / (1 + distance)`, which lies in (0, 1]. */
  function SimilarityOf(c1: Case, c2: Case, pesos: map<string, real>, sqrt: real -> real): (s: real)
    requires IsSquareRoot(sqrt) && NonNegativeWeights(pesos) && Comparable(c1, c2)
    ensures 0.0 < s <= 1.0
  {
    var d := DistanceOf(c1, c2, pesos, sqrt);
    InverseBounds(d);
    1.0 / (1.0 + d)
  }

  lemma InverseBounds(d: real)
    requires d >= 0.0
    ensures 0.0 < 1.0 / (1.0 + d) <= 1.0
  {
  }

  /** `sqrt` is zero only at zero. */
  lemma SqrtZero(sqrt: real -> real, x: real)
    requires IsSquareRoot(sqrt) && x >= 0.0
    ensures sqrt(x) == 0.0 <==> x == 0.0
  {
  }

  /** `sqrt` is strictly increasing. */
  lemma SqrtStrictlyIncreasing(sqrt: real -> real, x: real, y: real)
    requires IsSquareRoot(sqrt) && 0.0 <= x < y
    ensures sqrt(x) < sqrt(y)
  {
    var a, b := sqrt(x), sqrt(y);
    assert a >= 0.0 && b >= 0.0 && a * a == x && b * b == y;
    assert b + a > 0.0;
    assert (b - a) * (b + a) == y - x;
    assert b - a == (y - x) / (b + a);
  }

  /** `1 / (1 + d)` is strictly decreasing on the non-negative reals. */
  lemma InverseStrictlyDecreasing(d1: real, d2: real)
    requires 0.0 <= d1 < d2
    ensures 1.0 / (1.0 + d1) > 1.0 / (1.0 + d2)
  {
  }

  /** Comparing a case with itself gives a zero squared sum. */
  lemma {:induction false} SelfSqSumZero(keys: seq<string>, x: map<string, real>, pesos: map<string, real>)
    requires forall a :: a in keys ==> a in x
    ensures WeightedSqSum(keys, x, x, pesos) == 0.0
  {
    if keys != [] {
      SelfSqSumZero(keys[..|keys| - 1], x, pesos);
    }
  }

  /** Every case is at distance 0 from itself and has similarity 1 with itself,
      whatever the weights. */
  lemma SelfSimilarity(c: Case, pesos: map<string, real>, sqrt: real -> real)
    requires IsSquareRoot(sqrt) && NonNegativeWeights(pesos) && c.attrs.Valid()
    ensures Comparable(c, c)
    ensures DistanceOf(c, c, pesos, sqrt) == 0.0
    ensures SimilarityOf(c, c, pesos, sqrt) == 1.0
  {
    SelfSqSumZero(c.attrs.keys, c.attrs.vals, pesos);
    SqrtZero(sqrt, 0.0);
  }

  /** Similarity is exactly 1 when, and only when, the weighted squared sum is
      zero, that is when the distance is zero. */
  lemma SimilarityOneIffZeroDistance(c1: Case, c2: Case, pesos: map<string, real>, sqrt: real -> real)
    requires IsSquareRoot(sqrt) && NonNegativeWeights(pesos) && Comparable(c1, c2)
    ensures SimilarityOf(c1, c2, pesos, sqrt) == 1.0 <==> DistanceOf(c1, c2, pesos, sqrt) == 0.0
    ensures DistanceOf(c1, c2, pesos, sqrt) == 0.0 <==> SqSum(c1, c2, pesos) == 0.0
  {
    var d := DistanceOf(c1, c2, pesos, sqrt);
    SqrtZero(sqrt, SqSum(c1, c2, pesos));
    if d > 0.0 {
      InverseStrictlyDecreasing(0.0, d);
    }
  }

  /** Similarity is strictly decreasing in distance: of two cases, the nearer
      one is the more similar, and only the nearer one. */
  lemma SimilarityStrictlyDecreasing(a: Case, b: Case, c: Case, pesos: map<string, real>, sqrt: real -> real)
    requires IsSquareRoot(sqrt) && NonNegativeWeights(pesos) && Comparable(a, b) && Comparable(a, c)
    ensures DistanceOf(a, b, pesos, sqrt) < DistanceOf(a, c, pesos, sqrt)
        <==> SimilarityOf(a, b, pesos, sqrt) > SimilarityOf(a, c, pesos, sqrt)
  {
    var db, dc := DistanceOf(a, b, pesos, sqrt), DistanceOf(a, c, pesos, sqrt);
    if db < dc {
      InverseStrictlyDecreasing(db, dc);
    } else if dc < db {
      InverseStrictlyDecreasing(dc, db);
    }
  }

  /** The ranking order can be read off the squared sums: no square root is
      needed to compare two cases against the same query. */
  lemma SimilarityOrderBySqSum(a: Case, b: Case, c: Case, pesos: map<string, real>, sqrt: real -> real)
    requires IsSquareRoot(sqrt) && NonNegativeWeights(pesos) && Comparable(a, b) && Comparable(a, c)
    ensures SqSum(a, b, pesos) < SqSum(a, c, pesos)
        <==> SimilarityOf(a, b, pesos, sqrt) > SimilarityOf(a, c, pesos, sqrt)
  {
    var sb, sc := SqSum(a, b, pesos), SqSum(a, c, pesos);
    if sb < sc {
      SqrtStrictlyIncreasing(sqrt, sb, sc);
    } else if sc < sb {
      SqrtStrictlyIncreasing(sqrt, sc, sb);
    }
    SimilarityStrictlyDecreasing(a, b, c, pesos, sqrt);
  }

  /** An attribute of weight 0 contributes nothing: values that differ only at
      that attribute give the same sum, however far apart they are there. */
  lemma {:induction false} ZeroWeightCancels(keys: seq<string>, x: map<string, real>, y: map<string, real>,
                                             x': map<string, real>, y': map<string, real>,
                                             pesos: map<string, real>, k: string)
    requires forall a :: a in keys ==> a in x && a in y && a in x' && a in y'
    requires Weight(pesos, k) == 0.0
    requires forall a :: a in keys && a != k ==> x[a] == x'[a] && y[a] == y'[a]
    ensures WeightedSqSum(keys, x, y, pesos) == WeightedSqSum(keys, x', y', pesos)
  {
    if keys != [] {
      ZeroWeightCancels(keys[..|keys| - 1], x, y, x', y', pesos, k);
    }
  }

  /** At the level of cases: changing a zero-weight attribute of the stored case
      does not move its distance to the query. */
  lemma ZeroWeightIgnoresAttribute(c1: Case, c2: Case, pesos: map<string, real>, sqrt: real -> real,
                                   k: string, v: real)
    requires IsSquareRoot(sqrt) && NonNegativeWeights(pesos) && Comparable(c1, c2)
    requires Weight(pesos, k) == 0.0
    ensures Comparable(c1, c2.(attrs := c2.attrs.(vals := c2.attrs.vals[k := v])))
    ensures DistanceOf(c1, c2.(attrs := c2.attrs.(vals := c2.attrs.vals[k := v])), pesos, sqrt)
         == DistanceOf(c1, c2, pesos, sqrt)
  {
    var c2' := c2.(attrs := c2.attrs.(vals := c2.attrs.vals[k := v]));
    ZeroWeightCancels(c1.attrs.keys, c1.attrs.vals, c2.attrs.vals, c1.attrs.vals, c2'.attrs.vals, pesos, k);
  }
}
