/** A two-case base worked through by hand: a benign case equal to the query
    and a malignant case 5 units away on each of two attributes, both weighted
    1. */
module Scenario {
  import opened OrderedDict
  import opened Cases
  import opened Ranking
  import opened Cbr

  /** The attribute dict `{"r": r, "t": t}`. */
  function Attrs(r: real, t: real): (d: Dict<real>)
    ensures d.Valid() && d.keys == ["r", "t"]
    ensures d.vals == map["r" := r, "t" := t]
  {
    Dict(["r", "t"], map["r" := r, "t" := t])
  }

  /** Both attributes weigh 1. */
  const Weights: map<string, real> := map["r" := 1.0, "t" := 1.0]

  const Query: Case := Case(0, "Unknown", Attrs(5.0, 5.0))
  const BenignCase: Case := Case(1, "Benign", Attrs(5.0, 5.0))
  const MalignantCase: Case := Case(2, "Malignant", Attrs(10.0, 10.0))

  lemma WeightsNonNegative()
    ensures NonNegativeWeights(Weights)
    ensures Weight(Weights, "r") == 1.0 && Weight(Weights, "t") == 1.0
  {
  }

  /** Two cases over the same two attributes can be compared, and their
      squared sum is the sum of the two squared differences. */
  lemma TwoAttributeSqSum(c1: Case, c2: Case, r1: real, t1: real, r2: real, t2: real)
    requires c1.attrs == Attrs(r1, t1) && c2.attrs == Attrs(r2, t2)
    ensures Comparable(c1, c2)
    ensures SqSum(c1, c2, Weights) == (r1 - r2) * (r1 - r2) + (t1 - t2) * (t1 - t2)
  {
    var keys := ["r", "t"];
    WeightsNonNegative();
    SqSumStep(keys, 0, c1.attrs.vals, c2.attrs.vals, Weights, 1.0, r1 - r2);
    SqSumStep(keys, 1, c1.attrs.vals, c2.attrs.vals, Weights, 1.0, t1 - t2);
    assert keys[..0] == [] && keys[..2] == keys;
  }

  /** A number whose square is 50 lies strictly between 7.07 and 7.08. */
  lemma RootOfFifty(d: real)
    requires d >= 0.0 && d * d == 50.0
    ensures 7.07 < d < 7.08
  {
    var p := d + 7.07;
    assert (d - 7.07) * p == 0.0151;
    assert d - 7.07 == 0.0151 / p;
    assert (7.08 - d) * (7.08 + d) == 0.1264;
  }

  /** `1 / (1 + d)` for such a distance lies strictly between 0.1237 and
      0.1240. */
  lemma InverseOfRootOfFifty(d: real)
    requires 7.07 < d < 7.08
    ensures 0.1237 < 1.0 / (1.0 + d) < 0.1240
  {
    assert 1.0 / 8.08 < 1.0 / (1.0 + d) < 1.0 / 8.07;
  }

  /** The query matches the benign case exactly: distance 0, similarity 1. */
  lemma BenignScore(sqrt: real -> real)
    requires IsSquareRoot(sqrt)
    ensures Comparable(Query, BenignCase)
    ensures DistanceOf(Query, BenignCase, Weights, sqrt) == 0.0
    ensures SimilarityOf(Query, BenignCase, Weights, sqrt) == 1.0
  {
    WeightsNonNegative();
    assert Query.attrs == BenignCase.attrs;
    SelfSimilarity(BenignCase, Weights, sqrt);
  }

  /** The malignant case differs by 5 on both attributes: squared sum
      25 + 25 = 50, distance sqrt(50), about 7.0711, and similarity
      1 / (1 + sqrt(50)), about 0.1239. */
  lemma MalignantScore(sqrt: real -> real)
    requires IsSquareRoot(sqrt)
    ensures Comparable(Query, MalignantCase)
    ensures SqSum(Query, MalignantCase, Weights) == 50.0
    ensures 7.07 < DistanceOf(Query, MalignantCase, Weights, sqrt) < 7.08
    ensures 0.1237 < SimilarityOf(Query, MalignantCase, Weights, sqrt) < 0.1240
  {
    WeightsNonNegative();
    TwoAttributeSqSum(Query, MalignantCase, 5.0, 5.0, 10.0, 10.0);
    var d := DistanceOf(Query, MalignantCase, Weights, sqrt);
    RootOfFifty(d);
    InverseOfRootOfFifty(d);
  }

  /** Retrieval over two cases lists the more similar one first; on a tie the
      first case stays first. */
  lemma TwoCaseOrder(query: Case, c1: Case, c2: Case, pesos: map<string, real>, sqrt: real -> real)
    requires IsSquareRoot(sqrt) && NonNegativeWeights(pesos)
    requires Comparable(query, c1) && Comparable(query, c2)
    requires SimilarityOf(query, c1, pesos, sqrt) >= SimilarityOf(query, c2, pesos, sqrt)
    ensures SortDesc(Scores(query, [c1, c2], pesos, sqrt))
         == [(c1, SimilarityOf(query, c1, pesos, sqrt)), (c2, SimilarityOf(query, c2, pesos, sqrt))]
  {
    var s := [(c1, SimilarityOf(query, c1, pesos, sqrt)), (c2, SimilarityOf(query, c2, pesos, sqrt))];
    assert Scores(query, [c1, c2], pesos, sqrt) == s by {
      assert [c1, c2][..1] == [c1];
      assert [c1][..0] == [];
    }
    SortDescOfSorted(s);
  }

  /** Retrieval over the base [benign, malignant] lists the benign case first
      with similarity 1, then the malignant case with its lower similarity. */
  lemma TwoCaseRanking(sqrt: real -> real)
    requires IsSquareRoot(sqrt)
    ensures Comparable(Query, BenignCase) && Comparable(Query, MalignantCase)
    ensures SortDesc(Scores(Query, [BenignCase, MalignantCase], Weights, sqrt))
         == [(BenignCase, 1.0), (MalignantCase, SimilarityOf(Query, MalignantCase, Weights, sqrt))]
  {
    WeightsNonNegative();
    BenignScore(sqrt);
    MalignantScore(sqrt);
    TwoCaseOrder(Query, BenignCase, MalignantCase, Weights, sqrt);
  }
}
