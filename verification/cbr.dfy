/** The case base of `src/cbr.py`: built once from the reference table, with
    optional min-max scaling of the chosen columns, and queried by weighted
    similarity. */
module Cbr {
  import opened OrderedDict
  import opened ColumnStats
  import opened Frame
  import opened Cases
  import opened Ranking
  import Normalize

  /** `{attr: row[attr] for attr in atributos}` for row `i` of `cols`. */
  function RowDict(cols: map<string, seq<real>>, atributos: seq<string>, i: nat): (d: Dict<real>)
    requires forall a :: a in atributos ==> a in cols && i < |cols[a]|
    ensures d.Valid()
  {
    if atributos == [] then Empty()
    else
      var n := |atributos| - 1;
      Insert(RowDict(cols, atributos[..n], i), atributos[n], cols[atributos[n]][i])
  }

  /** The row dict lists each chosen attribute once, in the order it was first
      chosen, and holds the row's value for each; a name chosen twice is
      assigned twice, to the same value. */
  lemma RowDictFacts(cols: map<string, seq<real>>, atributos: seq<string>, i: nat)
    requires forall a :: a in atributos ==> a in cols && i < |cols[a]|
    ensures RowDict(cols, atributos, i).keys == Dedup(atributos)
    ensures forall a :: a in RowDict(cols, atributos, i).vals <==> a in atributos
    ensures forall a :: a in atributos ==> RowDict(cols, atributos, i).vals[a] == cols[a][i]
  {
    RowDictKeys(cols, atributos, i);
    forall a | a in atributos ensures a in RowDict(cols, atributos, i).vals && RowDict(cols, atributos, i).vals[a] == cols[a][i] {
      RowDictAt(cols, atributos, i, a);
    }
  }

  lemma {:induction false} RowDictKeys(cols: map<string, seq<real>>, atributos: seq<string>, i: nat)
    requires forall a :: a in atributos ==> a in cols && i < |cols[a]|
    ensures RowDict(cols, atributos, i).keys == Dedup(atributos)
  {
    if atributos != [] {
      var n := |atributos| - 1;
      var prev := RowDict(cols, atributos[..n], i);
      RowDictKeys(cols, atributos[..n], i);
      assert atributos[n] in prev.vals <==> atributos[n] in Dedup(atributos[..n]);
    }
  }

  /** The entry of one chosen attribute: the last assignment to it wins, and
      every assignment to it writes the same row value. */
  lemma {:induction false} RowDictAt(cols: map<string, seq<real>>, atributos: seq<string>, i: nat, a: string)
    requires forall a :: a in atributos ==> a in cols && i < |cols[a]|
    requires a in atributos
    ensures a in RowDict(cols, atributos, i).vals && RowDict(cols, atributos, i).vals[a] == cols[a][i]
  {
    var n := |atributos| - 1;
    if a != atributos[n] {
      assert a in atributos[..n] by {
        assert atributos == atributos[..n] + [atributos[n]];
      }
      RowDictAt(cols, atributos[..n], i, a);
    }
  }

  /** The columns the cases are read from: with scaling on, each chosen column
      min-max scaled over the whole table; every other column as it was. */
  function StoredColumns(t: Table, atributos: seq<string>, normalizar: bool): (cols: map<string, seq<real>>)
    requires t.Valid()
    ensures forall a :: a in cols <==> a in t.columns
    ensures forall a :: a in cols ==> |cols[a]| == t.Rows()
    ensures !normalizar ==> cols == t.columns
  {
    if normalizar then
      map a | a in t.columns :: if a in atributos then ScaleColumn(t.columns[a]) else t.columns[a]
    else
      t.columns
  }

  /** Scaling the next chosen column in place keeps the scaling loop's
      invariant: a chosen column is scaled once, however often it is chosen,
      because scaling is idempotent. */
  lemma ScaleStep(t: Table, atributos: seq<string>, j: nat, columns: map<string, seq<real>>)
    requires j < |atributos| && atributos[j] in t.columns
    requires forall a :: a in columns <==> a in t.columns
    requires forall a :: a in columns ==>
      columns[a] == if a in atributos[..j] then ScaleColumn(t.columns[a]) else t.columns[a]
    ensures forall a :: a in columns[atributos[j] := ScaleColumn(columns[atributos[j]])] <==> a in t.columns
    ensures forall a :: a in columns[atributos[j] := ScaleColumn(columns[atributos[j]])] ==>
      columns[atributos[j] := ScaleColumn(columns[atributos[j]])][a]
        == if a in atributos[..j + 1] then ScaleColumn(t.columns[a]) else t.columns[a]
  {
    var attr := atributos[j];
    assert forall a :: a in atributos[..j + 1] <==> a in atributos[..j] || a == attr by {
      assert atributos[..j + 1] == atributos[..j] + [attr];
    }
    assert ScaleColumn(columns[attr]) == ScaleColumn(t.columns[attr]) by {
      if attr in atributos[..j] {
        ScaleColumnIdempotent(t.columns[attr]);
      }
    }
  }

  /** A column map that agrees with the stored columns key by key is the
      stored column map. */
  lemma StoredColumnsByKeys(t: Table, atributos: seq<string>, normalizar: bool, columns: map<string, seq<real>>)
    requires t.Valid()
    requires forall a :: a in columns <==> a in t.columns
    requires normalizar ==> forall a :: a in columns ==>
      columns[a] == if a in atributos then ScaleColumn(t.columns[a]) else t.columns[a]
    requires !normalizar ==> columns == t.columns
    ensures columns == StoredColumns(t, atributos, normalizar)
  {
  }

  /** Row `i` read from the stored columns is the case of row `i`. */
  lemma RowOfStoredColumns(t: Table, atributos: seq<string>, normalizar: bool, columns: map<string, seq<real>>, i: nat)
    requires t.Valid() && i < t.Rows()
    requires forall a :: a in atributos ==> a in t.columns
    requires columns == StoredColumns(t, atributos, normalizar)
    ensures forall a :: a in atributos ==> a in columns && i < |columns[a]|
    ensures Case(t.ids[i], t.diagnoses[i], RowDict(columns, atributos, i)) == RowCase(t, atributos, normalizar, i)
  {
  }

  /** The value the case base stores for a chosen attribute `a` of row `i`.
      With scaling off it is the table's value; with scaling on it lies in
      [0, 1], the column minimum becomes 0, the column maximum 1, and a column
      of zero range becomes 0 throughout. */
  function StoredValue(t: Table, a: string, i: nat, normalizar: bool): (v: real)
    requires t.Valid() && a in t.columns && i < t.Rows()
    ensures !normalizar ==> v == t.columns[a][i]
    ensures normalizar ==> 0.0 <= v <= 1.0
    ensures normalizar && t.columns[a][i] == ColMin(t.columns[a]) ==> v == 0.0
    ensures (normalizar && t.columns[a][i] == ColMax(t.columns[a])
             && ColMax(t.columns[a]) - ColMin(t.columns[a]) != 0.0) ==> v == 1.0
    ensures normalizar && ColMax(t.columns[a]) - ColMin(t.columns[a]) == 0.0 ==> v == 0.0
  {
    if normalizar then
      ScaleColumnRange(t.columns[a], i);
      ScaleColumn(t.columns[a])[i]
    else
      t.columns[a][i]
  }

  /** The case the constructor builds for row `i`. */
  function RowCase(t: Table, atributos: seq<string>, normalizar: bool, i: nat): Case
    requires t.Valid() && i < t.Rows()
    requires forall a :: a in atributos ==> a in t.columns
  {
    Case(t.ids[i], t.diagnoses[i], RowDict(StoredColumns(t, atributos, normalizar), atributos, i))
  }

  /** The case of row `i` carries the row's `ID` and `Diagnosis`, and its
      attribute dict has one entry per distinct chosen attribute, in the order
      the attributes were first chosen, each holding the stored value. */
  lemma RowCaseFacts(t: Table, atributos: seq<string>, normalizar: bool, i: nat)
    requires t.Valid() && i < t.Rows()
    requires forall a :: a in atributos ==> a in t.columns
    ensures RowCase(t, atributos, normalizar, i).id == t.ids[i]
    ensures RowCase(t, atributos, normalizar, i).diagnosis == t.diagnoses[i]
    ensures RowCase(t, atributos, normalizar, i).attrs.Valid()
    ensures RowCase(t, atributos, normalizar, i).attrs.keys == Dedup(atributos)
    ensures forall a :: a in RowCase(t, atributos, normalizar, i).attrs.vals <==> a in atributos
    ensures forall a :: a in atributos ==> RowCase(t, atributos, normalizar, i).attrs.vals[a] == StoredValue(t, a, i, normalizar)
  {
    RowDictFacts(StoredColumns(t, atributos, normalizar), atributos, i);
  }

  /** Scaling a table row with `normalize_data` gives exactly the attribute
      dict the case base stores for that row when scaling is on: the query and
      the stored cases are scaled with the same statistics and formula. */
  lemma QueryScalingMatchesStored(t: Table, atributos: seq<string>, i: nat)
    requires t.Valid() && i < t.Rows()
    requires forall a :: a in atributos ==> a in t.columns
    ensures Normalize.Covers(t, RowDict(t.columns, atributos, i))
    ensures Normalize.MinMaxDict(t, RowDict(t.columns, atributos, i)) == RowCase(t, atributos, true, i).attrs
  {
    RowCovers(t, atributos, i);
    RowDictKeys(t.columns, atributos, i);
    RowDictKeys(StoredColumns(t, atributos, true), atributos, i);
    ScaledRowValues(t, atributos, i);
  }

  /** A table row, as a dict, is a query the table can scale. */
  lemma RowCovers(t: Table, atributos: seq<string>, i: nat)
    requires t.Valid() && i < t.Rows()
    requires forall a :: a in atributos ==> a in t.columns
    ensures Normalize.Covers(t, RowDict(t.columns, atributos, i))
  {
    RowDictKeys(t.columns, atributos, i);
  }

  lemma ScaledRowValues(t: Table, atributos: seq<string>, i: nat)
    requires t.Valid() && i < t.Rows()
    requires forall a :: a in atributos ==> a in t.columns
    requires Normalize.Covers(t, RowDict(t.columns, atributos, i))
    ensures Normalize.MinMaxDict(t, RowDict(t.columns, atributos, i)).vals
         == RowDict(StoredColumns(t, atributos, true), atributos, i).vals
  {
    var cols := StoredColumns(t, atributos, true);
    var raw, stored := RowDict(t.columns, atributos, i), RowDict(cols, atributos, i);
    var scaled := Normalize.MinMaxDict(t, raw);
    assert scaled.vals.Keys == stored.vals.Keys by {
      RowDictKeys(t.columns, atributos, i);
      RowDictKeys(cols, atributos, i);
      SameOrderSameKeys(raw, stored);
    }
    assert forall a :: a in stored.vals ==> scaled.vals[a] == stored.vals[a] by {
      forall a | a in stored.vals ensures scaled.vals[a] == stored.vals[a] {
        assert a in atributos by {
          RowDictKeys(cols, atributos, i);
        }
        RowDictAt(t.columns, atributos, i, a);
        RowDictAt(cols, atributos, i, a);
        ScaledEntry(t, atributos, i, a, raw.vals[a], stored.vals[a]);
      }
    }
    MapsAgree(scaled.vals, stored.vals);
  }

  /** One attribute of a scaled row: the formula applied to the raw value is
      the stored scaled value. */
  lemma ScaledEntry(t: Table, atributos: seq<string>, i: nat, a: string, v: real, w: real)
    requires t.Valid() && i < t.Rows() && a in atributos && a in t.columns
    requires v == t.columns[a][i] && w == StoredColumns(t, atributos, true)[a][i]
    ensures Normalize.MinMaxAgainst(t, a, v) == w
  {
    ScaleColumnAt(t.columns[a], i);
  }

  /** Each stored case paired with its similarity to the query, in base order. */
  function Scores(query: Case, cs: seq<Case>, pesos: map<string, real>, sqrt: real -> real): (r: seq<(Case, real)>)
    requires IsSquareRoot(sqrt) && NonNegativeWeights(pesos)
    requires forall c :: c in cs ==> Comparable(query, c)
    ensures Firsts(r) == cs
    ensures forall p :: p in r ==> p.0 in cs && p.1 == SimilarityOf(query, p.0, pesos, sqrt)
  {
    if cs == [] then []
    else
      var n := |cs| - 1;
      var prev := Scores(query, cs[..n], pesos, sqrt);
      var last := (cs[n], SimilarityOf(query, cs[n], pesos, sqrt));
      var r := prev + [last];
      assert Firsts(r) == cs by {
        FirstsAppendOne(prev, last);
        SplitLast(cs);
      }
      assert forall p :: p in r ==> p.0 in cs && p.1 == SimilarityOf(query, p.0, pesos, sqrt) by {
        forall p | p in r ensures p.0 in cs && p.1 == SimilarityOf(query, p.0, pesos, sqrt) {
          if p != last {
            assert p in prev && p.0 in cs[..n];
          }
        }
      }
      r
  }

  /** Scoring one more case appends its pair. */
  lemma ScoresStep(query: Case, cs: seq<Case>, i: nat, pesos: map<string, real>, sqrt: real -> real, sim: real)
    requires IsSquareRoot(sqrt) && NonNegativeWeights(pesos)
    requires forall c :: c in cs ==> Comparable(query, c)
    requires i < |cs| && sim == SimilarityOf(query, cs[i], pesos, sqrt)
    ensures forall c :: c in cs[..i] ==> Comparable(query, c)
    ensures forall c :: c in cs[..i + 1] ==> Comparable(query, c)
    ensures Scores(query, cs[..i + 1], pesos, sqrt) == Scores(query, cs[..i], pesos, sqrt) + [(cs[i], sim)]
  {
    assert cs[..i + 1][..i] == cs[..i];
  }

  /** What the sorted ranking holds, read off the sort's own properties. */
  lemma RankingFacts(query: Case, cs: seq<Case>, pesos: map<string, real>, sqrt: real -> real)
    requires IsSquareRoot(sqrt) && NonNegativeWeights(pesos)
    requires forall c :: c in cs ==> Comparable(query, c)
    ensures |SortDesc(Scores(query, cs, pesos, sqrt))| == |cs|
    ensures multiset(Firsts(SortDesc(Scores(query, cs, pesos, sqrt)))) == multiset(cs)
    ensures forall p :: p in SortDesc(Scores(query, cs, pesos, sqrt)) ==>
      p.0 in cs && p.1 == SimilarityOf(query, p.0, pesos, sqrt)
    ensures SortedDesc(SortDesc(Scores(query, cs, pesos, sqrt)))
    ensures forall v :: Ties(SortDesc(Scores(query, cs, pesos, sqrt)), v) == Ties(Scores(query, cs, pesos, sqrt), v)
  {
    var s := Scores(query, cs, pesos, sqrt);
    SortDescCorrect(s);
    forall p | p in SortDesc(s) ensures p.0 in cs && p.1 == SimilarityOf(query, p.0, pesos, sqrt) {
      assert p in multiset(s);
    }
  }

  /** The similarity computed from the finished running sum is the case
      similarity, and it is 1 exactly when the sum is 0. */
  lemma SimilarityOfSum(c1: Case, c2: Case, pesos: map<string, real>, sqrt: real -> real, soma: real)
    requires IsSquareRoot(sqrt) && NonNegativeWeights(pesos) && Comparable(c1, c2)
    requires soma == SqSum(c1, c2, pesos)
    ensures 1.0 / (1.0 + sqrt(soma)) == SimilarityOf(c1, c2, pesos, sqrt)
    ensures 1.0 / (1.0 + sqrt(soma)) == 1.0 <==> soma == 0.0
  {
    SimilarityOneIffZeroDistance(c1, c2, pesos, sqrt);
  }

  /** The scaling loop of `BaseDeCasos.__init__` on a copy of the table's
      columns: each chosen column, in turn, replaced by its min-max scaled
      version. A column chosen twice is scaled twice, which changes nothing
      the second time. */
  method ScaleChosenColumns(t: Table, atributos: seq<string>) returns (columns: map<string, seq<real>>)
    requires t.Valid()
    requires forall a :: a in atributos ==> a in t.columns
    ensures columns == StoredColumns(t, atributos, true)
  {
    columns := t.columns;
    for j := 0 to |atributos|
      invariant forall a :: a in columns <==> a in t.columns
      invariant forall a :: a in columns ==>
        columns[a] == if a in atributos[..j] then ScaleColumn(t.columns[a]) else t.columns[a]
    {
      var attr := atributos[j];
      ScaleStep(t, atributos, j, columns);
      columns := columns[attr := ScaleColumn(columns[attr])];
    }
    assert atributos[..|atributos|] == atributos;
    StoredColumnsByKeys(t, atributos, true, columns);
  }

  /** The row loop of `BaseDeCasos.__init__`: one case per row, in row order,
      read from the stored columns. */
  method BuildCases(t: Table, atributos: seq<string>, normalizar: bool, columns: map<string, seq<real>>)
    returns (built: seq<Case>)
    requires t.Valid()
    requires forall a :: a in atributos ==> a in t.columns
    requires columns == StoredColumns(t, atributos, normalizar)
    ensures |built| == t.Rows()
    ensures forall i :: 0 <= i < |built| ==> built[i] == RowCase(t, atributos, normalizar, i)
  {
    built := [];
    for i := 0 to t.Rows()
      invariant |built| == i
      invariant forall r :: 0 <= r < i ==> built[r] == RowCase(t, atributos, normalizar, r)
    {
      RowOfStoredColumns(t, atributos, normalizar, columns, i);
      var atributosRow := RowDict(columns, atributos, i);
      var caso := Case(t.ids[i], t.diagnoses[i], atributosRow);
      built := built + [caso];
    }
  }

  /** `BaseDeCasos`. */
  class CaseBase {
    var cases: seq<Case>

    /** `BaseDeCasos(dataframe, atributos_relevantes, normalizar)`: one case per
        table row, in row order, holding the row's `ID` and `Diagnosis` and the
        chosen attributes, min-max scaled over the whole table when
        `normalizar` holds. The table is a value, so the caller's table is the
        same afterwards; scaling works on a copy of its columns. The source's
        default `normalizar=False` has no counterpart: callers pass the flag. */
    constructor (t: Table, atributos: seq<string>, normalizar: bool)
      requires t.Valid()
      requires forall a :: a in atributos ==> a in t.columns
      ensures |cases| == t.Rows()
      ensures forall i :: 0 <= i < |cases| ==> cases[i] == RowCase(t, atributos, normalizar, i)
    {
      var columns := t.columns;
      if normalizar {
        columns := ScaleChosenColumns(t, atributos);
      }
      var built := BuildCases(t, atributos, normalizar, columns);
      cases := built;
    }

    /** `calcular_distancia`: the weighted Euclidean distance from `c1` to `c2`
        over the attributes of `c1`. */
    method Distance(c1: Case, c2: Case, pesos: map<string, real>, sqrt: real -> real) returns (distancia: real)
      requires IsSquareRoot(sqrt) && NonNegativeWeights(pesos) && Comparable(c1, c2)
      ensures distancia == DistanceOf(c1, c2, pesos, sqrt)
    {
      var keys, x, y := c1.attrs.keys, c1.attrs.vals, c2.attrs.vals;
      var soma := 0.0;
      for i := 0 to |keys|
        invariant soma == WeightedSqSum(keys[..i], x, y, pesos)
      {
        var atributo := keys[i];
        var w := if atributo in pesos then pesos[atributo] else 1.0;
        var diff := x[atributo] - y[atributo];
        SqSumStep(keys, i, x, y, pesos, w, diff);
        soma := soma + SqTerm(w, diff);
      }
      assert soma == SqSum(c1, c2, pesos) by {
        assert keys[..|keys|] == keys;
      }
      distancia := sqrt(soma);
    }

    /** `calcular_similaridade`: `1 / (1 + d)` for the weighted Euclidean
        distance `d` from `c1` to `c2`; it lies in (0, 1]. */
    method Similarity(c1: Case, c2: Case, pesos: map<string, real>, sqrt: real -> real) returns (similaridade: real)
      requires IsSquareRoot(sqrt) && NonNegativeWeights(pesos) && Comparable(c1, c2)
      ensures 0.0 < similaridade <= 1.0
      ensures similaridade == SimilarityOf(c1, c2, pesos, sqrt)
      ensures similaridade == 1.0 <==> SqSum(c1, c2, pesos) == 0.0
    {
      var keys, x, y := c1.attrs.keys, c1.attrs.vals, c2.attrs.vals;
      var soma := 0.0;
      for i := 0 to |keys|
        invariant soma == WeightedSqSum(keys[..i], x, y, pesos)
      {
        var atributo := keys[i];
        var w := if atributo in pesos then pesos[atributo] else 1.0;
        var diff := x[atributo] - y[atributo];
        SqSumStep(keys, i, x, y, pesos, w, diff);
        soma := soma + SqTerm(w, diff);
      }
      assert soma == SqSum(c1, c2, pesos) by {
        assert keys[..|keys|] == keys;
      }
      var distancia := sqrt(soma);
      similaridade := 1.0 / (1.0 + distancia);
      assert similaridade == SimilarityOf(c1, c2, pesos, sqrt) && (similaridade == 1.0 <==> soma == 0.0) by {
        SimilarityOfSum(c1, c2, pesos, sqrt, soma);
      }
    }

    /** `recuperar_casos_similares`: every stored case paired with its own
        similarity to the query, sorted by non-increasing similarity, cases of
        equal similarity in base order. */
    method Retrieve(query: Case, pesos: map<string, real>, sqrt: real -> real) returns (ranking: seq<(Case, real)>)
      requires IsSquareRoot(sqrt) && NonNegativeWeights(pesos)
      requires forall c :: c in cases ==> Comparable(query, c)
      ensures ranking == SortDesc(Scores(query, cases, pesos, sqrt))
      ensures |ranking| == |cases|
      ensures multiset(Firsts(ranking)) == multiset(cases)
      ensures forall p :: p in ranking ==> p.0 in cases && p.1 == SimilarityOf(query, p.0, pesos, sqrt)
      ensures SortedDesc(ranking)
      ensures forall v :: Ties(ranking, v) == Ties(Scores(query, cases, pesos, sqrt), v)
    {
      var cs := cases;
      var similaridades := [];
      for i := 0 to |cs|
        invariant similaridades == Scores(query, cs[..i], pesos, sqrt)
      {
        var caso := cs[i];
        var similaridade := Similarity(query, caso, pesos, sqrt);
        ScoresStep(query, cs, i, pesos, sqrt, similaridade);
        similaridades := similaridades + [(caso, similaridade)];
      }
      assert cs[..|cs|] == cs;
      ranking := SortDesc(similaridades);
      RankingFacts(query, cs, pesos, sqrt);
    }
  }
}
