/** The two query normalisers of `src/utils.py`: each rescales the values of an
    attribute map, key by key, against statistics of the reference table. */
module Normalize {
  import opened OrderedDict
  import opened ColumnStats
  import opened Frame

  /** The table can supply statistics for every key of the query map. */
  predicate Covers(t: Table, entrada: Dict<real>) {
    && t.Valid()
    && t.Rows() > 0
    && entrada.Valid()
    && forall k :: k in entrada.vals ==> k in t.columns
  }

  /** Min-max scaling of `v` against column `a` of the whole table. */
  function MinMaxAgainst(t: Table, a: string, v: real): real
    requires t.Valid() && t.Rows() > 0 && a in t.columns
  {
    MinMaxScale(v, ColMin(t.columns[a]), ColMax(t.columns[a]))
  }

  /** What `normalize_data` returns: the same keys in the same order, each value
      min-max scaled against its own column. */
  function MinMaxDict(t: Table, entrada: Dict<real>): Dict<real>
    requires Covers(t, entrada)
  {
    Dict(entrada.keys, map k | k in entrada.vals :: MinMaxAgainst(t, k, entrada.vals[k]))
  }

  /** Standardisation of `v` against the mean of column `a` and the deviation
      `std`. */
  function ZScoreAgainst(t: Table, a: string, v: real, std: real): real
    requires t.Valid() && t.Rows() > 0 && a in t.columns
  {
    ZScore(v, ColMean(t.columns[a]), std)
  }

  /** What `zscore_normalize` returns, with the per-column standard deviations
      supplied as `stds`. */
  function ZScoreDict(t: Table, entrada: Dict<real>, stds: map<string, real>): Dict<real>
    requires Covers(t, entrada)
    requires forall k :: k in entrada.vals ==> k in stds
  {
    Dict(entrada.keys, map k | k in entrada.vals :: ZScoreAgainst(t, k, entrada.vals[k], stds[k]))
  }

  /** `normalize_data(dataframe, entrada)`. */
  method NormalizeData(t: Table, entrada: Dict<real>) returns (normalized: Dict<real>)
    requires Covers(t, entrada)
    ensures normalized == MinMaxDict(t, entrada)
    ensures normalized.Valid() && normalized.keys == entrada.keys
    ensures forall k :: k in entrada.vals ==> normalized.vals[k] == MinMaxAgainst(t, k, entrada.vals[k])
  {
    normalized := Empty();
    var i := 0;
    while i < |entrada.keys|
      invariant 0 <= i <= |entrada.keys|
      invariant normalized.Valid()
      invariant normalized.keys == entrada.keys[..i]
      invariant forall k :: k in normalized.vals ==> k in entrada.vals
      invariant forall k :: k in normalized.vals ==> normalized.vals[k] == MinMaxAgainst(t, k, entrada.vals[k])
    {
      var attr := entrada.keys[i];
      var val := entrada.vals[attr];
      var minVal := ColMin(t.columns[attr]);
      var maxVal := ColMax(t.columns[attr]);
      var normalizedVal;
      if maxVal - minVal != 0.0 {
        normalizedVal := (val - minVal) / (maxVal - minVal);
      } else {
        normalizedVal := 0.0;
      }
      assert normalizedVal == MinMaxAgainst(t, attr, val);
      InsertNextKey(normalized, entrada, i, normalizedVal);
      normalized := Insert(normalized, attr, normalizedVal);
      i := i + 1;
    }
    assert entrada.keys[..i] == entrada.keys;
    MinMaxDictByKeys(t, entrada, normalized);
  }

  /** A dict with the query's key order whose every value is the scaled input
      value is the min-max result. */
  lemma MinMaxDictByKeys(t: Table, entrada: Dict<real>, d: Dict<real>)
    requires Covers(t, entrada) && d.Valid() && d.keys == entrada.keys
    requires forall k :: k in d.vals ==> k in entrada.vals && d.vals[k] == MinMaxAgainst(t, k, entrada.vals[k])
    ensures d == MinMaxDict(t, entrada)
  {
    assert d.vals.Keys == entrada.vals.Keys;
  }

  /** `zscore_normalize(dataframe, entrada)`; `stds[k]` stands for the standard
      deviation of column `k`. */
  method ZScoreNormalize(t: Table, entrada: Dict<real>, stds: map<string, real>) returns (normalized: Dict<real>)
    requires Covers(t, entrada)
    requires forall k :: k in entrada.vals ==> k in stds
    ensures normalized == ZScoreDict(t, entrada, stds)
    ensures normalized.Valid() && normalized.keys == entrada.keys
    ensures forall k :: k in entrada.vals ==>
      normalized.vals[k] == ZScore(entrada.vals[k], ColMean(t.columns[k]), stds[k])
  {
    normalized := Empty();
    var i := 0;
    while i < |entrada.keys|
      invariant 0 <= i <= |entrada.keys|
      invariant normalized.Valid()
      invariant normalized.keys == entrada.keys[..i]
      invariant forall k :: k in normalized.vals ==> k in entrada.vals
      invariant forall k :: k in normalized.vals ==>
        normalized.vals[k] == ZScoreAgainst(t, k, entrada.vals[k], stds[k])
    {
      var attr := entrada.keys[i];
      var val := entrada.vals[attr];
      var meanVal := ColMean(t.columns[attr]);
      var stdVal := stds[attr];
      var normalizedVal;
      if stdVal != 0.0 {
        normalizedVal := (val - meanVal) / stdVal;
      } else {
        normalizedVal := 0.0;
      }
      assert normalizedVal == ZScoreAgainst(t, attr, val, stdVal);
      InsertNextKey(normalized, entrada, i, normalizedVal);
      normalized := Insert(normalized, attr, normalizedVal);
      i := i + 1;
    }
    assert entrada.keys[..i] == entrada.keys;
    ZScoreDictByKeys(t, entrada, stds, normalized);
  }

  lemma ZScoreDictByKeys(t: Table, entrada: Dict<real>, stds: map<string, real>, d: Dict<real>)
    requires Covers(t, entrada) && d.Valid() && d.keys == entrada.keys
    requires forall k :: k in entrada.vals ==> k in stds
    requires forall k :: k in d.vals ==>
      k in entrada.vals && d.vals[k] == ZScoreAgainst(t, k, entrada.vals[k], stds[k])
    ensures d == ZScoreDict(t, entrada, stds)
  {
    assert d.vals.Keys == entrada.vals.Keys;
  }

  /** Each key of the min-max result depends on that key's input value only:
      changing one input leaves every other output as it was. */
  lemma MinMaxKeyIndependent(t: Table, entrada: Dict<real>, k: string, v: real)
    requires Covers(t, entrada) && k in entrada.vals
    ensures Covers(t, Dict(entrada.keys, entrada.vals[k := v]))
    ensures forall j :: j in entrada.vals && j != k ==>
      MinMaxDict(t, Dict(entrada.keys, entrada.vals[k := v])).vals[j] == MinMaxDict(t, entrada).vals[j]
    ensures MinMaxDict(t, Dict(entrada.keys, entrada.vals[k := v])).vals[k] == MinMaxAgainst(t, k, v)
  {
  }

  /** Each min-max output lies in [0, 1] when its input lies within its
      column's range; an input at the column minimum gives 0, one at the
      maximum of a column of non-zero range gives 1, and a column of zero range
      gives 0 whatever the input. */
  lemma MinMaxDictFacts(t: Table, entrada: Dict<real>)
    requires Covers(t, entrada)
    ensures MinMaxDict(t, entrada).Valid() && MinMaxDict(t, entrada).keys == entrada.keys
    ensures forall k :: k in entrada.vals ==>
      var col, v, r := t.columns[k], entrada.vals[k], MinMaxDict(t, entrada).vals[k];
      && (ColMin(col) <= v <= ColMax(col) ==> 0.0 <= r <= 1.0)
      && (v == ColMin(col) ==> r == 0.0)
      && (v == ColMax(col) && ColMax(col) - ColMin(col) != 0.0 ==> r == 1.0)
      && (ColMax(col) - ColMin(col) == 0.0 ==> r == 0.0)
  {
  }

  /** An input equal to its column's mean standardises to 0, and a zero
      deviation gives 0 whatever the input. */
  lemma ZScoreDictFacts(t: Table, entrada: Dict<real>, stds: map<string, real>)
    requires Covers(t, entrada)
    requires forall k :: k in entrada.vals ==> k in stds
    ensures forall k :: k in entrada.vals && entrada.vals[k] == ColMean(t.columns[k]) ==>
      ZScoreDict(t, entrada, stds).vals[k] == 0.0
    ensures forall k :: k in entrada.vals && stds[k] == 0.0 ==> ZScoreDict(t, entrada, stds).vals[k] == 0.0
  {
  }
}
