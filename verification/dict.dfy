/** An insertion-ordered dictionary with string keys, as Python's `dict` behaves:
    iteration visits keys in the order they were first inserted, and assigning to
    an existing key replaces its value without moving it. */
module OrderedDict {

  datatype Dict<V> = Dict(keys: seq<string>, vals: map<string, V>) {

    /** The key order lists every key of the map exactly once. */
    predicate Valid() {
      && Distinct(keys)
      && (forall k :: k in keys ==> k in vals)
      && (forall k :: k in vals ==> k in keys)
    }
  }

  function Empty<V>(): (d: Dict<V>)
    ensures d.Valid() && d.keys == [] && d.vals == map[]
  {
    Dict([], map[])
  }

  /** `d[k] = v`. */
  function Insert<V>(d: Dict<V>, k: string, v: V): (r: Dict<V>)
    requires d.Valid()
    ensures r.Valid()
    ensures r.vals == d.vals[k := v]
    ensures k in d.vals ==> r.keys == d.keys
    ensures k !in d.vals ==> r.keys == d.keys + [k]
  {
    if k in d.vals then Dict(d.keys, d.vals[k := v]) else Dict(d.keys + [k], d.vals[k := v])
  }

  /** Two dicts with the same key order have the same keys. */
  lemma SameOrderSameKeys<V, W>(d: Dict<V>, e: Dict<W>)
    requires d.Valid() && e.Valid() && d.keys == e.keys
    ensures d.vals.Keys == e.vals.Keys
  {
  }

  /** Two maps with the same keys and the same value at every key are equal. */
  lemma MapsAgree<V>(m: map<string, V>, n: map<string, V>)
    requires m.Keys == n.Keys
    requires forall k :: k in n ==> m[k] == n[k]
    ensures m == n
  {
  }

  /** Filling `d` with the keys of `src` in `src`'s order: the next key of
      `src` is new to `d`, and inserting it extends `d`'s key order by it. */
  lemma InsertNextKey<V, W>(d: Dict<V>, src: Dict<W>, i: nat, v: V)
    requires d.Valid() && src.Valid() && i < |src.keys| && d.keys == src.keys[..i]
    ensures src.keys[i] !in d.vals
    ensures Insert(d, src.keys[i], v).keys == src.keys[..i + 1]
  {
    assert src.keys[..i + 1] == src.keys[..i] + [src.keys[i]];
  }

  /** The elements of `s` in order of first occurrence: the key order of a dict
      filled by assigning the keys of `s` one after another. */
  function Dedup(s: seq<string>): (r: seq<string>)
    ensures forall k :: k in r <==> k in s
    ensures Distinct(r)
  {
    if s == [] then []
    else
      var p := Dedup(s[..|s| - 1]);
      if s[|s| - 1] in p then p else p + [s[|s| - 1]]
  }

  /** No element of `s` occurs twice. */
  predicate Distinct(s: seq<string>) {
    forall i, j :: 0 <= i < j < |s| ==> s[i] != s[j]
  }

  /** Without repeated names the first-occurrence order is the list itself. */
  lemma {:induction false} DedupOfDistinct(s: seq<string>)
    requires Distinct(s)
    ensures Dedup(s) == s
  {
    if s != [] {
      var n := |s| - 1;
      assert Distinct(s[..n]);
      DedupOfDistinct(s[..n]);
      assert s[n] !in s[..n];
      assert s == s[..n] + [s[n]];
    }
  }
}
