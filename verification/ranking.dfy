/** Python's stable `list.sort(key=lambda x: x[1], reverse=True)` on a list of
    (item, score) pairs: the highest score first, and pairs with equal scores
    left in the order they had before sorting. */
module Ranking {

  /** Scores never increase along the list. */
  predicate SortedDesc<T>(r: seq<(T, real)>) {
    forall i, j :: 0 <= i < j < |r| ==> r[i].1 >= r[j].1
  }

  /** The pairs whose score is `v`, in list order. */
  function Ties<T>(s: seq<(T, real)>, v: real): seq<(T, real)>
  {
    if s == [] then []
    else (if s[0].1 == v then [s[0]] else []) + Ties(s[1..], v)
  }

  /** The items of the pairs, in list order. */
  function Firsts<T>(s: seq<(T, real)>): (r: seq<T>)
    ensures |r| == |s|
    ensures forall i {:trigger r[i]} :: 0 <= i < |s| ==> r[i] == s[i].0
  {
    if s == [] then [] else [s[0].0] + Firsts(s[1..])
  }

  /** Appending one pair appends its item. */
  lemma FirstsAppendOne<T>(s: seq<(T, real)>, x: (T, real))
    ensures Firsts(s + [x]) == Firsts(s) + [x.0]
  {
    var a, b := Firsts(s + [x]), Firsts(s) + [x.0];
    forall i | 0 <= i < |a| ensures a[i] == b[i] {
      if i < |s| {
        assert b[i] == Firsts(s)[i] == s[i].0 == (s + [x])[i].0;
      }
    }
  }

  /** Places `x` after every pair whose score is at least that of `x`. */
  function InsertByScore<T>(r: seq<(T, real)>, x: (T, real)): seq<(T, real)>
  {
    if r == [] then [x]
    else if r[0].1 >= x.1 then [r[0]] + InsertByScore(r[1..], x)
    else [x] + r
  }

  /** Stable sort by descending score: each pair, taken in list order, is
      inserted after the pairs already placed whose score is at least its own. */
  function SortDesc<T>(s: seq<(T, real)>): seq<(T, real)>
  {
    if s == [] then [] else InsertByScore(SortDesc(s[..|s| - 1]), s[|s| - 1])
  }

  lemma {:induction false} InsertCounts<T>(r: seq<(T, real)>, x: (T, real))
    ensures multiset(InsertByScore(r, x)) == multiset(r) + multiset{x}
  {
    if r != [] && r[0].1 >= x.1 {
      assert multiset(InsertByScore(r[1..], x)) == multiset(r[1..]) + multiset{x} by {
        InsertCounts(r[1..], x);
      }
      assert r == [r[0]] + r[1..];
    }
  }

  lemma {:induction false} InsertFirsts<T>(r: seq<(T, real)>, x: (T, real))
    ensures multiset(Firsts(InsertByScore(r, x))) == multiset(Firsts(r)) + multiset{x.0}
  {
    if r != [] && r[0].1 >= x.1 {
      var rest := InsertByScore(r[1..], x);
      assert multiset(Firsts(rest)) == multiset(Firsts(r[1..])) + multiset{x.0} by {
        InsertFirsts(r[1..], x);
      }
      assert Firsts(InsertByScore(r, x)) == [r[0].0] + Firsts(rest) by {
        assert ([r[0]] + rest)[1..] == rest;
      }
    } else {
      assert Firsts(InsertByScore(r, x)) == [x.0] + Firsts(r) by {
        assert ([x] + r)[1..] == r;
      }
    }
  }

  lemma SortedTail<T>(r: seq<(T, real)>)
    requires SortedDesc(r) && r != []
    ensures SortedDesc(r[1..])
    ensures forall j :: 0 <= j < |r| ==> r[j].1 <= r[0].1
  {
    forall i, j | 0 <= i < j < |r| - 1 ensures r[1..][i].1 >= r[1..][j].1 {
      assert r[1..][i] == r[i + 1] && r[1..][j] == r[j + 1];
    }
  }

  /** A list whose head scores at least as much as every later pair, and whose
      tail is sorted, is sorted. */
  lemma ConsSorted<T>(y: (T, real), rest: seq<(T, real)>)
    requires SortedDesc(rest)
    requires forall j :: 0 <= j < |rest| ==> rest[j].1 <= y.1
    ensures SortedDesc([y] + rest)
  {
    var q := [y] + rest;
    forall i, j | 0 <= i < j < |q| ensures q[i].1 >= q[j].1 {
      assert q[j] == rest[j - 1];
      if i > 0 {
        assert q[i] == rest[i - 1];
      }
    }
  }

  /** Inserting under a common bound keeps every score under it. */
  lemma {:induction false} InsertBounded<T>(r: seq<(T, real)>, x: (T, real), m: real)
    requires forall j :: 0 <= j < |r| ==> r[j].1 <= m
    requires x.1 <= m
    ensures forall j :: 0 <= j < |InsertByScore(r, x)| ==> InsertByScore(r, x)[j].1 <= m
  {
    if r != [] && r[0].1 >= x.1 {
      var rest := InsertByScore(r[1..], x);
      InsertBounded(r[1..], x, m);
      var q := [r[0]] + rest;
      forall j | 0 <= j < |q| ensures q[j].1 <= m {
        if j > 0 {
          assert q[j] == rest[j - 1];
        }
      }
    }
  }

  lemma {:induction false} InsertSorted<T>(r: seq<(T, real)>, x: (T, real))
    requires SortedDesc(r)
    ensures SortedDesc(InsertByScore(r, x))
  {
    if r == [] {
    } else if r[0].1 >= x.1 {
      SortedTail(r);
      InsertSorted(r[1..], x);
      assert forall j :: 0 <= j < |r[1..]| ==> r[1..][j] == r[j + 1];
      InsertBounded(r[1..], x, r[0].1);
      ConsSorted(r[0], InsertByScore(r[1..], x));
    } else {
      SortedTail(r);
      ConsSorted(x, r);
    }
  }

  /** Concatenation splits the ties. */
  lemma {:induction false} TiesAppend<T>(a: seq<(T, real)>, b: seq<(T, real)>, v: real)
    ensures Ties(a + b, v) == Ties(a, v) + Ties(b, v)
  {
    if a == [] {
      assert a + b == b;
    } else {
      var h := if a[0].1 == v then [a[0]] else [];
      assert (a + b)[0] == a[0] && (a + b)[1..] == a[1..] + b;
      assert Ties(a + b, v) == h + Ties(a[1..] + b, v);
      TiesAppend(a[1..], b, v);
      assert h + (Ties(a[1..], v) + Ties(b, v)) == (h + Ties(a[1..], v)) + Ties(b, v);
    }
  }

  lemma {:induction false} NoTiesAbove<T>(r: seq<(T, real)>, v: real)
    requires forall j :: 0 <= j < |r| ==> r[j].1 < v
    ensures Ties(r, v) == []
  {
    if r != [] {
      NoTiesAbove(r[1..], v);
    }
  }

  /** Inserting into a sorted list puts the new pair after every pair of equal
      score already there. */
  lemma {:induction false} InsertTies<T>(r: seq<(T, real)>, x: (T, real), v: real)
    requires SortedDesc(r)
    ensures Ties(InsertByScore(r, x), v) == Ties(r, v) + (if x.1 == v then [x] else [])
  {
    var last := if x.1 == v then [x] else [];
    if r == [] {
      assert Ties([x], v) == last + Ties([x][1..], v);
    } else if r[0].1 >= x.1 {
      var rest := InsertByScore(r[1..], x);
      var h := if r[0].1 == v then [r[0]] else [];
      assert Ties(rest, v) == Ties(r[1..], v) + last by {
        SortedTail(r);
        InsertTies(r[1..], x, v);
      }
      assert ([r[0]] + rest)[0] == r[0] && ([r[0]] + rest)[1..] == rest;
      assert Ties([r[0]] + rest, v) == h + Ties(rest, v);
      assert h + (Ties(r[1..], v) + last) == (h + Ties(r[1..], v)) + last;
    } else {
      assert Ties(r, x.1) == [] by {
        SortedTail(r);
        NoTiesAbove(r, x.1);
      }
      assert ([x] + r)[0] == x && ([x] + r)[1..] == r;
      assert Ties([x] + r, v) == last + Ties(r, v);
    }
  }

  lemma {:induction false} SortDescSorted<T>(s: seq<(T, real)>)
    ensures SortedDesc(SortDesc(s))
  {
    if s != [] {
      SortDescSorted(s[..|s| - 1]);
      InsertSorted(SortDesc(s[..|s| - 1]), s[|s| - 1]);
    }
  }

  lemma {:induction false} SortDescCounts<T>(s: seq<(T, real)>)
    ensures multiset(SortDesc(s)) == multiset(s)
  {
    if s != [] {
      var n := |s| - 1;
      assert multiset(SortDesc(s[..n])) == multiset(s[..n]) by {
        SortDescCounts(s[..n]);
      }
      assert multiset(SortDesc(s)) == multiset(SortDesc(s[..n])) + multiset{s[n]} by {
        InsertCounts(SortDesc(s[..n]), s[n]);
      }
      assert multiset(s) == multiset(s[..n]) + multiset{s[n]} by {
        SplitLast(s);
      }
    }
  }

  lemma {:induction false} SortDescFirsts<T>(s: seq<(T, real)>)
    ensures multiset(Firsts(SortDesc(s))) == multiset(Firsts(s))
  {
    if s != [] {
      SortDescFirsts(s[..|s| - 1]);
      SortDescFirstsStep(s);
    }
  }

  /** Sorting one more pair adds its case to both sides. */
  lemma SortDescFirstsStep<T>(s: seq<(T, real)>)
    requires s != []
    requires multiset(Firsts(SortDesc(s[..|s| - 1]))) == multiset(Firsts(s[..|s| - 1]))
    ensures multiset(Firsts(SortDesc(s))) == multiset(Firsts(s))
  {
    var n := |s| - 1;
    var init, x := s[..n], s[n];
    SplitLast(s);
    var prev := SortDesc(init);
    assert SortDesc(s) == InsertByScore(prev, x);
    assert multiset(Firsts(InsertByScore(prev, x))) == multiset(Firsts(prev)) + multiset{x.0} by {
      InsertFirsts(prev, x);
    }
    FirstsAppendOne(init, x);
  }

  /** A non-empty sequence is its prefix followed by its last element. */
  lemma SplitLast<U>(s: seq<U>)
    requires s != []
    ensures s == s[..|s| - 1] + [s[|s| - 1]]
  {
  }

  lemma {:induction false} SortDescTies<T>(s: seq<(T, real)>, v: real)
    ensures Ties(SortDesc(s), v) == Ties(s, v)
  {
    if s != [] {
      var n := |s| - 1;
      SortDescSorted(s[..n]);
      SortDescTies(s[..n], v);
      InsertTies(SortDesc(s[..n]), s[n], v);
      TiesAppend(s[..n], [s[n]], v);
      assert s == s[..n] + [s[n]];
    }
  }

  /** The sort returns a sorted permutation of its input, of the same length,
      that keeps pairs of equal score in input order. */
  lemma SortDescCorrect<T>(s: seq<(T, real)>)
    ensures SortedDesc(SortDesc(s))
    ensures multiset(SortDesc(s)) == multiset(s)
    ensures multiset(Firsts(SortDesc(s))) == multiset(Firsts(s))
    ensures |SortDesc(s)| == |s|
    ensures forall v :: Ties(SortDesc(s), v) == Ties(s, v)
  {
    SortDescSorted(s);
    SortDescCounts(s);
    SortDescFirsts(s);
    assert |SortDesc(s)| == |multiset(SortDesc(s))|;
    forall v ensures Ties(SortDesc(s), v) == Ties(s, v) {
      SortDescTies(s, v);
    }
  }

  /** Sorting a list that is already in descending order changes nothing. */
  lemma {:induction false} SortDescOfSorted<T>(s: seq<(T, real)>)
    requires SortedDesc(s)
    ensures SortDesc(s) == s
  {
    if s != [] {
      var n := |s| - 1;
      assert SortedDesc(s[..n]);
      SortDescOfSorted(s[..n]);
      InsertAtEnd(s[..n], s[n]);
      assert s == s[..n] + [s[n]];
    }
  }

  lemma {:induction false} InsertAtEnd<T>(r: seq<(T, real)>, x: (T, real))
    requires forall j :: 0 <= j < |r| ==> r[j].1 >= x.1
    ensures InsertByScore(r, x) == r + [x]
  {
    if r != [] {
      InsertAtEnd(r[1..], x);
      assert r == [r[0]] + r[1..];
    }
  }
}
