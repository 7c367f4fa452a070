/** The repository's `find({ where, order })` over a table held as a map:
    select the rows a predicate keeps and return them ordered by a column. */
module Queries {

  /** The value a row is ordered by; `Top` is a NULL, which a descending
      order puts first. */
  datatype Rank = Finite(n: int) | Top

  predicate RankAtLeast(a: Rank, b: Rank) {
    a.Top? || (b.Finite? && a.n >= b.n)
  }

  /** Non-increasing rank: a descending `order`. */
  predicate SortedByRank<T>(s: seq<T>, key: T -> Rank) {
    forall i, j :: 0 <= i < j < |s| ==> RankAtLeast(key(s[i]), key(s[j]))
  }

  /** `s` holds every element of `S` exactly once and nothing else. */
  ghost predicate ListsExactly<T(!new)>(s: seq<T>, S: set<T>) {
    forall x :: multiset(s)[x] == if x in S then 1 else 0
  }

  /** Places `x` before the first element it ranks at least as high as. */
  function InsertByRank<T>(s: seq<T>, x: T, key: T -> Rank): (r: seq<T>)
    ensures multiset(r) == multiset(s) + multiset{x}
  {
    if s == [] then [x]
    else if RankAtLeast(key(x), key(s[0])) then [x] + s
    else
      assert s == [s[0]] + s[1..];
      [s[0]] + InsertByRank(s[1..], x, key)
  }

  /** Inserting into a descending listing keeps it descending. */
  lemma {:induction false} InsertKeepsSorted<T>(s: seq<T>, x: T, key: T -> Rank)
    requires SortedByRank(s, key)
    ensures SortedByRank(InsertByRank(s, x, key), key)
  {
    if s != [] && !RankAtLeast(key(x), key(s[0])) {
      var rest := InsertByRank(s[1..], x, key);
      InsertKeepsSorted(s[1..], x, key);
      assert s == [s[0]] + s[1..];
      forall y | y in rest
        ensures RankAtLeast(key(s[0]), key(y))
      {
        assert y in multiset(rest);
        assert y in s[1..] || y == x;
      }
    }
  }

  /** The image of the keys `ks` under `m`. */
  ghost function Image<K, T>(m: map<K, T>, ks: set<K>): set<T>
    requires ks <= m.Keys
  {
    set k | k in ks :: m[k]
  }

  ghost predicate Injective<K, T>(m: map<K, T>) {
    forall a, b :: a in m && b in m && a != b ==> m[a] != m[b]
  }

  /** `find({ where: keep, order: key DESC })` over the table `m`. */
  method SelectSorted<K, T(==,!new)>(m: map<K, T>, keep: T -> bool, key: T -> Rank) returns (r: seq<T>)
    requires Injective(m)
    ensures ListsExactly(r, set x | x in m.Values && keep(x))
    ensures SortedByRank(r, key)
  {
    r := [];
    var todo := m.Keys;
    while todo != {}
      invariant todo <= m.Keys
      invariant forall x :: multiset(r)[x] == if x in Image(m, m.Keys - todo) && keep(x) then 1 else 0
      invariant SortedByRank(r, key)
      decreases todo
    {
      var k :| k in todo;
      var x := m[k];
      assert Image(m, m.Keys - (todo - {k})) == Image(m, m.Keys - todo) + {x};
      assert x !in Image(m, m.Keys - todo);
      if keep(x) {
        InsertKeepsSorted(r, x, key);
        r := InsertByRank(r, x, key);
      }
      todo := todo - {k};
    }
    assert Image(m, m.Keys) == m.Values;
  }

  /** `array.filter(p)`. */
  function Filter<T(!new)>(s: seq<T>, p: T -> bool): (r: seq<T>)
    ensures |r| <= |s|
    ensures forall x :: multiset(r)[x] == if p(x) then multiset(s)[x] else 0
  {
    if s == [] then []
    else
      assert s == [s[0]] + s[1..];
      (if p(s[0]) then [s[0]] else []) + Filter(s[1..], p)
  }

  /** Filtering a listing of `S` lists the part of `S` the filter keeps. */
  lemma ListedFilter<T(!new)>(s: seq<T>, S: set<T>, p: T -> bool)
    requires ListsExactly(s, S)
    ensures ListsExactly(Filter(s, p), set x | x in S && p(x))
  {
  }

  lemma {:induction false} SetMultisetCount<T>(S: set<T>)
    ensures |multiset(S)| == |S|
  {
    if S != {} {
      var x :| x in S;
      SetMultisetCount(S - {x});
      assert multiset(S) == multiset(S - {x}) + multiset{x};
    }
  }

  /** A listing of `S` has exactly `|S|` elements. */
  lemma ListedCount<T(!new)>(s: seq<T>, S: set<T>)
    requires ListsExactly(s, S)
    ensures |s| == |S|
  {
    assert multiset(s) == multiset(S);
    SetMultisetCount(S);
  }

  /** Filtering twice keeps no more than one filter implied by both. */
  lemma {:induction false} FilterTwiceCount<T(!new)>(s: seq<T>, p: T -> bool, q: T -> bool, both: T -> bool)
    requires forall x :: p(x) && q(x) ==> both(x)
    ensures |Filter(Filter(s, p), q)| <= |Filter(s, both)|
  {
    if s != [] {
      FilterTwiceCount(s[1..], p, q, both);
      var t := Filter(s[1..], p);
      if p(s[0]) {
        assert Filter(s, p) == [s[0]] + t;
        assert ([s[0]] + t)[1..] == t;
      } else {
        assert Filter(s, p) == t;
      }
    }
  }
}
