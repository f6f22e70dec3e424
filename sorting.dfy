// `sorted(tiles.values(), key=sort_func, reverse=ascending_order)`
// (main.py:164): Python's sort is stable, so tiles of equal key keep the
// board's insertion order, and that order decides which tile a merge skips.

module Sorting {
  import opened Tiles
  import opened Directions

  /** Every tile of s has a known state. */
  predicate Known(s: seq<Tile>, st: map<Tile, TState>) {
    forall i :: 0 <= i < |s| ==> s[i] in st
  }

  predicate Distinct<T(==)>(s: seq<T>) {
    forall i, j :: 0 <= i < j < |s| ==> s[i] != s[j]
  }

  /** Each tile ranks no higher than the one after it. */
  ghost predicate Sorted(d: Direction, st: map<Tile, TState>, s: seq<Tile>) {
    Known(s, st) &&
    (|s| <= 1 || (Rank(d, st[s[0]]) <= Rank(d, st[s[1]]) && Sorted(d, st, s[1..])))
  }

  /** The tiles of s whose rank is v, in their order in s. */
  function WithRank(d: Direction, st: map<Tile, TState>, s: seq<Tile>, v: int): seq<Tile>
    requires Known(s, st)
  {
    if s == [] then []
    else if Rank(d, st[s[0]]) == v then [s[0]] + WithRank(d, st, s[1..], v)
    else WithRank(d, st, s[1..], v)
  }

  /**
   * Inserts t, which came before every tile of s in the input, in front of
   * the first tile of s that does not rank below it.
   */
  function Insert(d: Direction, st: map<Tile, TState>, t: Tile, s: seq<Tile>): (r: seq<Tile>)
    requires t in st && Known(s, st)
    ensures multiset(r) == multiset(s) + multiset{t}
    ensures Known(r, st)
  {
    if s == [] || Rank(d, st[t]) <= Rank(d, st[s[0]]) then [t] + s
    else
      assert s == [s[0]] + s[1..];
      [s[0]] + Insert(d, st, t, s[1..])
  }

  /** `sorted`: a stable sort by Rank (insertion sort from the back). */
  function StableSort(d: Direction, s: seq<Tile>, st: map<Tile, TState>): (r: seq<Tile>)
    requires Known(s, st)
    ensures multiset(r) == multiset(s)
    ensures Known(r, st)
  {
    if s == [] then []
    else
      assert s == [s[0]] + s[1..];
      Insert(d, st, s[0], StableSort(d, s[1..], st))
  }

  lemma {:induction false} InsertSorted(d: Direction, st: map<Tile, TState>, t: Tile, s: seq<Tile>)
    requires t in st && Sorted(d, st, s)
    ensures Sorted(d, st, Insert(d, st, t, s))
  {
    if s != [] && Rank(d, st[t]) > Rank(d, st[s[0]]) {
      InsertSorted(d, st, t, s[1..]);
      var tail := Insert(d, st, t, s[1..]);
      assert Insert(d, st, t, s) == [s[0]] + tail;
      assert ([s[0]] + tail)[1..] == tail;
    }
  }

  /** The sort's output is ordered by rank: the tile nearest the target edge first. */
  lemma {:induction false} SortIsSorted(d: Direction, s: seq<Tile>, st: map<Tile, TState>)
    requires Known(s, st)
    ensures Sorted(d, st, StableSort(d, s, st))
  {
    if s != [] {
      SortIsSorted(d, s[1..], st);
      InsertSorted(d, st, s[0], StableSort(d, s[1..], st));
    }
  }

  lemma {:induction false} InsertWithRank(d: Direction, st: map<Tile, TState>, t: Tile, s: seq<Tile>, v: int)
    requires t in st && Known(s, st)
    ensures WithRank(d, st, Insert(d, st, t, s), v) ==
      if Rank(d, st[t]) == v then [t] + WithRank(d, st, s, v) else WithRank(d, st, s, v)
  {
    if s == [] || Rank(d, st[t]) <= Rank(d, st[s[0]]) {
      assert ([t] + s)[1..] == s;
    } else {
      var tail := Insert(d, st, t, s[1..]);
      assert ([s[0]] + tail)[1..] == tail;
      InsertWithRank(d, st, t, s[1..], v);
    }
  }

  /** Stability: for every key, the tiles with that key keep their input order. */
  lemma {:induction false} SortIsStable(d: Direction, s: seq<Tile>, st: map<Tile, TState>, v: int)
    requires Known(s, st)
    ensures WithRank(d, st, StableSort(d, s, st), v) == WithRank(d, st, s, v)
  {
    if s != [] {
      SortIsStable(d, s[1..], st, v);
      InsertWithRank(d, st, s[0], StableSort(d, s[1..], st), v);
    }
  }

  /** Sorting a list that is already in order changes nothing. */
  lemma {:induction false} SortOfSorted(d: Direction, s: seq<Tile>, st: map<Tile, TState>)
    requires Sorted(d, st, s)
    ensures StableSort(d, s, st) == s
  {
    if s != [] {
      var rest := s[1..];
      SortOfSorted(d, rest, st);
      InsertFront(d, st, s[0], rest);
      assert s == [s[0]] + rest;
    }
  }

  lemma InsertFront(d: Direction, st: map<Tile, TState>, t: Tile, s: seq<Tile>)
    requires t in st && Known(s, st)
    requires s == [] || Rank(d, st[t]) <= Rank(d, st[s[0]])
    ensures Insert(d, st, t, s) == [t] + s
  {
  }

  /** The sort looks at nothing but the ranks of the tiles it sorts. */
  lemma {:induction false} SortCongruent(d: Direction, s: seq<Tile>, st1: map<Tile, TState>, st2: map<Tile, TState>)
    requires Known(s, st1) && Known(s, st2)
    requires forall t :: t in s ==> Rank(d, st1[t]) == Rank(d, st2[t])
    ensures StableSort(d, s, st1) == StableSort(d, s, st2)
  {
    if s != [] {
      SortCongruent(d, s[1..], st1, st2);
      var rest := StableSort(d, s[1..], st1);
      forall u | u in rest ensures Rank(d, st1[u]) == Rank(d, st2[u]) {
        assert u in multiset(rest);
        assert u in s[1..];
      }
      InsertCongruent(d, s[0], rest, st1, st2);
    }
  }

  lemma {:induction false} InsertCongruent(d: Direction, t: Tile, s: seq<Tile>, st1: map<Tile, TState>, st2: map<Tile, TState>)
    requires t in st1 && t in st2 && Known(s, st1) && Known(s, st2)
    requires Rank(d, st1[t]) == Rank(d, st2[t])
    requires forall u :: u in s ==> Rank(d, st1[u]) == Rank(d, st2[u])
    ensures Insert(d, st1, t, s) == Insert(d, st2, t, s)
  {
    if s != [] && Rank(d, st1[t]) > Rank(d, st1[s[0]]) {
      InsertCongruent(d, t, s[1..], st1, st2);
    }
  }

  /** A list without repeats sorts to a list without repeats. */
  lemma SortDistinct(d: Direction, s: seq<Tile>, st: map<Tile, TState>)
    requires Known(s, st) && Distinct(s)
    ensures Distinct(StableSort(d, s, st))
  {
    var r := StableSort(d, s, st);
    forall i, j | 0 <= i < j < |r| ensures r[i] != r[j] {
      if r[i] == r[j] {
        MultisetCount(r, i, j);
        assert multiset(s)[r[i]] >= 2;
        DistinctCount(s, r[i]);
      }
    }
  }

  lemma {:induction false} MultisetCount<T>(s: seq<T>, i: int, j: int)
    requires 0 <= i < j < |s| && s[i] == s[j]
    ensures multiset(s)[s[i]] >= 2
  {
    if i > 0 {
      MultisetCount(s[1..], i - 1, j - 1);
      assert s == [s[0]] + s[1..];
    } else {
      assert s == [s[0]] + s[1..];
      assert s[j] in s[1..];
    }
  }

  lemma {:induction false} DistinctCount<T>(s: seq<T>, x: T)
    requires Distinct(s)
    ensures multiset(s)[x] <= 1
  {
    if s != [] {
      DistinctCount(s[1..], x);
      assert s == [s[0]] + s[1..];
      if s[0] == x {
        assert x !in s[1..];
      }
    }
  }
}
