/** What the reports ask of SQL and of sorting: sums over selected rows, GROUP BY, and a sort by a
    pair of numbers. */
module Grouping {

  datatype Total = Total(amount: int, count: int)

  function Plus(a: Total, b: Total): Total { Total(a.amount + b.amount, a.count + b.count) }

  /** The columns a report groups by; a query leaves those it does not use blank. */
  datatype Key = Key(period: int, account: nat, category: nat, kind: string)

  datatype Row = Row(key: Key, total: Total)

  /** SUM and COUNT over the rows a condition selects. */
  function Sum(rows: seq<Row>, p: Key -> bool): Total {
    if rows == [] then Total(0, 0)
    else
      var last := rows[|rows| - 1];
      Plus(Sum(rows[..|rows| - 1], p), if p(last.key) then last.total else Total(0, 0))
  }

  function Is(key: Key): Key -> bool { k => k == key }

  /** The rows of one class among those a condition selects. */
  function Fiber(f: Key -> Key, q: Key -> bool, j: Key): Key -> bool { k => f(k) == j && q(k) }

  predicate DistinctKeys(xs: seq<Key>) {
    forall i, j :: 0 <= i < j < |xs| ==> xs[i] != xs[j]
  }

  function Keys(rows: seq<Row>): seq<Key> {
    seq(|rows|, i requires 0 <= i < |rows| => rows[i].key)
  }

  /** GROUP BY: one row for each key that occurs, in any order, with the total of that key. */
  ghost predicate Grouped(items: seq<Row>, rows: seq<Row>) {
    && DistinctKeys(Keys(rows))
    && (forall k :: k in Keys(rows) <==> k in Keys(items))
    && (forall i :: 0 <= i < |rows| ==> rows[i].total == Sum(items, Is(rows[i].key)))
  }

  /** A condition selects or skips each next row. */
  lemma {:induction false} SumNext(rows: seq<Row>, i: nat, p: Key -> bool)
    requires i < |rows|
    ensures Sum(rows[..i + 1], p) == Plus(Sum(rows[..i], p), if p(rows[i].key) then rows[i].total else Total(0, 0))
  {
    assert rows[..i + 1][..i] == rows[..i];
  }

  lemma {:induction false} SumSame(rows: seq<Row>, p: Key -> bool, q: Key -> bool)
    requires forall i :: 0 <= i < |rows| ==> p(rows[i].key) == q(rows[i].key)
    ensures Sum(rows, p) == Sum(rows, q)
  {
    if rows != [] {
      var init := rows[..|rows| - 1];
      assert forall i :: 0 <= i < |init| ==> init[i] == rows[i];
      SumSame(init, p, q);
    }
  }

  lemma {:induction false} SumNone(rows: seq<Row>, p: Key -> bool)
    requires forall i :: 0 <= i < |rows| ==> !p(rows[i].key)
    ensures Sum(rows, p) == Total(0, 0)
  {
    if rows != [] {
      var init := rows[..|rows| - 1];
      assert forall i :: 0 <= i < |init| ==> init[i] == rows[i];
      SumNone(init, p);
    }
  }

  // ---- sums by class ----

  /** The totals of the listed classes, added up. */
  function Spread(js: seq<Key>, items: seq<Row>, f: Key -> Key, q: Key -> bool): Total {
    if js == [] then Total(0, 0)
    else Plus(Spread(js[..|js| - 1], items, f, q), Sum(items, Fiber(f, q, js[|js| - 1])))
  }

  lemma {:induction false} SpreadNothing(js: seq<Key>, f: Key -> Key, q: Key -> bool)
    ensures Spread(js, [], f, q) == Total(0, 0)
  {
    if js != [] { SpreadNothing(js[..|js| - 1], f, q); }
  }

  /** The last item adds its total to its own class and to no other. */
  lemma {:induction false} SpreadStep(js: seq<Key>, items: seq<Row>, f: Key -> Key, q: Key -> bool)
    requires DistinctKeys(js) && items != []
    ensures var last := items[|items| - 1];
      Spread(js, items, f, q)
        == Plus(Spread(js, items[..|items| - 1], f, q),
                if q(last.key) && f(last.key) in js then last.total else Total(0, 0))
  {
    if js != [] {
      var before, j := js[..|js| - 1], js[|js| - 1];
      SpreadStep(before, items, f, q);
      assert forall x :: x in js <==> x in before || x == j;
      assert j !in before;
    }
  }

  /** What the listed classes cover of a condition. */
  function Within(js: seq<Key>, f: Key -> Key, q: Key -> bool): Key -> bool { k => q(k) && f(k) in js }

  /** Listing each class once adds up to what the classes cover. */
  lemma {:induction false} SpreadWithin(js: seq<Key>, items: seq<Row>, f: Key -> Key, q: Key -> bool)
    requires DistinctKeys(js)
    ensures Spread(js, items, f, q) == Sum(items, Within(js, f, q))
  {
    if items == [] {
      SpreadNothing(js, f, q);
    } else {
      SpreadWithin(js, items[..|items| - 1], f, q);
      SpreadStep(js, items, f, q);
    }
  }

  /** Classes that cover a condition add up to the whole of it. */
  lemma {:induction false} SpreadAll(js: seq<Key>, items: seq<Row>, f: Key -> Key, q: Key -> bool)
    requires DistinctKeys(js) && forall i :: 0 <= i < |items| && q(items[i].key) ==> f(items[i].key) in js
    ensures Spread(js, items, f, q) == Sum(items, q)
  {
    SpreadWithin(js, items, f, q);
    SumSame(items, Within(js, f, q), q);
  }

  // ---- grouping conserves ----

  function Same(): Key -> Key { k => k }

  lemma {:induction false} KeyFiber(items: seq<Row>, p: Key -> bool, key: Key)
    ensures Sum(items, Fiber(Same(), p, key)) == if p(key) then Sum(items, Is(key)) else Total(0, 0)
  {
    if p(key) {
      SumSame(items, Is(key), Fiber(Same(), p, key));
    } else {
      SumNone(items, Fiber(Same(), p, key));
    }
  }

  lemma {:induction false} RowsSpread(items: seq<Row>, rows: seq<Row>, ks: seq<Key>, p: Key -> bool)
    requires |ks| == |rows| && forall i :: 0 <= i < |rows| ==> ks[i] == rows[i].key
    requires forall i :: 0 <= i < |rows| ==> rows[i].total == Sum(items, Is(rows[i].key))
    ensures Sum(rows, p) == Spread(ks, items, Same(), p)
  {
    if rows != [] {
      var n := |rows| - 1;
      assert forall i :: 0 <= i < n ==> rows[..n][i] == rows[i] && ks[..n][i] == ks[i];
      RowsSpread(items, rows[..n], ks[..n], p);
      KeyFiber(items, p, ks[n]);
    }
  }

  lemma {:induction false} ListedKeys(items: seq<Row>, rows: seq<Row>)
    requires Grouped(items, rows)
    ensures forall i :: 0 <= i < |items| ==> items[i].key in Keys(rows)
  {
    forall i | 0 <= i < |items| ensures items[i].key in Keys(rows) {
      assert Keys(items)[i] == items[i].key;
    }
  }

  /** Grouping keeps the total of every condition on the grouping key. */
  lemma {:induction false} GroupingConserves(items: seq<Row>, rows: seq<Row>, p: Key -> bool)
    requires Grouped(items, rows)
    ensures Sum(rows, p) == Sum(items, p)
  {
    RowsSpread(items, rows, Keys(rows), p);
    ListedKeys(items, rows);
    SpreadAll(Keys(rows), items, Same(), p);
  }

  // ---- sorting ----

  predicate Below(a: (int, int), b: (int, int)) {
    a.0 < b.0 || (a.0 == b.0 && a.1 <= b.1)
  }

  ghost predicate Sorted<T(!new)>(xs: seq<T>, rank: T -> (int, int)) {
    forall i, j :: 0 <= i < j < |xs| ==> Below(rank(xs[i]), rank(xs[j]))
  }

  function Insert<T>(x: T, xs: seq<T>, rank: T -> (int, int)): seq<T> {
    if xs == [] || Below(rank(x), rank(xs[0])) then [x] + xs
    else [xs[0]] + Insert(x, xs[1..], rank)
  }

  /** One of the orders sort.Slice can produce. */
  function Sort<T>(xs: seq<T>, rank: T -> (int, int)): seq<T> {
    if xs == [] then [] else Insert(xs[0], Sort(xs[1..], rank), rank)
  }

  lemma {:induction false} InsertAdds<T>(x: T, xs: seq<T>, rank: T -> (int, int))
    ensures multiset(Insert(x, xs, rank)) == multiset(xs) + multiset{x}
  {
    if xs != [] && !Below(rank(x), rank(xs[0])) {
      InsertAdds(x, xs[1..], rank);
      assert xs == [xs[0]] + xs[1..];
    }
  }

  /** `low` is not above any element. */
  ghost predicate Bounds<T(!new)>(low: (int, int), xs: seq<T>, rank: T -> (int, int)) {
    forall i :: 0 <= i < |xs| ==> Below(low, rank(xs[i]))
  }

  lemma {:induction false} InsertBounds<T(!new)>(low: (int, int), x: T, xs: seq<T>, rank: T -> (int, int))
    requires Bounds(low, xs, rank) && Below(low, rank(x))
    ensures Bounds(low, Insert(x, xs, rank), rank)
  {
    if xs != [] && !Below(rank(x), rank(xs[0])) {
      InsertBounds(low, x, xs[1..], rank);
    }
  }

  lemma {:induction false} InsertSorts<T(!new)>(x: T, xs: seq<T>, rank: T -> (int, int))
    requires Sorted(xs, rank)
    ensures Sorted(Insert(x, xs, rank), rank)
  {
    if xs != [] && !Below(rank(x), rank(xs[0])) {
      InsertSorts(x, xs[1..], rank);
      InsertBounds(rank(xs[0]), x, xs[1..], rank);
    }
  }

  /** Sorting gives the same elements in ascending order. */
  lemma {:induction false} SortSorts<T(!new)>(xs: seq<T>, rank: T -> (int, int))
    ensures Sorted(Sort(xs, rank), rank) && multiset(Sort(xs, rank)) == multiset(xs)
  {
    if xs != [] {
      SortSorts(xs[1..], rank);
      InsertSorts(xs[0], Sort(xs[1..], rank), rank);
      InsertAdds(xs[0], Sort(xs[1..], rank), rank);
      assert xs == [xs[0]] + xs[1..];
    }
  }

  ghost predicate Distinct<T>(xs: seq<T>) {
    forall i, j :: 0 <= i < j < |xs| ==> xs[i] != xs[j]
  }

  /** Rearranging keeps elements distinct. */
  lemma {:induction false} DistinctPermuted<T>(xs: seq<T>, ys: seq<T>)
    requires Distinct(xs) && multiset(xs) == multiset(ys)
    ensures Distinct(ys) && |ys| == |xs| && forall x :: x in ys <==> x in xs
  {
    assert |multiset(xs)| == |multiset(ys)|;
    forall x ensures x in ys <==> x in xs { assert x in multiset(xs) <==> x in multiset(ys); }
    forall i, j | 0 <= i < j < |ys| ensures ys[i] != ys[j] {
      if ys[i] == ys[j] {
        Twice(ys, i, j);
        Once(xs, ys[i]);
      }
    }
  }

  lemma {:induction false} Twice<T>(ys: seq<T>, i: nat, j: nat)
    requires i < j < |ys| && ys[i] == ys[j]
    ensures multiset(ys)[ys[i]] >= 2
  {
    assert ys == ys[..j] + [ys[j]] + ys[j + 1..];
    assert ys[..j][i] == ys[i];
    assert ys[i] in multiset(ys[..j]);
  }

  lemma {:induction false} Once<T>(xs: seq<T>, x: T)
    requires Distinct(xs)
    ensures multiset(xs)[x] <= 1
  {
    if xs != [] {
      assert xs == [xs[0]] + xs[1..];
      Once(xs[1..], x);
      if xs[0] == x {
        assert forall k :: 0 <= k < |xs[1..]| ==> xs[1..][k] == xs[k + 1];
        assert x !in xs[1..];
      }
    }
  }
}
