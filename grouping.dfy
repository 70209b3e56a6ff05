/**
 * What `groupby(...).sum()`, `groupby(...).size()`, `value_counts()` and
 * `nlargest(n)` compute, for any row type and key: the distinct keys in
 * ascending order (rows without a key are dropped), a sum or a count per
 * key, and a stable sort by decreasing score.
 */
module Grouping {
  import opened Wrappers

  // ---------------------------------------------------------------------
  // Sorted distinct keys

  ghost predicate StrictTotal<K(!new)>(lt: (K, K) -> bool) {
    (forall a, b :: lt(a, b) ==> !lt(b, a)) &&
    (forall a, b, c :: lt(a, b) && lt(b, c) ==> lt(a, c)) &&
    (forall a, b :: a != b ==> lt(a, b) || lt(b, a))
  }

  predicate Ascending<K(==,!new)>(ks: seq<K>, lt: (K, K) -> bool) {
    forall i, j :: 0 <= i < j < |ks| ==> lt(ks[i], ks[j])
  }

  lemma AscendingDistinct<K(!new)>(ks: seq<K>, lt: (K, K) -> bool)
    requires StrictTotal(lt) && Ascending(ks, lt)
    ensures forall i, j :: 0 <= i < j < |ks| ==> ks[i] != ks[j]
  {
    forall i, j | 0 <= i < j < |ks| ensures ks[i] != ks[j] {
      assert lt(ks[i], ks[j]);
    }
  }

  /** `ks` with `x` added in its place. */
  function Insert<K(==,!new)>(ks: seq<K>, x: K, lt: (K, K) -> bool): (r: seq<K>)
    requires StrictTotal(lt) && Ascending(ks, lt)
    ensures Ascending(r, lt)
    ensures forall k :: k in r <==> k in ks || k == x
    decreases |ks|
  {
    if ks == [] then [x]
    else if x == ks[0] then ks
    else if lt(x, ks[0]) then
      assert forall j :: 0 < j < |ks| ==> lt(ks[0], ks[j]);
      [x] + ks
    else
      assert lt(ks[0], x);
      var rest := Insert(ks[1..], x, lt);
      assert forall j :: 0 < j < |ks| ==> lt(ks[0], ks[j]);
      assert forall k :: k in rest ==> lt(ks[0], k);
      [ks[0]] + rest
  }

  /** The distinct values of `xs`, ascending. */
  function SortedKeys<K(==,!new)>(xs: seq<K>, lt: (K, K) -> bool): (r: seq<K>)
    requires StrictTotal(lt)
    ensures Ascending(r, lt)
    ensures forall k :: k in r <==> k in xs
  {
    if xs == [] then []
    else
      var before := SortedKeys(xs[..|xs| - 1], lt);
      assert xs == xs[..|xs| - 1] + [xs[|xs| - 1]];
      Insert(before, xs[|xs| - 1], lt)
  }

  // ---------------------------------------------------------------------
  // Keys, sums and counts

  /** The keys of the rows that have one, in row order. */
  function KeysOf<T, K(==,!new)>(rows: seq<T>, key: T -> Option<K>): (r: seq<K>)
    ensures |r| <= |rows|
    ensures forall k :: k in r <==> exists i :: 0 <= i < |rows| && key(rows[i]) == Some(k)
  {
    if rows == [] then []
    else
      var before := KeysOf(rows[..|rows| - 1], key);
      assert forall i :: 0 <= i < |rows| - 1 ==> rows[..|rows| - 1][i] == rows[i];
      var last := rows[|rows| - 1];
      if key(last).Some? then before + [key(last).value] else before
  }

  /** The distinct keys, ascending: the index `groupby` builds. */
  function Groups<T, K(==,!new)>(rows: seq<T>, key: T -> Option<K>, lt: (K, K) -> bool): (r: seq<K>)
    requires StrictTotal(lt)
    ensures Ascending(r, lt)
    ensures forall k :: k in r <==> exists i :: 0 <= i < |rows| && key(rows[i]) == Some(k)
  {
    SortedKeys(KeysOf(rows, key), lt)
  }

  /** The sum of `val` over the rows whose key is `k`. */
  function SumOf<T, K(==,!new)>(rows: seq<T>, key: T -> Option<K>, k: K, val: T -> real): real {
    if rows == [] then 0.0
    else
      var last := rows[|rows| - 1];
      SumOf(rows[..|rows| - 1], key, k, val) + (if key(last) == Some(k) then val(last) else 0.0)
  }

  /** The number of rows whose key is `k`. */
  function CountOf<T, K(==,!new)>(rows: seq<T>, key: T -> Option<K>, k: K): nat {
    if rows == [] then 0
    else
      var last := rows[|rows| - 1];
      CountOf(rows[..|rows| - 1], key, k) + (if key(last) == Some(k) then 1 else 0)
  }

  lemma {:induction false} CountPositive<T, K(!new)>(rows: seq<T>, key: T -> Option<K>, i: nat)
    requires i < |rows| && key(rows[i]).Some?
    ensures CountOf(rows, key, key(rows[i]).value) >= 1
    decreases |rows|
  {
    if i < |rows| - 1 {
      assert rows[..|rows| - 1][i] == rows[i];
      CountPositive(rows[..|rows| - 1], key, i);
    }
  }

  function TotalCount<T, K(==,!new)>(ks: seq<K>, rows: seq<T>, key: T -> Option<K>): nat {
    if ks == [] then 0 else CountOf(rows, key, ks[0]) + TotalCount(ks[1..], rows, key)
  }

  function TotalSum<T, K(==,!new)>(ks: seq<K>, rows: seq<T>, key: T -> Option<K>, val: T -> real): real {
    if ks == [] then 0.0 else SumOf(rows, key, ks[0], val) + TotalSum(ks[1..], rows, key, val)
  }

  /** The sum of `val` over the rows that have a key. */
  function KeyedSum<T, K(==,!new)>(rows: seq<T>, key: T -> Option<K>, val: T -> real): real {
    if rows == [] then 0.0
    else
      var last := rows[|rows| - 1];
      KeyedSum(rows[..|rows| - 1], key, val) + (if key(last).Some? then val(last) else 0.0)
  }

  predicate NoRepeats<K(==,!new)>(ks: seq<K>) {
    forall i, j :: 0 <= i < j < |ks| ==> ks[i] != ks[j]
  }

  /** How many of the distinct `ks` equal `x`: one if `x` is among them. */
  function Hits<K(==,!new)>(ks: seq<K>, x: Option<K>): nat {
    if ks == [] then 0 else (if x == Some(ks[0]) then 1 else 0) + Hits(ks[1..], x)
  }

  lemma {:induction false} HitsOnce<K(!new)>(ks: seq<K>, x: Option<K>)
    requires NoRepeats(ks)
    ensures Hits(ks, x) == if x.Some? && x.value in ks then 1 else 0
  {
    if ks != [] {
      HitsOnce(ks[1..], x);
      if x == Some(ks[0]) {
        assert ks[0] !in ks[1..] by {
          forall j | 0 <= j < |ks[1..]| ensures ks[1..][j] != ks[0] {
            assert ks[1..][j] == ks[j + 1];
          }
        }
      }
    }
  }

  function WeightedHits<K(==,!new)>(ks: seq<K>, x: Option<K>, v: real): real {
    if ks == [] then 0.0 else (if x == Some(ks[0]) then v else 0.0) + WeightedHits(ks[1..], x, v)
  }

  lemma {:induction false} WeightedHitsOnce<K(!new)>(ks: seq<K>, x: Option<K>, v: real)
    requires NoRepeats(ks)
    ensures WeightedHits(ks, x, v) == if x.Some? && x.value in ks then v else 0.0
  {
    if ks != [] {
      WeightedHitsOnce(ks[1..], x, v);
      if x == Some(ks[0]) {
        assert ks[0] !in ks[1..] by {
          forall j | 0 <= j < |ks[1..]| ensures ks[1..][j] != ks[0] {
            assert ks[1..][j] == ks[j + 1];
          }
        }
      }
    }
  }

  lemma {:induction false} TotalCountSnoc<T, K(!new)>(ks: seq<K>, rows: seq<T>, key: T -> Option<K>)
    requires rows != []
    ensures TotalCount(ks, rows, key) ==
      TotalCount(ks, rows[..|rows| - 1], key) + Hits(ks, key(rows[|rows| - 1]))
  {
    if ks != [] {
      TotalCountSnoc(ks[1..], rows, key);
    }
  }

  lemma {:induction false} TotalSumSnoc<T, K(!new)>(ks: seq<K>, rows: seq<T>, key: T -> Option<K>, val: T -> real)
    requires rows != []
    ensures TotalSum(ks, rows, key, val) ==
      TotalSum(ks, rows[..|rows| - 1], key, val) + WeightedHits(ks, key(rows[|rows| - 1]), val(rows[|rows| - 1]))
  {
    if ks != [] {
      TotalSumSnoc(ks[1..], rows, key, val);
    }
  }

  predicate Covers<T, K(==,!new)>(ks: seq<K>, rows: seq<T>, key: T -> Option<K>) {
    forall i :: 0 <= i < |rows| && key(rows[i]).Some? ==> key(rows[i]).value in ks
  }

  /** Counting per key over distinct keys that cover every keyed row
      counts every keyed row once. */
  lemma {:induction false} CountsPartition<T, K(!new)>(ks: seq<K>, rows: seq<T>, key: T -> Option<K>)
    requires NoRepeats(ks) && Covers(ks, rows, key)
    ensures TotalCount(ks, rows, key) == |KeysOf(rows, key)|
    decreases |rows|
  {
    if rows != [] {
      var init := rows[..|rows| - 1];
      assert forall i :: 0 <= i < |init| ==> init[i] == rows[i];
      CountsPartition(ks, init, key);
      TotalCountSnoc(ks, rows, key);
      HitsOnce(ks, key(rows[|rows| - 1]));
    } else {
      assert TotalCount(ks, rows, key) == 0 by { ZeroCounts(ks, rows, key); }
    }
  }

  lemma {:induction false} ZeroCounts<T, K(!new)>(ks: seq<K>, rows: seq<T>, key: T -> Option<K>)
    requires rows == []
    ensures TotalCount(ks, rows, key) == 0
  {
    if ks != [] {
      ZeroCounts(ks[1..], rows, key);
    }
  }

  lemma {:induction false} ZeroSums<T, K(!new)>(ks: seq<K>, rows: seq<T>, key: T -> Option<K>, val: T -> real)
    requires rows == []
    ensures TotalSum(ks, rows, key, val) == 0.0
  {
    if ks != [] {
      ZeroSums(ks[1..], rows, key, val);
    }
  }

  /** Summing per key over distinct keys that cover every keyed row sums
      every keyed row once; rows without a key count nowhere. */
  lemma {:induction false} SumsPartition<T, K(!new)>(ks: seq<K>, rows: seq<T>, key: T -> Option<K>, val: T -> real)
    requires NoRepeats(ks) && Covers(ks, rows, key)
    ensures TotalSum(ks, rows, key, val) == KeyedSum(rows, key, val)
    decreases |rows|
  {
    if rows != [] {
      var init := rows[..|rows| - 1];
      assert forall i :: 0 <= i < |init| ==> init[i] == rows[i];
      SumsPartition(ks, init, key, val);
      TotalSumSnoc(ks, rows, key, val);
      WeightedHitsOnce(ks, key(rows[|rows| - 1]), val(rows[|rows| - 1]));
    } else {
      ZeroSums(ks, rows, key, val);
    }
  }

  // ---------------------------------------------------------------------
  // Stable sort by decreasing score

  predicate NonIncreasing<E>(xs: seq<E>, score: E -> real) {
    forall i, j :: 0 <= i < j < |xs| ==> score(xs[i]) >= score(xs[j])
  }

  lemma SortedTail<E>(xs: seq<E>, score: E -> real)
    requires xs != [] && NonIncreasing(xs, score)
    ensures NonIncreasing(xs[1..], score)
  {
    forall i, j | 0 <= i < j < |xs| - 1 ensures score(xs[1..][i]) >= score(xs[1..][j]) {
      assert xs[1..][i] == xs[i + 1] && xs[1..][j] == xs[j + 1];
    }
  }

  /** The head of a sorted sequence scores at least as much as any element. */
  lemma SortedHead<E>(xs: seq<E>, score: E -> real)
    requires xs != [] && NonIncreasing(xs, score)
    ensures forall e :: e in xs ==> score(e) <= score(xs[0])
  {
    forall e | e in xs ensures score(e) <= score(xs[0]) {
      var k :| 0 <= k < |xs| && xs[k] == e;
      assert k == 0 || score(xs[0]) >= score(xs[k]);
    }
  }

  /** A sorted sequence stays sorted under a head at least its maximum. */
  lemma SortedCons<E>(x: E, rest: seq<E>, score: E -> real)
    requires NonIncreasing(rest, score) && forall e :: e in rest ==> score(e) <= score(x)
    ensures NonIncreasing([x] + rest, score)
  {
    var r := [x] + rest;
    forall i, j | 0 <= i < j < |r| ensures score(r[i]) >= score(r[j]) {
      assert r[j] == rest[j - 1] && r[j] in rest;
      assert i > 0 ==> r[i] == rest[i - 1];
    }
  }

  /** `x` placed after every element scoring at least as much. */
  function InsertDesc<E>(sorted: seq<E>, x: E, score: E -> real): (r: seq<E>)
    requires NonIncreasing(sorted, score)
    ensures NonIncreasing(r, score)
    ensures |r| == |sorted| + 1
    ensures score(r[0]) == if sorted != [] && score(sorted[0]) >= score(x) then score(sorted[0]) else score(x)
    decreases |sorted|
  {
    if sorted == [] then [x]
    else if score(sorted[0]) >= score(x) then
      var rest := InsertDesc(sorted[1..], x, score);
      assert forall j :: 0 <= j < |rest| ==> score(rest[j]) <= score(rest[0]);
      [sorted[0]] + rest
    else
      [x] + sorted
  }

  lemma {:induction false} InsertDescPerm<E>(sorted: seq<E>, x: E, score: E -> real)
    requires NonIncreasing(sorted, score)
    ensures multiset(InsertDesc(sorted, x, score)) == multiset(sorted) + multiset{x}
    decreases |sorted|
  {
    if sorted != [] && score(sorted[0]) >= score(x) {
      InsertDescPerm(sorted[1..], x, score);
      ConsPerm(sorted, InsertDesc(sorted[1..], x, score), x);
    }
  }

  lemma ConsPerm<E>(xs: seq<E>, rest: seq<E>, x: E)
    requires xs != [] && multiset(rest) == multiset(xs[1..]) + multiset{x}
    ensures multiset([xs[0]] + rest) == multiset(xs) + multiset{x}
  {
    assert xs == [xs[0]] + xs[1..];
  }

  /** The elements by decreasing score; equal scores keep their order
      (`SortDescStable`). */
  function SortDesc<E>(xs: seq<E>, score: E -> real): (r: seq<E>)
    ensures NonIncreasing(r, score)
    ensures |r| == |xs|
  {
    if xs == [] then []
    else InsertDesc(SortDesc(xs[..|xs| - 1], score), xs[|xs| - 1], score)
  }

  /** Sorting only reorders. */
  lemma {:induction false} SortDescPerm<E>(xs: seq<E>, score: E -> real)
    ensures multiset(SortDesc(xs, score)) == multiset(xs)
  {
    if xs != [] {
      SortDescPerm(xs[..|xs| - 1], score);
      InsertDescPerm(SortDesc(xs[..|xs| - 1], score), xs[|xs| - 1], score);
      assert xs == xs[..|xs| - 1] + [xs[|xs| - 1]];
    }
  }

  // ---------------------------------------------------------------------
  // Stability: equal scores keep the order they had

  /** The elements of `xs` scoring exactly `v`, in their order. */
  function WithScore<E>(xs: seq<E>, score: E -> real, v: real): seq<E>
    decreases |xs|
  {
    if xs == [] then []
    else (if score(xs[0]) == v then [xs[0]] else []) + WithScore(xs[1..], score, v)
  }

  lemma {:induction false} WithScoreAppend<E>(a: seq<E>, b: seq<E>, score: E -> real, v: real)
    ensures WithScore(a + b, score, v) == WithScore(a, score, v) + WithScore(b, score, v)
    decreases |a|
  {
    if a == [] {
      assert a + b == b;
    } else {
      var t := a[1..];
      assert (a + b)[0] == a[0] && (a + b)[1..] == t + b;
      WithScoreAppend(t, b, score, v);
      var h := if score(a[0]) == v then [a[0]] else [];
      assert WithScore(a + b, score, v) == h + WithScore(t + b, score, v);
      assert WithScore(a, score, v) == h + WithScore(t, score, v);
    }
  }

  lemma {:induction false} WithScoreNone<E>(xs: seq<E>, score: E -> real, v: real)
    requires forall i :: 0 <= i < |xs| ==> score(xs[i]) != v
    ensures WithScore(xs, score, v) == []
    decreases |xs|
  {
    if xs != [] {
      WithScoreNone(xs[1..], score, v);
    }
  }

  /** One step of `InsertDesc`. */
  lemma InsertDescUnfold<E>(sorted: seq<E>, x: E, score: E -> real)
    requires sorted != [] && NonIncreasing(sorted, score) && NonIncreasing(sorted[1..], score)
    ensures InsertDesc(sorted, x, score) ==
      if score(sorted[0]) >= score(x) then [sorted[0]] + InsertDesc(sorted[1..], x, score) else [x] + sorted
  {
  }

  lemma WithScoreCons<E>(h: E, xs: seq<E>, score: E -> real, v: real)
    ensures WithScore([h] + xs, score, v) == WithScore([h], score, v) + WithScore(xs, score, v)
  {
    WithScoreAppend([h], xs, score, v);
  }

  /** Inserting `x` puts it after every element of its own score. */
  lemma {:induction false} InsertDescStable<E>(sorted: seq<E>, x: E, score: E -> real, v: real)
    requires NonIncreasing(sorted, score)
    ensures WithScore(InsertDesc(sorted, x, score), score, v) == WithScore(sorted, score, v) + WithScore([x], score, v)
    decreases |sorted|
  {
    if sorted == [] {
      assert [x][1..] == [];
    } else {
      SortedTail(sorted, score);
      InsertDescUnfold(sorted, x, score);
      if score(sorted[0]) >= score(x) {
        InsertDescStable(sorted[1..], x, score, v);
        ConsStable(sorted, InsertDesc(sorted[1..], x, score), x, score, v);
      } else {
        FrontStable(sorted, x, score, v);
      }
    }
  }

  /** An element placed in front of both sides keeps them equal. */
  lemma ConsStable<E>(sorted: seq<E>, rest: seq<E>, x: E, score: E -> real, v: real)
    requires sorted != []
    requires WithScore(rest, score, v) == WithScore(sorted[1..], score, v) + WithScore([x], score, v)
    ensures WithScore([sorted[0]] + rest, score, v) == WithScore(sorted, score, v) + WithScore([x], score, v)
  {
    assert sorted == [sorted[0]] + sorted[1..];
    WithScoreCons(sorted[0], sorted[1..], score, v);
    WithScoreCons(sorted[0], rest, score, v);
  }

  /** `x` scoring above everything goes first, and nothing shares its score. */
  lemma FrontStable<E>(sorted: seq<E>, x: E, score: E -> real, v: real)
    requires sorted != [] && NonIncreasing(sorted, score) && score(sorted[0]) < score(x)
    ensures WithScore([x] + sorted, score, v) == WithScore(sorted, score, v) + WithScore([x], score, v)
  {
    WithScoreCons(x, sorted, score, v);
    if score(x) == v {
      forall i | 0 <= i < |sorted| ensures score(sorted[i]) != v {
        assert i == 0 || score(sorted[0]) >= score(sorted[i]);
      }
      WithScoreNone(sorted, score, v);
    }
  }

  /** The sort is stable: the elements of any one score come out in the
      order they went in. */
  lemma {:induction false} SortDescStable<E>(xs: seq<E>, score: E -> real, v: real)
    ensures WithScore(SortDesc(xs, score), score, v) == WithScore(xs, score, v)
  {
    if xs != [] {
      var init, x := xs[..|xs| - 1], xs[|xs| - 1];
      SortDescStable(init, score, v);
      InsertDescStable(SortDesc(init, score), x, score, v);
      assert xs == init + [x];
      WithScoreAppend(init, [x], score, v);
    }
  }

  /** Among equal scores, `lt` orders the elements. */
  predicate TiesOrdered<E>(r: seq<E>, score: E -> real, lt: (E, E) -> bool) {
    forall i, j :: 0 <= i < j < |r| && score(r[i]) == score(r[j]) ==> lt(r[i], r[j])
  }

  lemma ConsTies<E>(h: E, rest: seq<E>, score: E -> real, lt: (E, E) -> bool)
    requires TiesOrdered(rest, score, lt)
    requires forall j :: 0 <= j < |rest| && score(h) == score(rest[j]) ==> lt(h, rest[j])
    ensures TiesOrdered([h] + rest, score, lt)
  {
    var r := [h] + rest;
    forall i, j | 0 <= i < j < |r| && score(r[i]) == score(r[j]) ensures lt(r[i], r[j]) {
      assert r[j] == rest[j - 1];
      assert i > 0 ==> r[i] == rest[i - 1];
    }
  }

  lemma {:induction false} InsertDescTies<E>(sorted: seq<E>, x: E, score: E -> real, lt: (E, E) -> bool)
    requires NonIncreasing(sorted, score) && TiesOrdered(sorted, score, lt)
    requires forall i :: 0 <= i < |sorted| ==> lt(sorted[i], x)
    ensures TiesOrdered(InsertDesc(sorted, x, score), score, lt)
    decreases |sorted|
  {
    if sorted != [] {
      SortedTail(sorted, score);
      InsertDescUnfold(sorted, x, score);
      var h, tail := sorted[0], sorted[1..];
      if score(h) >= score(x) {
        var rest := InsertDesc(tail, x, score);
        assert TiesOrdered(tail, score, lt) by {
          forall i, j | 0 <= i < j < |tail| && score(tail[i]) == score(tail[j]) ensures lt(tail[i], tail[j]) {
            assert tail[i] == sorted[i + 1] && tail[j] == sorted[j + 1];
          }
        }
        InsertDescTies(tail, x, score, lt);
        InsertDescPerm(tail, x, score);
        forall j | 0 <= j < |rest| && score(h) == score(rest[j]) ensures lt(h, rest[j]) {
          assert rest[j] in multiset(rest);
          if rest[j] != x {
            assert rest[j] in multiset(tail);
            var k :| 0 <= k < |tail| && tail[k] == rest[j];
            assert sorted[k + 1] == rest[j];
          }
        }
        ConsTies(h, rest, score, lt);
      } else {
        forall j | 0 <= j < |sorted| ensures score(x) != score(sorted[j]) {
          assert j == 0 || score(sorted[0]) >= score(sorted[j]);
        }
        ConsTies(x, sorted, score, lt);
      }
    }
  }

  /** A prefix of a sequence whose ties are ordered has its ties ordered,
      and its elements come before the tied elements after position `m`. */
  lemma PrefixTies<E>(sorted: seq<E>, r: seq<E>, m: nat, score: E -> real, lt: (E, E) -> bool)
    requires TiesOrdered(sorted, score, lt)
    requires |r| <= m <= |sorted| && r == sorted[..|r|]
    ensures TiesOrdered(r, score, lt)
    ensures forall e, d :: e in r && d in sorted[m..] && score(d) == score(e) ==> lt(e, d)
  {
    forall i, j | 0 <= i < j < |r| && score(r[i]) == score(r[j]) ensures lt(r[i], r[j]) {
      assert r[i] == sorted[i] && r[j] == sorted[j];
    }
    forall e, d | e in r && d in sorted[m..] && score(d) == score(e) ensures lt(e, d) {
      var j :| 0 <= j < |r| && r[j] == e;
      var q :| 0 <= q < |sorted[m..]| && sorted[m..][q] == d;
      assert sorted[j] == e && sorted[m + q] == d;
    }
  }

  /** Sorting elements that `lt` orders leaves equal scores in `lt` order. */
  lemma {:induction false} SortDescTies<E>(xs: seq<E>, score: E -> real, lt: (E, E) -> bool)
    requires forall i, j :: 0 <= i < j < |xs| ==> lt(xs[i], xs[j])
    ensures TiesOrdered(SortDesc(xs, score), score, lt)
  {
    if xs != [] {
      var init, x := xs[..|xs| - 1], xs[|xs| - 1];
      SortDescTies(init, score, lt);
      var sorted := SortDesc(init, score);
      SortDescPerm(init, score);
      forall i | 0 <= i < |sorted| ensures lt(sorted[i], x) {
        assert sorted[i] in multiset(init);
        var k :| 0 <= k < |init| && init[k] == sorted[i];
      }
      InsertDescTies(sorted, x, score, lt);
    }
  }

  function Min(a: nat, b: nat): nat {
    if a <= b then a else b
  }

  /** `nlargest(n)`: the first `n` after a stable sort by decreasing score. */
  function Largest<E>(xs: seq<E>, n: nat, score: E -> real): seq<E> {
    SortDesc(xs, score)[..Min(n, |xs|)]
  }

  /** What `nlargest(n)` leaves out. */
  function Dropped<E>(xs: seq<E>, n: nat, score: E -> real): seq<E> {
    SortDesc(xs, score)[Min(n, |xs|)..]
  }

  /** The `n` largest: `min(n, |xs|)` of the elements, by decreasing
      score; together with the ones left out they are all of `xs`, and
      every one left out scores no more than any one taken. */
  lemma LargestTop<E>(xs: seq<E>, n: nat, score: E -> real)
    ensures var r := Largest(xs, n, score); var rest := Dropped(xs, n, score);
      |r| == Min(n, |xs|) && NonIncreasing(r, score) && multiset(xs) == multiset(r + rest) &&
      forall j, k :: 0 <= j < |r| && 0 <= k < |rest| ==> score(rest[k]) <= score(r[j])
  {
    var s := SortDesc(xs, score);
    SortDescPerm(xs, score);
    SplitSorted(s, Min(n, |xs|), score);
  }

  /** Cutting a sequence sorted by decreasing score keeps both halves
      sorted and puts nothing in the tail above anything in the head. */
  lemma SplitSorted<E>(s: seq<E>, m: nat, score: E -> real)
    requires m <= |s| && NonIncreasing(s, score)
    ensures s == s[..m] + s[m..] && NonIncreasing(s[..m], score)
    ensures forall j, k :: 0 <= j < m && 0 <= k < |s| - m ==> score(s[m..][k]) <= score(s[..m][j])
  {
    forall j, k | 0 <= j < m && 0 <= k < |s| - m ensures score(s[m..][k]) <= score(s[..m][j]) {
      assert s[m..][k] == s[m + k] && s[..m][j] == s[j];
    }
  }
}
