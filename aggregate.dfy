/**
 * The aggregation helpers of the chatbot (bot2.py lines 106-121, 128-140,
 * 154-157) and the column totals the dispatcher prints: top references by
 * amount, transactions per day, monthly and weekly sums, transactions per
 * reference.
 */
module Aggregate {
  import opened Wrappers
  import opened Amounts
  import opened Ledger
  import opened Grouping
  import opened Orders

  function RefKey(t: Txn): Option<string> {
    t.reference
  }

  function DayKey(t: Txn): Option<Date> {
    t.date
  }

  function ValueOf(col: Canon): Txn -> real {
    (t: Txn) => AmountOf(t, col)
  }

  /** The reference of a row that has one. */
  ghost predicate IsReference(s: Store, k: string) {
    exists i :: 0 <= i < |s.rows| && s.rows[i].reference == Some(k)
  }

  // ---------------------------------------------------------------------
  // get_top_debits / get_top_credits (bot2.py lines 106-116)

  function Amount(e: (string, real)): real {
    e.1
  }

  /** A total as `groupby("Reference")[col].sum()` reports it: a reference
      of some row, with the sum of the column over its rows. */
  ghost predicate Exact(s: Store, col: Canon, e: (string, real)) {
    IsReference(s, e.0) && e.1 == SumOf(s.rows, RefKey, e.0, ValueOf(col))
  }

  /** No entry twice. */
  ghost predicate NoDup<E(!new)>(xs: seq<E>) {
    forall i, j :: 0 <= i < j < |xs| ==> xs[i] != xs[j]
  }

  /** `df.groupby("Reference")[col].sum()`: one total per reference, in
      reference order. */
  function RefTotals(s: Store, col: Canon): (r: seq<(string, real)>)
    ensures forall e :: e in r ==> Exact(s, col, e)
  {
    StrOrder();
    var ks := Groups(s.rows, RefKey, StrLt);
    seq(|ks|, i requires 0 <= i < |ks| => (ks[i], SumOf(s.rows, RefKey, ks[i], ValueOf(col))))
  }

  /** Every reference has its total in the grouped series, once. */
  lemma RefTotalsComplete(s: Store, col: Canon)
    ensures forall k :: IsReference(s, k) ==> (k, SumOf(s.rows, RefKey, k, ValueOf(col))) in RefTotals(s, col)
    ensures NoDup(RefTotals(s, col))
  {
    StrOrder();
    var ks := Groups(s.rows, RefKey, StrLt);
    AscendingDistinct(ks, StrLt);
    var r := RefTotals(s, col);
    forall k | IsReference(s, k) ensures (k, SumOf(s.rows, RefKey, k, ValueOf(col))) in r {
      var i :| 0 <= i < |s.rows| && s.rows[i].reference == Some(k);
      assert RefKey(s.rows[i]) == Some(k);
      var j :| 0 <= j < |ks| && ks[j] == k;
      assert r[j] == (k, SumOf(s.rows, RefKey, k, ValueOf(col)));
    }
    forall i, j | 0 <= i < j < |r| ensures r[i] != r[j] {
      assert r[i].0 == ks[i] && r[j].0 == ks[j];
    }
  }

  /** `top[top > 0]`. */
  function Positive(xs: seq<(string, real)>): (r: seq<(string, real)>)
    ensures |r| <= |xs|
    ensures forall e :: e in r <==> e in xs && e.1 > 0.0
  {
    if xs == [] then []
    else if xs[0].1 > 0.0 then [xs[0]] + Positive(xs[1..])
    else Positive(xs[1..])
  }

  /** Keeping the positive entries keeps their order. */
  lemma {:induction false} PositiveSorted(xs: seq<(string, real)>)
    requires NonIncreasing(xs, Amount)
    ensures NonIncreasing(Positive(xs), Amount)
  {
    if xs != [] {
      SortedTail(xs, Amount);
      PositiveSorted(xs[1..]);
      if xs[0].1 > 0.0 {
        SortedHead(xs, Amount);
        SortedCons(xs[0], Positive(xs[1..]), Amount);
      }
    }
  }

  /** Keeping the positive entries repeats none. */
  lemma {:induction false} PositiveNoDup(xs: seq<(string, real)>)
    requires NoDup(xs)
    ensures NoDup(Positive(xs))
  {
    if xs != [] {
      PositiveNoDup(xs[1..]);
      var rest := Positive(xs[1..]);
      if xs[0].1 > 0.0 {
        var r := [xs[0]] + rest;
        forall j | 0 < j < |r| ensures r[0] != r[j] {
          assert r[j] in xs[1..];
        }
        forall i, j | 0 < i < j < |r| ensures r[i] != r[j] {
          assert r[i] == rest[i - 1] && r[j] == rest[j - 1];
        }
      }
    }
  }

  /** An element of a sequence without repeats occurs in it once. */
  lemma {:induction false} NoDupOnce<E(!new)>(xs: seq<E>, e: E)
    requires NoDup(xs)
    ensures multiset(xs)[e] <= 1
  {
    if xs != [] {
      assert xs == [xs[0]] + xs[1..];
      NoDupOnce(xs[1..], e);
      assert xs[0] !in xs[1..] by {
        forall k | 0 <= k < |xs[1..]| ensures xs[1..][k] != xs[0] {
          assert xs[1..][k] == xs[k + 1];
        }
      }
    }
  }

  /** A reordering of a sequence without repeats has none. */
  lemma NoDupPerm<E(!new)>(xs: seq<E>, ys: seq<E>)
    requires multiset(xs) == multiset(ys) && NoDup(xs)
    ensures NoDup(ys)
  {
    forall i, j | 0 <= i < j < |ys| ensures ys[i] != ys[j] {
      NoDupOnce(xs, ys[i]);
      PairCounted(ys, i, j);
    }
  }

  lemma PairCounted<E>(ys: seq<E>, i: nat, j: nat)
    requires i < j < |ys|
    ensures multiset(ys)[ys[i]] >= if ys[i] == ys[j] then 2 else 1
  {
    assert ys == ys[..i] + [ys[i]] + ys[i + 1..j] + [ys[j]] + ys[j + 1..];
  }

  /** `groupby("Reference")[col].sum().nlargest(n)`, then the positive ones;
      an empty series unless the table has both columns. */
  function TopAmounts(s: Store, col: Canon, n: nat): seq<(string, real)> {
    if Has(s, col) && Has(s, ReferenceCol) then Positive(Largest(RefTotals(s, col), n, Amount)) else []
  }

  function TopDebits(s: Store, n: nat): seq<(string, real)> {
    TopAmounts(s, DebitCol, n)
  }

  function TopCredits(s: Store, n: nat): seq<(string, real)> {
    TopAmounts(s, CreditCol, n)
  }

  /** The entries of the `n` largest are entries of the series, and those
      left out are the rest. */
  lemma LargestFrom(xs: seq<(string, real)>, n: nat)
    ensures forall e :: e in Largest(xs, n, Amount) ==> e in xs
    ensures forall e :: e in xs ==> e in Largest(xs, n, Amount) || e in Dropped(xs, n, Amount)
  {
    LargestTop(xs, n, Amount);
    var r, rest := Largest(xs, n, Amount), Dropped(xs, n, Amount);
    forall e | e in r ensures e in xs {
      assert e in multiset(r + rest);
    }
    forall e | e in xs ensures e in r || e in rest {
      assert e in multiset(r + rest);
    }
  }

  /** The `n` largest of a series without repeats repeat nothing. */
  lemma LargestNoDup(xs: seq<(string, real)>, n: nat)
    requires NoDup(xs)
    ensures NoDup(Largest(xs, n, Amount))
  {
    SortDescPerm(xs, Amount);
    NoDupPerm(xs, SortDesc(xs, Amount));
  }

  /** Entries that are exact totals and differ have different references. */
  lemma DistinctRefs(s: Store, col: Canon, r: seq<(string, real)>)
    requires NoDup(r) && forall e :: e in r ==> Exact(s, col, e)
    ensures forall i, j :: 0 <= i < j < |r| ==> r[i].0 != r[j].0
  {
    forall i, j | 0 <= i < j < |r| ensures r[i].0 != r[j].0 {
      assert Exact(s, col, r[i]) && Exact(s, col, r[j]);
    }
  }

  /** The top references: at most `n`, every total positive, largest
      first, no reference twice, each the total of its rows; nothing
      unless the table has the amount column and Reference. */
  lemma TopShape(s: Store, col: Canon, n: nat)
    ensures |TopAmounts(s, col, n)| <= n
    ensures !(Has(s, col) && Has(s, ReferenceCol)) ==> TopAmounts(s, col, n) == []
    ensures forall e :: e in TopAmounts(s, col, n) ==> e.1 > 0.0 && Exact(s, col, e)
    ensures NonIncreasing(TopAmounts(s, col, n), Amount)
    ensures forall i, j :: 0 <= i < j < |TopAmounts(s, col, n)| ==> TopAmounts(s, col, n)[i].0 != TopAmounts(s, col, n)[j].0
  {
    if Has(s, col) && Has(s, ReferenceCol) {
      var totals := RefTotals(s, col);
      var top := Largest(totals, n, Amount);
      LargestTop(totals, n, Amount);
      LargestFrom(totals, n);
      RefTotalsComplete(s, col);
      LargestNoDup(totals, n);
      PositiveSorted(top);
      PositiveNoDup(top);
      DistinctRefs(s, col, Positive(top));
    }
  }

  /** Entries in reference order, the order `groupby` lists them in. */
  predicate RefLt(a: (string, real), b: (string, real)) {
    StrLt(a.0, b.0)
  }

  /** Of entries by decreasing total, the positive ones are a prefix. */
  lemma {:induction false} PositivePrefix(xs: seq<(string, real)>)
    requires NonIncreasing(xs, Amount)
    ensures Positive(xs) == xs[..|Positive(xs)|]
  {
    if xs != [] {
      if xs[0].1 > 0.0 {
        SortedTail(xs, Amount);
        PositivePrefix(xs[1..]);
        assert xs[1..][..|Positive(xs[1..])|] == xs[1..|Positive(xs[1..])| + 1];
      } else {
        assert forall e :: e in xs ==> e.1 <= 0.0 by {
          forall e | e in xs ensures e.1 <= 0.0 {
            var k :| 0 <= k < |xs| && xs[k] == e;
            assert k == 0 || Amount(xs[0]) >= Amount(xs[k]);
          }
        }
        PositiveNone(xs);
      }
    }
  }

  lemma {:induction false} PositiveNone(xs: seq<(string, real)>)
    requires forall e :: e in xs ==> e.1 <= 0.0
    ensures Positive(xs) == []
  {
    if xs != [] {
      PositiveNone(xs[1..]);
    }
  }

  /** With the entries in reference order, the `n` largest positive ones
      list equal totals in reference order, before any left out with the
      same total. */
  lemma LargestTies(totals: seq<(string, real)>, n: nat)
    requires forall i, j :: 0 <= i < j < |totals| ==> RefLt(totals[i], totals[j])
    ensures TiesOrdered(Positive(Largest(totals, n, Amount)), Amount, RefLt)
    ensures forall e, d :: e in Positive(Largest(totals, n, Amount)) && d in Dropped(totals, n, Amount) && d.1 == e.1 ==>
      RefLt(e, d)
  {
    var sorted := SortDesc(totals, Amount);
    var m := Min(n, |totals|);
    var top := sorted[..m];
    SortDescTies(totals, Amount, RefLt);
    SplitSorted(sorted, m, Amount);
    PositivePrefix(top);
    var r := Positive(top);
    assert r == sorted[..|r|];
    PrefixTies(sorted, r, m, Amount, RefLt);
  }

  /** `groupby` lists the totals in reference order. */
  lemma RefTotalsOrdered(s: Store, col: Canon)
    ensures forall i, j :: 0 <= i < j < |RefTotals(s, col)| ==> RefLt(RefTotals(s, col)[i], RefTotals(s, col)[j])
  {
    StrOrder();
    var totals := RefTotals(s, col);
    var ks := Groups(s.rows, RefKey, StrLt);
    forall i, j | 0 <= i < j < |totals| ensures RefLt(totals[i], totals[j]) {
      assert totals[i].0 == ks[i] && totals[j].0 == ks[j];
    }
  }

  /** An entry the `n` largest leave out comes after every positive
      entry taken with the same total. */
  lemma LeftOutAfter(totals: seq<(string, real)>, n: nat, e: (string, real), d: (string, real))
    requires forall i, j :: 0 <= i < j < |totals| ==> RefLt(totals[i], totals[j])
    requires d in totals && d !in Largest(totals, n, Amount)
    requires e in Positive(Largest(totals, n, Amount)) && d.1 == e.1
    ensures RefLt(e, d)
  {
    LargestFrom(totals, n);
    LargestTies(totals, n);
  }

  /** `nlargest` keeps the first of equal totals, and the totals come in
      reference order: among equal totals in the top list, the references
      ascend, and a reference left out with the total of a listed one
      comes after it. */
  lemma TopTies(s: Store, col: Canon, n: nat)
    ensures var top := TopAmounts(s, col, n);
      forall i, j :: 0 <= i < j < |top| && top[i].1 == top[j].1 ==> StrLt(top[i].0, top[j].0)
    ensures var top := TopAmounts(s, col, n);
      forall k, e :: (IsReference(s, k) && e in top && e.1 == SumOf(s.rows, RefKey, k, ValueOf(col)) &&
        (forall d :: d in top ==> d.0 != k)) ==> StrLt(e.0, k)
  {
    if Has(s, col) && Has(s, ReferenceCol) {
      var totals := RefTotals(s, col);
      RefTotalsOrdered(s, col);
      LargestTies(totals, n);
      RefTotalsComplete(s, col);
      var r := TopAmounts(s, col, n);
      forall k, e | IsReference(s, k) && e in r && e.1 == SumOf(s.rows, RefKey, k, ValueOf(col)) &&
          (forall d :: d in r ==> d.0 != k)
        ensures StrLt(e.0, k)
      {
        var d := (k, SumOf(s.rows, RefKey, k, ValueOf(col)));
        assert d in totals;
        assert d !in Largest(totals, n, Amount) by {
          assert d.1 > 0.0;
          assert d !in r;
        }
        LeftOutAfter(totals, n, e, d);
      }
    }
  }

  /** No reference with a positive total is left out unless `n` entries,
      each at least as large, were taken. */
  lemma TopComplete(s: Store, col: Canon, n: nat, k: string)
    requires Has(s, col) && Has(s, ReferenceCol) && IsReference(s, k)
    requires SumOf(s.rows, RefKey, k, ValueOf(col)) > 0.0
    requires forall e :: e in TopAmounts(s, col, n) ==> e.0 != k
    ensures |TopAmounts(s, col, n)| == n
    ensures forall e :: e in TopAmounts(s, col, n) ==> e.1 >= SumOf(s.rows, RefKey, k, ValueOf(col))
  {
    var totals := RefTotals(s, col);
    var top, rest := Largest(totals, n, Amount), Dropped(totals, n, Amount);
    var v := SumOf(s.rows, RefKey, k, ValueOf(col));
    RefTotalsComplete(s, col);
    LargestTop(totals, n, Amount);
    LargestFrom(totals, n);
    assert (k, v) in totals;
    assert (k, v) !in top;
    var q :| 0 <= q < |rest| && rest[q] == (k, v);
    assert forall j :: 0 <= j < |top| ==> top[j].1 >= v;
    assert |top| == n by {
      assert |top| + |rest| == |totals| by {
        assert |multiset(totals)| == |multiset(top + rest)|;
      }
    }
    PositiveAll(top);
  }

  lemma {:induction false} PositiveAll(xs: seq<(string, real)>)
    requires forall i :: 0 <= i < |xs| ==> xs[i].1 > 0.0
    ensures Positive(xs) == xs
  {
    if xs != [] {
      PositiveAll(xs[1..]);
    }
  }

  /** The first of the `n` largest is at least every entry of the series. */
  lemma LargestHead(xs: seq<(string, real)>, n: nat)
    requires n >= 1 && xs != []
    ensures Largest(xs, n, Amount) != []
    ensures forall e :: e in xs ==> e.1 <= Largest(xs, n, Amount)[0].1
  {
    var top, rest := Largest(xs, n, Amount), Dropped(xs, n, Amount);
    LargestTop(xs, n, Amount);
    LargestFrom(xs, n);
    forall e | e in xs ensures e.1 <= top[0].1 {
      if e in top {
        var j :| 0 <= j < |top| && top[j] == e;
      } else {
        var q :| 0 <= q < |rest| && rest[q] == e;
      }
    }
  }

  /** What the "highest" answers show: with both columns and `n >= 1`,
      the top is empty exactly when no reference has a positive total,
      and otherwise its first entry is the largest total of all. */
  lemma TopHead(s: Store, col: Canon, n: nat)
    requires Has(s, col) && Has(s, ReferenceCol) && n >= 1
    ensures TopAmounts(s, col, n) != [] <==> exists k :: IsReference(s, k) && SumOf(s.rows, RefKey, k, ValueOf(col)) > 0.0
    ensures TopAmounts(s, col, n) != [] ==>
      forall k :: IsReference(s, k) ==> SumOf(s.rows, RefKey, k, ValueOf(col)) <= TopAmounts(s, col, n)[0].1
  {
    var totals := RefTotals(s, col);
    var top := Largest(totals, n, Amount);
    var r := TopAmounts(s, col, n);
    RefTotalsComplete(s, col);
    LargestTop(totals, n, Amount);
    LargestFrom(totals, n);
    if r != [] {
      assert r[0] in r;
      assert Exact(s, col, r[0]);
      assert top[0].1 >= r[0].1 by {
        var j :| 0 <= j < |top| && top[j] == r[0];
      }
      assert r[0] == top[0];
      LargestHead(totals, n);
      forall k | IsReference(s, k) ensures SumOf(s.rows, RefKey, k, ValueOf(col)) <= r[0].1 {
        assert (k, SumOf(s.rows, RefKey, k, ValueOf(col))) in totals;
      }
    }
    if exists k :: IsReference(s, k) && SumOf(s.rows, RefKey, k, ValueOf(col)) > 0.0 {
      var k :| IsReference(s, k) && SumOf(s.rows, RefKey, k, ValueOf(col)) > 0.0;
      assert (k, SumOf(s.rows, RefKey, k, ValueOf(col))) in totals;
      LargestHead(totals, n);
      assert top[0] in r;
    }
  }

  // ---------------------------------------------------------------------
  // Counting rows per key: get_day_counts (bot2.py lines 118-121) and
  // transaction_count_by_reference (bot2.py lines 154-157)

  /** One `(key, number of rows with that key)` entry per key of `ks`. */
  function Counted<K(==,!new)>(ks: seq<K>, rows: seq<Txn>, key: Txn -> Option<K>): (r: seq<(K, nat)>)
    ensures |r| == |ks|
    ensures forall i :: 0 <= i < |r| ==> r[i] == (ks[i], CountOf(rows, key, ks[i]))
  {
    if ks == [] then [] else [(ks[0], CountOf(rows, key, ks[0]))] + Counted(ks[1..], rows, key)
  }

  function Tally<K>(e: (K, nat)): nat {
    e.1
  }

  /** The sum of the counts of a series. */
  function TallySum<K>(xs: seq<(K, nat)>): nat {
    if xs == [] then 0 else xs[0].1 + TallySum(xs[1..])
  }

  lemma {:induction false} CountedSum<K(!new)>(ks: seq<K>, rows: seq<Txn>, key: Txn -> Option<K>)
    ensures TallySum(Counted(ks, rows, key)) == TotalCount(ks, rows, key)
  {
    if ks != [] {
      CountedSum(ks[1..], rows, key);
      assert Counted(ks, rows, key)[1..] == Counted(ks[1..], rows, key);
    }
  }

  /** `df.groupby("Date").size()`: the number of rows per date, dates
      ascending, rows without a date left out. */
  function DayCounts(s: Store): seq<(Date, nat)> {
    DateOrder();
    if Has(s, DateCol) then Counted(Groups(s.rows, DayKey, DateLt), s.rows, DayKey) else []
  }

  /** Some entry of the counts is for day `d`. */
  ghost predicate Listed(counts: seq<(Date, nat)>, d: Date) {
    exists i :: 0 <= i < |counts| && counts[i].0 == d
  }

  /** Some row is dated `d`. */
  ghost predicate DatedOn(rows: seq<Txn>, d: Date) {
    exists i :: 0 <= i < |rows| && rows[i].date == Some(d)
  }

  /** Every date with rows appears, once, in ascending order, with the
      number of its rows; the counts add up to the rows that have a date. */
  lemma DayCountsShape(s: Store)
    requires Has(s, DateCol)
    ensures forall i, j :: 0 <= i < j < |DayCounts(s)| ==> DateLt(DayCounts(s)[i].0, DayCounts(s)[j].0)
    ensures forall d :: Listed(DayCounts(s), d) <==> DatedOn(s.rows, d)
    ensures forall i :: 0 <= i < |DayCounts(s)| ==> DayCounts(s)[i].1 == CountOf(s.rows, DayKey, DayCounts(s)[i].0)
    ensures TallySum(DayCounts(s)) == |KeysOf(s.rows, DayKey)|
  {
    DateOrder();
    var ks := Groups(s.rows, DayKey, DateLt);
    var r := DayCounts(s);
    AscendingDistinct(ks, DateLt);
    KeysListed(r, ks);
    forall d ensures d in ks <==> DatedOn(s.rows, d) {
      if DatedOn(s.rows, d) {
        var i :| 0 <= i < |s.rows| && s.rows[i].date == Some(d);
        assert DayKey(s.rows[i]) == Some(d);
      }
      if d in ks {
        var j :| 0 <= j < |s.rows| && DayKey(s.rows[j]) == Some(d);
        assert s.rows[j].date == Some(d);
      }
    }
    CountedSum(ks, s.rows, DayKey);
    CountsPartition(ks, s.rows, DayKey);
  }

  /** The days listed in counts made one per key are those keys. */
  lemma KeysListed(r: seq<(Date, nat)>, ks: seq<Date>)
    requires |r| == |ks| && forall i :: 0 <= i < |r| ==> r[i].0 == ks[i]
    ensures forall d :: Listed(r, d) <==> d in ks
  {
    forall d ensures Listed(r, d) <==> d in ks {
      if d in ks {
        var j :| 0 <= j < |ks| && ks[j] == d;
        assert r[j].0 == d;
      }
    }
  }

  /** `idxmax`: the first index holding the largest score. */
  function ArgMax<E>(xs: seq<E>, score: E -> real): (i: nat)
    requires xs != []
    ensures i < |xs|
    ensures forall j :: 0 <= j < |xs| ==> score(xs[j]) <= score(xs[i])
    ensures forall j :: 0 <= j < i ==> score(xs[j]) < score(xs[i])
  {
    if |xs| == 1 then 0
    else
      var k := ArgMax(xs[..|xs| - 1], score);
      assert forall j :: 0 <= j < |xs| - 1 ==> xs[..|xs| - 1][j] == xs[j];
      if score(xs[|xs| - 1]) > score(xs[k]) then |xs| - 1 else k
  }

  /** On a series sorted largest first, `idxmax` is its first entry. */
  lemma ArgMaxSorted<E>(xs: seq<E>, score: E -> real)
    requires xs != [] && NonIncreasing(xs, score)
    ensures ArgMax(xs, score) == 0
  {
    var i := ArgMax(xs, score);
    assert score(xs[0]) >= score(xs[i]);
  }

  function DayScore(e: (Date, nat)): real {
    e.1 as real
  }

  function RefScore(e: (string, nat)): real {
    e.1 as real
  }

  /** `df["Reference"].value_counts()`: the number of rows per reference,
      most frequent first; rows without a reference left out. */
  function CountByReference(s: Store): seq<(string, nat)> {
    if Has(s, ReferenceCol) then SortDesc(RefCounts(s), RefScore) else []
  }

  lemma {:induction false} InsertDescSum(sorted: seq<(string, nat)>, x: (string, nat))
    requires NonIncreasing(sorted, RefScore)
    ensures TallySum(InsertDesc(sorted, x, RefScore)) == TallySum(sorted) + x.1
    decreases |sorted|
  {
    if sorted != [] && RefScore(sorted[0]) >= RefScore(x) {
      InsertDescSum(sorted[1..], x);
    }
  }

  lemma {:induction false} TallySnoc<K>(xs: seq<(K, nat)>)
    requires xs != []
    ensures TallySum(xs) == TallySum(xs[..|xs| - 1]) + xs[|xs| - 1].1
  {
    if |xs| > 1 {
      TallySnoc(xs[1..]);
      assert xs[1..][..|xs[1..]| - 1] == xs[..|xs| - 1][1..];
    }
  }

  /** Sorting the counts keeps their sum. */
  lemma {:induction false} SortDescSum(xs: seq<(string, nat)>)
    ensures TallySum(SortDesc(xs, RefScore)) == TallySum(xs)
  {
    if xs != [] {
      SortDescSum(xs[..|xs| - 1]);
      InsertDescSum(SortDesc(xs[..|xs| - 1], RefScore), xs[|xs| - 1]);
      TallySnoc(xs);
    }
  }

  /** The counts per reference before sorting. */
  function RefCounts(s: Store): seq<(string, nat)> {
    StrOrder();
    Counted(Groups(s.rows, RefKey, StrLt), s.rows, RefKey)
  }

  /** Before sorting: every reference once with the number of its rows,
      nothing else, and the counts add up to the rows with a reference. */
  lemma RefCountsShape(s: Store)
    ensures forall e :: e in RefCounts(s) ==> IsReference(s, e.0) && e.1 == CountOf(s.rows, RefKey, e.0)
    ensures forall k :: IsReference(s, k) ==> (k, CountOf(s.rows, RefKey, k)) in RefCounts(s)
    ensures NoDup(RefCounts(s))
    ensures TallySum(RefCounts(s)) == |KeysOf(s.rows, RefKey)|
  {
    StrOrder();
    var ks := Groups(s.rows, RefKey, StrLt);
    AscendingDistinct(ks, StrLt);
    RefCountsExact(s);
    RefCountsComplete(s);
    CountedNoDup(ks, s.rows, RefKey);
    CountedSum(ks, s.rows, RefKey);
    CountsPartition(ks, s.rows, RefKey);
  }

  lemma RefCountsExact(s: Store)
    ensures forall e :: e in RefCounts(s) ==> IsReference(s, e.0) && e.1 == CountOf(s.rows, RefKey, e.0)
  {
    StrOrder();
    var ks := Groups(s.rows, RefKey, StrLt);
    var c := RefCounts(s);
    forall e | e in c ensures IsReference(s, e.0) && e.1 == CountOf(s.rows, RefKey, e.0) {
      var i :| 0 <= i < |c| && c[i] == e;
      assert ks[i] in ks;
    }
  }

  lemma RefCountsComplete(s: Store)
    ensures forall k :: IsReference(s, k) ==> (k, CountOf(s.rows, RefKey, k)) in RefCounts(s)
  {
    StrOrder();
    var ks := Groups(s.rows, RefKey, StrLt);
    var c := RefCounts(s);
    forall k | IsReference(s, k) ensures (k, CountOf(s.rows, RefKey, k)) in c {
      var i :| 0 <= i < |s.rows| && s.rows[i].reference == Some(k);
      assert RefKey(s.rows[i]) == Some(k);
      var j :| 0 <= j < |ks| && ks[j] == k;
      assert c[j] == (k, CountOf(s.rows, RefKey, k));
    }
  }

  /** Counts made one per key of distinct keys repeat no entry. */
  lemma CountedNoDup<K(!new)>(ks: seq<K>, rows: seq<Txn>, key: Txn -> Option<K>)
    requires forall i, j :: 0 <= i < j < |ks| ==> ks[i] != ks[j]
    ensures NoDup(Counted(ks, rows, key))
  {
    var c := Counted(ks, rows, key);
    forall i, j | 0 <= i < j < |c| ensures c[i] != c[j] {
      assert c[i].0 == ks[i];
    }
  }

  /** Sorting the counts largest first keeps each entry, repeats none and
      keeps their sum. */
  lemma SortedCounts(s: Store, c: seq<(string, nat)>)
    requires forall e :: e in c ==> IsReference(s, e.0) && e.1 == CountOf(s.rows, RefKey, e.0)
    requires NoDup(c)
    ensures forall e :: e in SortDesc(c, RefScore) <==> e in c
    ensures forall i, j :: 0 <= i < j < |SortDesc(c, RefScore)| ==> SortDesc(c, RefScore)[i].0 != SortDesc(c, RefScore)[j].0
    ensures TallySum(SortDesc(c, RefScore)) == TallySum(c)
  {
    var r := SortDesc(c, RefScore);
    SortDescPerm(c, RefScore);
    SameElements(c, r);
    NoDupPerm(c, r);
    forall i, j | 0 <= i < j < |r| ensures r[i].0 != r[j].0 {
      assert r[i] in c && r[j] in c;
    }
    SortDescSum(c);
  }

  /** The reference counts: most frequent first, every reference once with
      the number of its rows, nothing else; the counts add up to the rows
      that have a reference. */
  lemma CountByReferenceShape(s: Store)
    requires Has(s, ReferenceCol)
    ensures NonIncreasing(CountByReference(s), RefScore)
    ensures forall e :: e in CountByReference(s) ==> IsReference(s, e.0) && e.1 == CountOf(s.rows, RefKey, e.0)
    ensures forall k :: IsReference(s, k) ==> (k, CountOf(s.rows, RefKey, k)) in CountByReference(s)
    ensures forall i, j :: 0 <= i < j < |CountByReference(s)| ==> CountByReference(s)[i].0 != CountByReference(s)[j].0
    ensures TallySum(CountByReference(s)) == |KeysOf(s.rows, RefKey)|
  {
    RefCountsShape(s);
    SortedCounts(s, RefCounts(s));
  }

  lemma SameElements<E>(xs: seq<E>, ys: seq<E>)
    requires multiset(xs) == multiset(ys)
    ensures forall e :: e in xs <==> e in ys
  {
    forall e ensures e in xs <==> e in ys {
      assert e in xs <==> e in multiset(xs);
      assert e in ys <==> e in multiset(ys);
    }
  }

  // ---------------------------------------------------------------------
  // get_monthly_summary / get_weekly_summary (bot2.py lines 128-140)

  /** One row of a summary: the period with its debit and credit sums. */
  datatype Bucket<K> = Bucket(period: K, debit: real, credit: real)

  function MonthKey(t: Txn): Option<Month> {
    if t.date.Some? then Some(Month(t.date.value.year, t.date.value.month)) else None
  }

  /** The week of a row's date under `weekOf`, the calendar's week numbering. */
  function WeekKey(weekOf: Date -> int): Txn -> Option<int> {
    (t: Txn) => if t.date.Some? then Some(weekOf(t.date.value)) else None
  }

  function Buckets<K(==,!new)>(ks: seq<K>, rows: seq<Txn>, key: Txn -> Option<K>): (r: seq<Bucket<K>>)
    ensures |r| == |ks|
    ensures forall i :: 0 <= i < |r| ==>
      r[i] == Bucket(ks[i], SumOf(rows, key, ks[i], ValueOf(DebitCol)), SumOf(rows, key, ks[i], ValueOf(CreditCol)))
  {
    if ks == [] then []
    else [Bucket(ks[0], SumOf(rows, key, ks[0], ValueOf(DebitCol)), SumOf(rows, key, ks[0], ValueOf(CreditCol)))] + Buckets(ks[1..], rows, key)
  }

  /** `df.groupby(period)[["Debit", "Credit"]].sum()`: an empty summary
      without a Date column; the missing column when Debit or Credit is
      absent (pandas raises a KeyError). */
  function Summary<K(==,!new)>(s: Store, key: Txn -> Option<K>, lt: (K, K) -> bool): Result<seq<Bucket<K>>, Canon>
    requires StrictTotal(lt)
  {
    if !Has(s, DateCol) then Ok([])
    else if !Has(s, DebitCol) then Err(DebitCol)
    else if !Has(s, CreditCol) then Err(CreditCol)
    else Ok(Buckets(Groups(s.rows, key, lt), s.rows, key))
  }

  function MonthlySummary(s: Store): Result<seq<Bucket<Month>>, Canon> {
    MonthOrder();
    Summary(s, MonthKey, MonthLt)
  }

  function WeeklySummary(s: Store, weekOf: Date -> int): Result<seq<Bucket<int>>, Canon> {
    IntOrder();
    Summary(s, WeekKey(weekOf), IntLt)
  }

  function DebitTotal<K>(bs: seq<Bucket<K>>): real {
    if bs == [] then 0.0 else bs[0].debit + DebitTotal(bs[1..])
  }

  function CreditTotal<K>(bs: seq<Bucket<K>>): real {
    if bs == [] then 0.0 else bs[0].credit + CreditTotal(bs[1..])
  }

  lemma {:induction false} BucketTotals<K(!new)>(ks: seq<K>, rows: seq<Txn>, key: Txn -> Option<K>)
    ensures DebitTotal(Buckets(ks, rows, key)) == TotalSum(ks, rows, key, ValueOf(DebitCol))
    ensures CreditTotal(Buckets(ks, rows, key)) == TotalSum(ks, rows, key, ValueOf(CreditCol))
  {
    if ks != [] {
      BucketTotals(ks[1..], rows, key);
      assert Buckets(ks, rows, key)[1..] == Buckets(ks[1..], rows, key);
    }
  }

  /** A summary fails exactly when Date is there and Debit or Credit is
      not; otherwise its periods ascend, are exactly the periods of the
      rows, each with the sums of its rows, and the buckets add up to the
      sums over every row that has a period. */
  lemma SummaryShape<K(!new)>(s: Store, key: Txn -> Option<K>, lt: (K, K) -> bool)
    requires StrictTotal(lt)
    ensures Summary(s, key, lt).Err? <==> Has(s, DateCol) && !(Has(s, DebitCol) && Has(s, CreditCol))
    ensures Summary(s, key, lt).Ok? && Has(s, DateCol) ==> SummaryFacts(s, key, lt, Summary(s, key, lt).value)
  {
    if Has(s, DateCol) && Has(s, DebitCol) && Has(s, CreditCol) {
      BucketsShape(s.rows, key, lt);
    }
  }

  ghost predicate SummaryFacts<K(!new)>(s: Store, key: Txn -> Option<K>, lt: (K, K) -> bool, bs: seq<Bucket<K>>) {
    BucketFacts(s.rows, key, lt, bs)
  }

  /** The buckets of `rows`: ascending periods, exactly the periods of the
      rows, each with the sums of its rows, adding up to the sums over
      every row that has a period. */
  ghost predicate BucketFacts<K(!new)>(rows: seq<Txn>, key: Txn -> Option<K>, lt: (K, K) -> bool, bs: seq<Bucket<K>>) {
    (forall i, j :: 0 <= i < j < |bs| ==> lt(bs[i].period, bs[j].period)) &&
    (forall k :: (exists i :: 0 <= i < |bs| && bs[i].period == k) <==> (exists i :: 0 <= i < |rows| && key(rows[i]) == Some(k))) &&
    (forall i :: 0 <= i < |bs| ==> bs[i].debit == SumOf(rows, key, bs[i].period, ValueOf(DebitCol))) &&
    (forall i :: 0 <= i < |bs| ==> bs[i].credit == SumOf(rows, key, bs[i].period, ValueOf(CreditCol))) &&
    DebitTotal(bs) == KeyedSum(rows, key, ValueOf(DebitCol)) &&
    CreditTotal(bs) == KeyedSum(rows, key, ValueOf(CreditCol))
  }

  lemma BucketsShape<K(!new)>(rows: seq<Txn>, key: Txn -> Option<K>, lt: (K, K) -> bool)
    requires StrictTotal(lt)
    ensures BucketFacts(rows, key, lt, Buckets(Groups(rows, key, lt), rows, key))
  {
    var ks := Groups(rows, key, lt);
    AscendingDistinct(ks, lt);
    var bs := Buckets(ks, rows, key);
    PeriodsOf(bs, ks);
    BucketTotals(ks, rows, key);
    SumsPartition(ks, rows, key, ValueOf(DebitCol));
    SumsPartition(ks, rows, key, ValueOf(CreditCol));
  }

  /** The periods of buckets built one per key are those keys. */
  lemma PeriodsOf<K(!new)>(bs: seq<Bucket<K>>, ks: seq<K>)
    requires |bs| == |ks| && forall i :: 0 <= i < |bs| ==> bs[i].period == ks[i]
    ensures forall k :: (exists i :: 0 <= i < |bs| && bs[i].period == k) <==> k in ks
  {
    forall k ensures (exists i :: 0 <= i < |bs| && bs[i].period == k) <==> k in ks {
      if k in ks {
        var j :| 0 <= j < |ks| && ks[j] == k;
        assert bs[j].period == k;
      }
    }
  }

  // ---------------------------------------------------------------------
  // Column totals of the dispatcher (bot2.py lines 250, 257, 303-304)

  /** `df[col].sum()` over the rows. */
  function ColumnSum(rows: seq<Txn>, col: Canon): real {
    if rows == [] then 0.0 else ColumnSum(rows[..|rows| - 1], col) + AmountOf(rows[|rows| - 1], col)
  }

  /** Sums add over concatenation. */
  lemma {:induction false} ColumnSumAppend(xs: seq<Txn>, ys: seq<Txn>, col: Canon)
    ensures ColumnSum(xs + ys, col) == ColumnSum(xs, col) + ColumnSum(ys, col)
    decreases |ys|
  {
    if ys == [] {
      assert xs + ys == xs;
    } else {
      assert (xs + ys)[..|xs + ys| - 1] == xs + ys[..|ys| - 1];
      ColumnSumAppend(xs, ys[..|ys| - 1], col);
    }
  }

  /** When every row has a period, the keyed sum is the column sum. */
  lemma {:induction false} KeyedSumAll<K(!new)>(rows: seq<Txn>, key: Txn -> Option<K>, col: Canon)
    requires forall i :: 0 <= i < |rows| ==> key(rows[i]).Some?
    ensures KeyedSum(rows, key, ValueOf(col)) == ColumnSum(rows, col)
  {
    if rows != [] {
      var init := rows[..|rows| - 1];
      assert forall i :: 0 <= i < |init| ==> init[i] == rows[i];
      KeyedSumAll(init, key, col);
    }
  }

  /** When every row has a date, the monthly debits add up to the total
      spent and the monthly credits to the total deposited. */
  lemma MonthlyMatchesTotals(s: Store)
    requires Has(s, DateCol) && Has(s, DebitCol) && Has(s, CreditCol)
    requires forall i :: 0 <= i < |s.rows| ==> s.rows[i].date.Some?
    ensures MonthlySummary(s).Ok?
    ensures DebitTotal(MonthlySummary(s).value) == ColumnSum(s.rows, DebitCol)
    ensures CreditTotal(MonthlySummary(s).value) == ColumnSum(s.rows, CreditCol)
  {
    MonthOrder();
    SummaryShape(s, MonthKey, MonthLt);
    assert forall i :: 0 <= i < |s.rows| ==> MonthKey(s.rows[i]).Some?;
    KeyedSumAll(s.rows, MonthKey, DebitCol);
    KeyedSumAll(s.rows, MonthKey, CreditCol);
  }

  /** `df.get(col, pd.Series()).max()`: nothing (NaN) when the column is
      absent or the table has no rows, otherwise the largest amount. */
  function ColumnMax(s: Store, col: Canon): (r: Option<real>)
    ensures r.None? <==> !Has(s, col) || s.rows == []
    ensures r.Some? ==> (exists i :: 0 <= i < |s.rows| && AmountOf(s.rows[i], col) == r.value) &&
                        forall i :: 0 <= i < |s.rows| ==> AmountOf(s.rows[i], col) <= r.value
  {
    if !Has(s, col) || s.rows == [] then None else Some(MaxOf(s.rows, col))
  }

  function MaxOf(rows: seq<Txn>, col: Canon): (m: real)
    requires rows != []
    ensures exists i :: 0 <= i < |rows| && AmountOf(rows[i], col) == m
    ensures forall i :: 0 <= i < |rows| ==> AmountOf(rows[i], col) <= m
  {
    if |rows| == 1 then AmountOf(rows[0], col)
    else
      var m := MaxOf(rows[1..], col);
      assert forall i :: 1 <= i < |rows| ==> rows[1..][i - 1] == rows[i];
      if AmountOf(rows[0], col) >= m then AmountOf(rows[0], col) else m
  }
}
