/**
 * The row filters of the chatbot (bot2.py lines 123-126, 142-152): by
 * date range, by a word in the reference, by an amount range. Each keeps
 * the table's columns and the rows that pass, in their order, and gives
 * `pd.DataFrame()` when the table lacks the column it tests.
 */
module Filters {
  import opened Wrappers
  import opened Text
  import opened Amounts
  import opened Ledger

  /** `df[mask]`: the rows that pass, in order (`KeepCounts`: each as many
      times as it occurs). */
  function Keep(rows: seq<Txn>, p: Txn -> bool): (r: seq<Txn>)
    ensures |r| <= |rows|
    ensures forall t :: t in r <==> t in rows && p(t)
  {
    if rows == [] then []
    else (if p(rows[0]) then [rows[0]] else []) + Keep(rows[1..], p)
  }

  /** A mask applies to each part of a table separately: the rows that
      pass keep their relative order. */
  lemma {:induction false} KeepAppend(xs: seq<Txn>, ys: seq<Txn>, p: Txn -> bool)
    ensures Keep(xs + ys, p) == Keep(xs, p) + Keep(ys, p)
  {
    if xs != [] {
      KeepAppend(xs[1..], ys, p);
      assert (xs + ys)[1..] == xs[1..] + ys;
    } else {
      assert xs + ys == ys;
    }
  }

  /** Every row passing the mask is kept, as many times as it occurs. */
  lemma {:induction false} KeepCount(rows: seq<Txn>, p: Txn -> bool, t: Txn)
    ensures multiset(Keep(rows, p))[t] == if p(t) then multiset(rows)[t] else 0
  {
    if rows != [] {
      KeepCount(rows[1..], p, t);
      assert rows == [rows[0]] + rows[1..];
    }
  }

  /** A mask keeps each passing row as many times as it occurs, and no
      other row. */
  lemma KeepCounts(rows: seq<Txn>, p: Txn -> bool)
    ensures forall t :: multiset(Keep(rows, p))[t] == if p(t) then multiset(rows)[t] else 0
  {
    forall t ensures multiset(Keep(rows, p))[t] == if p(t) then multiset(rows)[t] else 0 {
      KeepCount(rows, p, t);
    }
  }

  /** Two masks applied one after the other keep the rows passing both,
      whichever runs first. */
  lemma {:induction false} KeepKeep(rows: seq<Txn>, p: Txn -> bool, q: Txn -> bool)
    ensures Keep(Keep(rows, p), q) == Keep(rows, (t: Txn) => p(t) && q(t))
    ensures Keep(Keep(rows, p), q) == Keep(Keep(rows, q), p)
  {
    if rows != [] {
      KeepKeep(rows[1..], p, q);
      var head := if p(rows[0]) then [rows[0]] else [];
      KeepAppend(head, Keep(rows[1..], p), q);
      var head' := if q(rows[0]) then [rows[0]] else [];
      KeepAppend(head', Keep(rows[1..], q), p);
    }
  }

  /** `a` is `b` with some rows left out, the rest in their order. */
  predicate Subsequence(a: seq<Txn>, b: seq<Txn>)
    decreases |b|
  {
    if a == [] then true
    else if b == [] then false
    else if a[0] == b[0] then Subsequence(a[1..], b[1..])
    else Subsequence(a, b[1..])
  }

  /** A mask keeps the order of the rows it keeps. */
  lemma {:induction false} KeepSubsequence(rows: seq<Txn>, p: Txn -> bool)
    ensures Subsequence(Keep(rows, p), rows)
  {
    if rows != [] {
      KeepSubsequence(rows[1..], p);
      var k := Keep(rows, p);
      if p(rows[0]) {
        assert k[0] == rows[0] && k[1..] == Keep(rows[1..], p);
      } else {
        assert k == Keep(rows[1..], p);
        assert k != [] ==> k[0] in k && k[0] != rows[0];
      }
    }
  }

  /** The same columns, the rows that pass. */
  function Where(s: Store, p: Txn -> bool): Store {
    Store(s.columns, Keep(s.rows, p))
  }

  // ---------------------------------------------------------------------

  predicate InRange(d: Option<Date>, start: Date, end: Date) {
    d.Some? && DateLe(start, d.value) && DateLe(d.value, end)
  }

  /** `filter_by_date`: rows dated from `start` to `end`, both included;
      an undated row (`NaT`) compares false. */
  function FilterByDate(s: Store, start: Date, end: Date): (r: Store)
    ensures Has(s, DateCol) ==> r.columns == s.columns
    ensures Has(s, DateCol) ==> forall t :: t in r.rows <==> t in s.rows && InRange(t.date, start, end)
    ensures Has(s, DateCol) ==>
      forall t :: multiset(r.rows)[t] == if InRange(t.date, start, end) then multiset(s.rows)[t] else 0
    ensures !Has(s, DateCol) ==> r == NoFrame
    ensures Subsequence(r.rows, s.rows)
  {
    var dated := (t: Txn) => InRange(t.date, start, end);
    KeepSubsequence(s.rows, dated);
    KeepCounts(s.rows, dated);
    if Has(s, DateCol) then Where(s, dated) else NoFrame
  }

  /** The characters `str.contains` reads as regular-expression syntax. */
  predicate NoRegexMeta(term: string) {
    forall i :: 0 <= i < |term| ==> term[i] !in ".^$*+?{}[]\\|()"
  }

  /** The text whose presence a search pattern tests, for the patterns where
      `re.search` is a plain substring test: a pattern without
      metacharacters stands for itself, and a literal ending in `c?` (as in
      "starbucks?") matches wherever what precedes `c` occurs. Other
      patterns have none. */
  function Needle(pat: string): (r: Option<string>)
    ensures NoRegexMeta(pat) ==> r == Some(pat)
    ensures r.Some? ==> NoRegexMeta(r.value) && StartsWith(pat, r.value)
    ensures r.Some? && r.value != pat ==> |r.value| + 2 == |pat| && pat[|pat| - 1] == '?'
  {
    if NoRegexMeta(pat) then Some(pat)
    else if |pat| >= 2 && pat[|pat| - 1] == '?' && NoRegexMeta(pat[..|pat| - 1]) then
      var lit := pat[..|pat| - 1];
      assert pat[..|pat| - 2] == lit[..|lit| - 1];
      Some(pat[..|pat| - 2])
    else None
  }

  /** Lower-casing changes letters only, so it keeps a pattern free of
      metacharacters. */
  lemma LowerNoMeta(term: string)
    requires NoRegexMeta(term)
    ensures Needle(Lower(term)) == Some(Lower(term))
  {
    assert NoRegexMeta(Lower(term));
  }

  /** `Reference.str.lower().str.contains(pat, na=False)` for a pattern
      that tests for `needle`: a missing reference never matches. */
  predicate RefMatches(c: Cell, needle: string) {
    c.Some? && Contains(Lower(c.value), needle)
  }

  /** The mask of `search_reference` for a needle. */
  function MatchesRef(needle: string): Txn -> bool {
    (t: Txn) => RefMatches(t.reference, needle)
  }

  /** `search_reference`: rows whose reference, lower-cased, contains what
      the lower-cased term searches for. */
  function SearchReference(s: Store, term: string): (r: Store)
    requires Needle(Lower(term)).Some?
    ensures Has(s, ReferenceCol) ==> r.columns == s.columns
    ensures Has(s, ReferenceCol) ==>
      forall t :: t in r.rows <==> t in s.rows && t.reference.Some? && Contains(Lower(t.reference.value), Needle(Lower(term)).value)
    ensures Has(s, ReferenceCol) ==>
      forall t :: multiset(r.rows)[t] == if RefMatches(t.reference, Needle(Lower(term)).value) then multiset(s.rows)[t] else 0
    ensures !Has(s, ReferenceCol) ==> r == NoFrame
    ensures Subsequence(r.rows, s.rows)
  {
    var needle := Needle(Lower(term)).value;
    KeepSubsequence(s.rows, MatchesRef(needle));
    KeepCounts(s.rows, MatchesRef(needle));
    if Has(s, ReferenceCol) then Where(s, MatchesRef(needle)) else NoFrame
  }

  predicate AmountIn(v: real, lo: real, hi: Option<real>) {
    v >= lo && (hi.Some? && hi.value > 0.0 ==> v <= hi.value)
  }

  /** `filter_by_amount`: rows whose amount is at least `lo`, and at most
      `hi` only when `hi` is given and positive. */
  function FilterByAmount(s: Store, lo: real, hi: Option<real>, col: Canon): (r: Store)
    requires col == DebitCol || col == CreditCol
    ensures Has(s, col) ==> r.columns == s.columns
    ensures Has(s, col) ==> forall t :: t in r.rows <==> t in s.rows && AmountIn(AmountOf(t, col), lo, hi)
    ensures Has(s, col) ==>
      forall t :: multiset(r.rows)[t] == if AmountIn(AmountOf(t, col), lo, hi) then multiset(s.rows)[t] else 0
    ensures !Has(s, col) ==> r == NoFrame
    ensures Subsequence(r.rows, s.rows)
  {
    if !Has(s, col) then NoFrame
    else if hi.Some? && hi.value > 0.0 then
      var within := (t: Txn) => lo <= AmountOf(t, col) <= hi.value;
      KeepSubsequence(s.rows, within);
      KeepCounts(s.rows, within);
      Where(s, within)
    else
      var above := (t: Txn) => AmountOf(t, col) >= lo;
      KeepSubsequence(s.rows, above);
      KeepCounts(s.rows, above);
      Where(s, above)
  }

  /** With no positive maximum, a zero minimum keeps every row whose
      amount is not negative, and so every row of a statement whose
      amounts are not negative. */
  lemma ZeroBounds(s: Store, col: Canon)
    requires col == DebitCol || col == CreditCol
    requires Has(s, col)
    requires forall i :: 0 <= i < |s.rows| ==> AmountOf(s.rows[i], col) >= 0.0
    ensures FilterByAmount(s, 0.0, Some(0.0), col) == s
    ensures FilterByAmount(s, 0.0, None, col) == s
  {
    KeepAll(s.rows, (t: Txn) => AmountOf(t, col) >= 0.0);
  }

  lemma {:induction false} KeepAll(rows: seq<Txn>, p: Txn -> bool)
    requires forall i :: 0 <= i < |rows| ==> p(rows[i])
    ensures Keep(rows, p) == rows
  {
    if rows != [] {
      KeepAll(rows[1..], p);
    }
  }
}
