/**
 * The orders pandas sorts group keys by: strings by code point, days
 * chronologically, months by year then month, weeks by their number.
 */
module Orders {
  import opened Grouping
  import opened Ledger

  /** Python's `<` on strings: code point by code point, a proper prefix first. */
  predicate StrLt(a: string, b: string)
    decreases |a|
  {
    if a == [] then b != []
    else if b == [] then false
    else if a[0] != b[0] then a[0] < b[0]
    else StrLt(a[1..], b[1..])
  }

  lemma {:induction false} StrLtAsym(a: string, b: string)
    ensures StrLt(a, b) ==> !StrLt(b, a)
    decreases |a|
  {
    if a != [] && b != [] && a[0] == b[0] {
      StrLtAsym(a[1..], b[1..]);
    }
  }

  lemma {:induction false} StrLtTrans(a: string, b: string, c: string)
    ensures StrLt(a, b) && StrLt(b, c) ==> StrLt(a, c)
    decreases |a|
  {
    if a != [] && b != [] && c != [] && a[0] == b[0] && b[0] == c[0] {
      StrLtTrans(a[1..], b[1..], c[1..]);
    }
  }

  lemma {:induction false} StrLtTotal(a: string, b: string)
    ensures a != b ==> StrLt(a, b) || StrLt(b, a)
    decreases |a|
  {
    if a != [] && b != [] && a[0] == b[0] {
      StrLtTotal(a[1..], b[1..]);
      assert a == [a[0]] + a[1..] && b == [b[0]] + b[1..];
    }
  }

  lemma StrOrder()
    ensures StrictTotal(StrLt)
  {
    forall a, b ensures StrLt(a, b) ==> !StrLt(b, a) { StrLtAsym(a, b); }
    forall a, b, c ensures StrLt(a, b) && StrLt(b, c) ==> StrLt(a, c) { StrLtTrans(a, b, c); }
    forall a, b ensures a != b ==> StrLt(a, b) || StrLt(b, a) { StrLtTotal(a, b); }
  }

  lemma DateOrder()
    ensures StrictTotal(DateLt)
  {
  }

  /** A `Period("M")`. */
  datatype Month = Month(year: int, month: int)

  predicate MonthLt(a: Month, b: Month) {
    a.year < b.year || (a.year == b.year && a.month < b.month)
  }

  lemma MonthOrder()
    ensures StrictTotal(MonthLt)
  {
  }

  predicate IntLt(a: int, b: int) {
    a < b
  }

  lemma IntOrder()
    ensures StrictTotal(IntLt)
  {
  }
}
