/**
 * Column labels of one page's table and the renaming of repeated labels
 * (bot2.py lines 47-51): the labels are scanned left to right, and a label
 * equal to one already seen (as renamed so far) is replaced by the label,
 * an underscore and its position.
 */
module Header {
  import opened Wrappers
  import opened Text

  /** A header cell: text, or missing (pdfplumber gives `None`). */
  type Label = Option<string>

  /** Python's `str` of a label; a missing one prints as "None". */
  function Show(l: Label): string {
    match l
    case Some(t) => t
    case None => "None"
  }

  /** `f"{label}_{i}"`. */
  function Suffixed(l: Label, i: nat): (r: Label)
    ensures r != l
  {
    var r := Some(Show(l) + "_" + NatToString(i));
    assert l.Some? ==> |r.value| > |l.value|;
    r
  }

  predicate Distinct<T(==)>(s: seq<T>) {
    forall i, j :: 0 <= i < j < |s| ==> s[i] != s[j]
  }

  /** `cols.duplicated()[i]`: an equal label stands earlier in the series. */
  predicate Duplicated(cols: seq<Label>, i: nat)
    requires i < |cols|
  {
    cols[i] in cols[..i]
  }

  /** One step of the scan: the label at position `i`, given the labels
      before it as already renamed. */
  function Step(done: seq<Label>, l: Label, i: nat): Label {
    if l in done then Suffixed(l, i) else l
  }

  /** The first `n` labels after the scan has passed them. */
  function DedupPrefix(h: seq<Label>, n: nat): (r: seq<Label>)
    requires n <= |h|
    ensures |r| == n
  {
    if n == 0 then [] else
      var done := DedupPrefix(h, n - 1);
      done + [Step(done, h[n - 1], n - 1)]
  }

  /** The header after the whole scan. */
  function Dedup(h: seq<Label>): (r: seq<Label>)
    ensures |r| == |h|
  {
    DedupPrefix(h, |h|)
  }

  /** The bot2.py loop: `cols[i]` is rewritten in place, and the duplicate
      test at step `i` sees the rewrites of the earlier steps. */
  method DedupColumns(header: seq<Label>) returns (cols: seq<Label>)
    ensures cols == Dedup(header)
  {
    cols := header;
    var i := 0;
    while i < |cols|
      invariant 0 <= i <= |cols| == |header|
      invariant cols[..i] == DedupPrefix(header, i)
      invariant cols[i..] == header[i..]
    {
      assert cols[i] == header[i];
      if Duplicated(cols, i) {
        cols := cols[i := Suffixed(cols[i], i)];
      }
      assert cols[..i + 1] == cols[..i] + [cols[i]];
      i := i + 1;
    }
  }

  /** The scan is online: what it does to a prefix it does within the whole. */
  lemma {:induction false} DedupPrefixIsPrefix(h: seq<Label>, n: nat, m: nat)
    requires n <= m <= |h|
    ensures DedupPrefix(h, m)[..n] == DedupPrefix(h, n)
    decreases m - n
  {
    if n < m {
      DedupPrefixIsPrefix(h, n, m - 1);
      assert DedupPrefix(h, m)[..m - 1] == DedupPrefix(h, m - 1);
    }
  }

  /** Each label is the scan's step at its position: unchanged unless it
      equals one of the already renamed labels before it, and in that case
      the label followed by `_` and the position. The length is kept. */
  lemma {:induction false} DedupAt(h: seq<Label>, i: nat)
    requires i < |h|
    ensures |Dedup(h)| == |h|
    ensures var r := Dedup(h);
      r[i] == (if h[i] in r[..i] then Suffixed(h[i], i) else h[i])
  {
    DedupPrefixIsPrefix(h, i + 1, |h|);
    DedupPrefixIsPrefix(h, i, |h|);
    var r := Dedup(h);
    assert r[..i + 1][i] == r[i];
    assert r[..i + 1][..i] == r[..i];
  }

  /** A header without repeated labels is left as it is. */
  lemma {:induction false} DedupDistinct(h: seq<Label>)
    requires Distinct(h)
    ensures Dedup(h) == h
  {
    forall n | 0 <= n <= |h| ensures DedupPrefix(h, n) == h[..n] {
      DistinctPrefix(h, n);
    }
    assert h[..|h|] == h;
  }

  lemma {:induction false} DistinctPrefix(h: seq<Label>, n: nat)
    requires Distinct(h) && n <= |h|
    ensures DedupPrefix(h, n) == h[..n]
  {
    if n > 0 {
      DistinctPrefix(h, n - 1);
      assert h[n - 1] !in h[..n - 1] by {
        forall k | 0 <= k < n - 1 ensures h[k] != h[n - 1] {
        }
      }
      assert h[..n] == h[..n - 1] + [h[n - 1]];
    }
  }

  /** The scan changes nothing exactly when no label repeats, so applying it
      a second time is a no-op exactly when its first result has no repeats. */
  lemma {:induction false} DedupFixedPoint(h: seq<Label>)
    ensures Dedup(h) == h <==> Distinct(h)
  {
    if Distinct(h) {
      DedupDistinct(h);
    }
    if Dedup(h) == h {
      forall i, j | 0 <= i < j < |h| ensures h[i] != h[j] {
        DedupAt(h, j);
        assert h[j] !in h[..j];
        assert h[..j][i] == h[i];
      }
    }
  }

  /** The first label is never renamed. */
  lemma {:induction false} DedupKeepsFirst(h: seq<Label>)
    requires |h| > 0
    ensures Dedup(h)[0] == h[0]
  {
    DedupAt(h, 0);
  }

  /** The worked example: a repeated "Date" gets its position appended. */
  lemma {:induction false} DedupDateExample()
    ensures Dedup([Some("Date"), Some("Date"), Some("Amount")]) ==
            [Some("Date"), Some("Date_1"), Some("Amount")]
  {
    var h := [Some("Date"), Some("Date"), Some("Amount")];
    assert NatToString(1) == "1";
    assert "Date" + "_" + "1" == "Date_1";
    assert Suffixed(Some("Date"), 1) == Some("Date_1");
    assert DedupPrefix(h, 1) == [Some("Date")];
    assert DedupPrefix(h, 2) == [Some("Date"), Some("Date_1")];
  }

  /** The result need not be free of repeats: "X", "X_2", "X" becomes
      "X", "X_2", "X_2", because the third label is renamed to a label that
      the second already carries. */
  lemma {:induction false} DedupNotUnique()
    ensures Dedup([Some("X"), Some("X_2"), Some("X")]) == [Some("X"), Some("X_2"), Some("X_2")]
    ensures !Distinct(Dedup([Some("X"), Some("X_2"), Some("X")]))
  {
    var h := [Some("X"), Some("X_2"), Some("X")];
    assert NatToString(2) == "2";
    assert "X" + "_" + "2" == "X_2";
    assert Suffixed(Some("X"), 2) == Some("X_2");
    assert DedupPrefix(h, 1) == [Some("X")];
    assert DedupPrefix(h, 2) == [Some("X"), Some("X_2")];
    assert Some("X") in DedupPrefix(h, 2);
    var r := [Some("X"), Some("X_2"), Some("X_2")];
    assert r[1] == r[2];
  }

  /** A label that occurs for the first time can still be renamed: in
      "X", "X", "X_1" the third label meets the renamed second one. */
  lemma {:induction false} DedupRenamesFirstOccurrence()
    ensures Dedup([Some("X"), Some("X"), Some("X_1")]) == [Some("X"), Some("X_1"), Some("X_1_2")]
  {
    var h := [Some("X"), Some("X"), Some("X_1")];
    assert NatToString(1) == "1" && NatToString(2) == "2";
    assert "X" + "_" + "1" == "X_1";
    assert Suffixed(Some("X"), 1) == Some("X_1");
    assert "X_1" + "_" + "2" == "X_1_2";
    assert Suffixed(Some("X_1"), 2) == Some("X_1_2");
    assert DedupPrefix(h, 1) == [Some("X")];
    assert DedupPrefix(h, 2) == [Some("X"), Some("X_1")];
    assert Some("X_1") in DedupPrefix(h, 2);
  }
}
