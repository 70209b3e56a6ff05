/**
 * From the tables pdfplumber finds on the pages to one frame
 * (bot2.py lines 43-52 and 59-61): every page's table becomes a frame whose
 * header is its first row, the frame's labels go through the renaming scan,
 * and the frames are stacked with `pd.concat`, which lines columns up by
 * label.
 */
module Frames {
  import opened Wrappers
  import opened Amounts
  import opened Header

  type Row = seq<Cell>

  /** A pandas frame of text cells: labels and rows. */
  datatype Frame = Frame(columns: seq<Label>, rows: seq<Row>)

  ghost predicate WellFormed(f: Frame) {
    forall i :: 0 <= i < |f.rows| ==> |f.rows[i]| == |f.columns|
  }

  /** What `page.extract_table()` returns: rows of cells, the first the header. */
  type RawTable = seq<seq<Cell>>

  function MaxWidth(rows: seq<Row>): (w: nat)
    ensures forall i :: 0 <= i < |rows| ==> |rows[i]| <= w
    ensures rows != [] ==> exists i :: 0 <= i < |rows| && |rows[i]| == w
  {
    if rows == [] then 0
    else
      var w := MaxWidth(rows[1..]);
      assert forall i :: 1 <= i < |rows| ==> rows[i] == rows[1..][i - 1];
      if |rows[0]| >= w then |rows[0]| else w
  }

  /** A short row is filled up with missing cells. */
  function Pad(row: Row, w: nat): (r: Row)
    requires |row| <= w
    ensures |r| == w && r[..|row|] == row
    ensures forall k :: |row| <= k < w ==> r[k] == None
  {
    row + seq(w - |row|, _ => None)
  }

  /** `pd.DataFrame(table[1:], columns=table[0])`: rows shorter than the
      longest are padded; when there are data rows and the longest differs
      in width from the header, pandas raises. */
  function FromTable(t: RawTable): (r: Option<Frame>)
    requires |t| > 0
    ensures r.None? <==> |t| > 1 && MaxWidth(t[1..]) != |t[0]|
    ensures r.Some? ==> WellFormed(r.value) && r.value.columns == t[0] && |r.value.rows| == |t| - 1
    ensures r.Some? ==> forall i :: 1 <= i < |t| ==> r.value.rows[i - 1][..|t[i]|] == t[i]
  {
    var header, data := t[0], t[1..];
    if |data| > 0 && MaxWidth(data) != |header| then None
    else
      var rows := seq(|data|, i requires 0 <= i < |data| => Pad(data[i], |header|));
      assert forall i :: 1 <= i < |t| ==> t[i] == data[i - 1];
      Some(Frame(header, rows))
  }

  /** What one page contributes to `all_data`. */
  datatype PageFrame = NoTable | Malformed | Parsed(frame: Frame)

  /** `if table:` skips a page without a table (or with an empty one); a
      table pandas refuses aborts the processing; otherwise the frame with
      its labels renamed by the scan. */
  function PageFrameOf(page: Option<RawTable>): (r: PageFrame)
    ensures r.Parsed? ==> WellFormed(r.frame)
  {
    match page
    case None => NoTable
    case Some(t) =>
      if |t| == 0 then NoTable
      else
        match FromTable(t)
        case None => Malformed
        case Some(f) => Parsed(Frame(Dedup(f.columns), f.rows))
  }

  /** The frames of all pages, in page order, or nothing when a page's
      table is refused. */
  function Collect(pages: seq<Option<RawTable>>): Option<seq<Frame>> {
    if pages == [] then Some([])
    else
      match PageFrameOf(pages[0])
      case NoTable => Collect(pages[1..])
      case Malformed => None
      case Parsed(f) =>
        match Collect(pages[1..])
        case None => None
        case Some(fs) => Some([f] + fs)
  }

  function Prepend(done: seq<Frame>, rest: Option<seq<Frame>>): Option<seq<Frame>> {
    match rest
    case None => None
    case Some(fs) => Some(done + fs)
  }

  /** The page loop of bot2.py: appends each page's frame to `all_data`. */
  method CollectFrames(pages: seq<Option<RawTable>>) returns (r: Option<seq<Frame>>)
    ensures r == Collect(pages)
  {
    var allData: seq<Frame> := [];
    var i := 0;
    assert pages[0..] == pages;
    if Collect(pages).Some? {
      assert [] + Collect(pages).value == Collect(pages).value;
    }
    while i < |pages|
      invariant 0 <= i <= |pages|
      invariant Collect(pages) == Prepend(allData, Collect(pages[i..]))
    {
      assert pages[i..][0] == pages[i] && pages[i..][1..] == pages[i + 1..];
      var page := pages[i];
      if page.Some? && |page.value| > 0 {
        var table := page.value;
        var raw := FromTable(table);
        if raw.None? {
          return None;
        }
        var cols := DedupColumns(raw.value.columns);
        var f := Frame(cols, raw.value.rows);
        assert PageFrameOf(page) == Parsed(f);
        PrependTwice(allData, f, Collect(pages[i + 1..]));
        allData := allData + [f];
      }
      i := i + 1;
    }
    assert pages[i..] == [];
    assert allData + [] == allData;
    return Some(allData);
  }

  lemma PrependTwice(done: seq<Frame>, f: Frame, rest: Option<seq<Frame>>)
    ensures Prepend(done, Prepend([f], rest)) == Prepend(done + [f], rest)
  {
    if rest.Some? {
      assert done + ([f] + rest.value) == (done + [f]) + rest.value;
    }
  }

  /** Number of data rows over the pages that had a table. */
  function DataRows(pages: seq<Option<RawTable>>): nat {
    if pages == [] then 0
    else
      (match pages[0]
       case Some(t) => if |t| == 0 then 0 else |t| - 1
       case None => 0) + DataRows(pages[1..])
  }

  function TotalRows(fs: seq<Frame>): nat {
    if fs == [] then 0 else |fs[0].rows| + TotalRows(fs[1..])
  }

  /** The frames collected hold every data row of every page with a table,
      and each frame's labels are the scan's renaming of its page's header. */
  lemma {:induction false} CollectRows(pages: seq<Option<RawTable>>)
    requires Collect(pages).Some?
    ensures TotalRows(Collect(pages).value) == DataRows(pages)
    ensures forall k :: 0 <= k < |Collect(pages).value| ==> WellFormed(Collect(pages).value[k])
  {
    if pages != [] {
      CollectRows(pages[1..]);
      var fs := Collect(pages).value;
      match PageFrameOf(pages[0])
      case NoTable =>
      case Parsed(f) =>
        assert fs[1..] == Collect(pages[1..]).value;
    }
  }

  /** Only refused tables make the collection fail. */
  lemma {:induction false} CollectFails(pages: seq<Option<RawTable>>)
    ensures Collect(pages).None? <==>
      exists k :: 0 <= k < |pages| && PageFrameOf(pages[k]).Malformed?
  {
    if pages != [] {
      CollectFails(pages[1..]);
      assert forall k :: 1 <= k < |pages| ==> pages[k] == pages[1..][k - 1];
      if PageFrameOf(pages[0]).Malformed? {
        assert PageFrameOf(pages[0]).Malformed?;
      }
    }
  }

  // ---------------------------------------------------------------------
  // pd.concat(all_data, ignore_index=True)

  function IndexOf<T(==)>(s: seq<T>, x: T): (i: nat)
    requires x in s
    ensures i < |s| && s[i] == x
    ensures forall k :: 0 <= k < i ==> s[k] != x
  {
    if s[0] == x then 0 else 1 + IndexOf(s[1..], x)
  }

  /** `acc` followed by the labels of `cols` it does not hold yet, in order. */
  function AddNew(acc: seq<Label>, cols: seq<Label>): (r: seq<Label>)
    ensures |acc| <= |r| && r[..|acc|] == acc
    ensures forall c :: c in r <==> c in acc || c in cols
    ensures Distinct(acc) ==> Distinct(r)
    decreases |cols|
  {
    if cols == [] then acc
    else
      var acc' := if cols[0] in acc then acc else acc + [cols[0]];
      assert forall c :: c in cols <==> c == cols[0] || c in cols[1..];
      var r := AddNew(acc', cols[1..]);
      assert r[..|acc'|][..|acc|] == acc;
      r
  }

  /** The union of the frames' labels, in order of first appearance. */
  function UnionColumns(fs: seq<Frame>): (r: seq<Label>)
    ensures Distinct(r)
    ensures forall c :: c in r <==> exists k :: 0 <= k < |fs| && c in fs[k].columns
  {
    if fs == [] then []
    else
      var before := UnionColumns(fs[..|fs| - 1]);
      assert forall k :: 0 <= k < |fs| - 1 ==> fs[..|fs| - 1][k] == fs[k];
      AddNew(before, fs[|fs| - 1].columns)
  }

  /** The cell of `row` under label `c`; missing when the frame has no such column. */
  function Lookup(cols: seq<Label>, row: Row, c: Label): Cell
    requires |row| == |cols|
  {
    if c in cols then row[IndexOf(cols, c)] else None
  }

  /** A frame's rows laid out under the labels `target`. */
  function Realign(f: Frame, target: seq<Label>): (rows: seq<Row>)
    requires WellFormed(f)
    ensures |rows| == |f.rows|
    ensures forall i :: 0 <= i < |rows| ==> |rows[i]| == |target|
  {
    seq(|f.rows|, i requires 0 <= i < |f.rows| =>
      seq(|target|, j requires 0 <= j < |target| => Lookup(f.columns, f.rows[i], target[j])))
  }

  function Stack(parts: seq<seq<Row>>): seq<Row> {
    if parts == [] then [] else parts[0] + Stack(parts[1..])
  }

  predicate SameColumns(fs: seq<Frame>)
    requires |fs| > 0
  {
    forall k :: 0 <= k < |fs| ==> fs[k].columns == fs[0].columns
  }

  /** `pd.concat(all_data, ignore_index=True)`: frames that all carry the
      same labels are stacked as they are; otherwise pandas lines the
      columns up by label, which fails when a frame repeats a label (an
      error raised outside the `try`), and else takes the union of the
      labels, with a missing cell where a frame lacks a column. */
  function Concat(fs: seq<Frame>): Option<Frame>
    requires |fs| > 0
    requires forall k :: 0 <= k < |fs| ==> WellFormed(fs[k])
  {
    if SameColumns(fs) then Some(Frame(fs[0].columns, Stack(seq(|fs|, k requires 0 <= k < |fs| => fs[k].rows))))
    else if exists k :: 0 <= k < |fs| && !Distinct(fs[k].columns) then None
    else
      var cols := UnionColumns(fs);
      Some(Frame(cols, Stack(seq(|fs|, k requires 0 <= k < |fs| => Realign(fs[k], cols)))))
  }

  lemma {:induction false} StackShape(parts: seq<seq<Row>>, w: nat)
    requires forall k, i :: 0 <= k < |parts| && 0 <= i < |parts[k]| ==> |parts[k][i]| == w
    ensures forall i :: 0 <= i < |Stack(parts)| ==> |Stack(parts)[i]| == w
  {
    if parts != [] {
      StackShape(parts[1..], w);
      assert forall k, i :: 1 <= k < |parts| && 0 <= i < |parts[k]| ==> parts[k][i] == parts[1..][k - 1][i];
    }
  }

  lemma {:induction false} StackLength(fs: seq<Frame>, parts: seq<seq<Row>>)
    requires |parts| == |fs| && forall k :: 0 <= k < |fs| ==> |parts[k]| == |fs[k].rows|
    ensures |Stack(parts)| == TotalRows(fs)
  {
    if fs != [] {
      StackLength(fs[1..], parts[1..]);
    }
  }

  /** Stacking keeps every row (the row count is the sum over the frames);
      all rows have one cell per column; pages with the same labels keep
      them; otherwise, when no page repeats a label, the columns are the
      union of the pages' labels, each once, and a page's row holds its
      own cell under each of its labels and a missing cell under the others. */
  lemma ConcatShape(fs: seq<Frame>)
    requires |fs| > 0
    requires forall k :: 0 <= k < |fs| ==> WellFormed(fs[k])
    ensures Concat(fs).Some? ==> WellFormed(Concat(fs).value) && |Concat(fs).value.rows| == TotalRows(fs)
    ensures SameColumns(fs) ==> Concat(fs).Some? && Concat(fs).value.columns == fs[0].columns
    ensures Concat(fs).None? <==> !SameColumns(fs) && exists k :: 0 <= k < |fs| && !Distinct(fs[k].columns)
    ensures !SameColumns(fs) && Concat(fs).Some? ==>
      Concat(fs).value.columns == UnionColumns(fs) && Distinct(Concat(fs).value.columns)
  {
    if SameColumns(fs) {
      var parts := seq(|fs|, k requires 0 <= k < |fs| => fs[k].rows);
      StackShape(parts, |fs[0].columns|);
      StackLength(fs, parts);
    } else if Concat(fs).Some? {
      var cols := UnionColumns(fs);
      var parts := seq(|fs|, k requires 0 <= k < |fs| => Realign(fs[k], cols));
      StackShape(parts, |cols|);
      StackLength(fs, parts);
    }
  }

  /** Lining a page up under the union: its own cell under its labels, a
      missing cell under the labels it lacks. */
  lemma RealignCell(f: Frame, target: seq<Label>, i: nat, j: nat)
    requires WellFormed(f) && Distinct(f.columns) && i < |f.rows| && j < |target|
    ensures target[j] in f.columns ==>
      exists k :: 0 <= k < |f.columns| && f.columns[k] == target[j] && Realign(f, target)[i][j] == f.rows[i][k]
    ensures target[j] !in f.columns ==> Realign(f, target)[i][j] == None
  {
    if target[j] in f.columns {
      var k := IndexOf(f.columns, target[j]);
      assert Realign(f, target)[i][j] == f.rows[i][k];
    }
  }
}
