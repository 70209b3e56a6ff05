/**
 * `process_pdf_data` after the PDF has been read (bot2.py lines 40-81):
 * the page frames are collected and stacked, a column is chosen for each
 * of the four roles by the words in its label, the chosen columns are kept
 * under their canonical names, amounts are read as numbers and dates as
 * days.
 */
module Normalize {
  import opened Wrappers
  import opened Text
  import opened Amounts
  import opened Header
  import opened Frames
  import opened Ledger

  // ---------------------------------------------------------------------
  // Choosing the columns (bot2.py lines 62-67)

  datatype Role = DateRole | DebitRole | CreditRole | RefRole

  /** The label, as `str(c).lower()`, holds one of the role's words. */
  predicate Fits(l: Label, r: Role) {
    var s := Lower(Show(l));
    match r
    case DateRole => Contains(s, "date")
    case DebitRole => Contains(s, "debit") || Contains(s, "withdraw")
    case CreditRole => Contains(s, "credit") || Contains(s, "deposit")
    case RefRole => Contains(s, "ref") || Contains(s, "particular")
  }

  /** `next((c for c in columns if ...), None)`: the first label that fits
      the role, or none when no label does. */
  function FirstMatch(cols: seq<Label>, r: Role): (m: Option<Label>)
    ensures m.Some? ==> exists j :: 0 <= j < |cols| && cols[j] == m.value && Fits(cols[j], r) &&
                          forall k :: 0 <= k < j ==> !Fits(cols[k], r)
    ensures m.None? <==> forall k :: 0 <= k < |cols| ==> !Fits(cols[k], r)
  {
    if cols == [] then None
    else if Fits(cols[0], r) then Some(cols[0])
    else
      var m := FirstMatch(cols[1..], r);
      assert forall k :: 1 <= k < |cols| ==> cols[k] == cols[1..][k - 1];
      if m.Some? then
        var j :| 0 <= j < |cols[1..]| && cols[1..][j] == m.value && Fits(cols[1..][j], r) &&
                 forall k :: 0 <= k < j ==> !Fits(cols[1..][k], r);
        assert cols[j + 1] == m.value;
        m
      else m
  }

  /** The column chosen for each role. */
  datatype Roles = Roles(date: Option<Label>, debit: Option<Label>, credit: Option<Label>, reference: Option<Label>)

  function RolesOf(cols: seq<Label>): Roles {
    Roles(FirstMatch(cols, DateRole), FirstMatch(cols, DebitRole),
          FirstMatch(cols, CreditRole), FirstMatch(cols, RefRole))
  }

  function Slot(m: Option<Label>): seq<Label> {
    if m.Some? then [m.value] else []
  }

  /** `keep_cols`: the chosen labels in Date, Debit, Credit, Reference
      order; a label chosen for two roles is listed twice. */
  function KeepCols(rs: Roles): seq<Label> {
    Slot(rs.date) + Slot(rs.debit) + Slot(rs.credit) + Slot(rs.reference)
  }

  /** The canonical name `rename_map` gives a chosen label: the insertions
      run in Date, Debit, Credit, Reference order, so the last role the
      label was chosen for decides. */
  function Target(rs: Roles, l: Label): Canon {
    if rs.reference == Some(l) then ReferenceCol
    else if rs.credit == Some(l) then CreditCol
    else if rs.debit == Some(l) then DebitCol
    else DateCol
  }

  /** `rename_map`, built by the four conditional insertions. */
  method RenameMap(rs: Roles) returns (m: map<Label, Canon>)
    ensures forall l :: l in m <==> l in KeepCols(rs)
    ensures forall l :: l in m ==> m[l] == Target(rs, l)
  {
    m := map[];
    if rs.date.Some? { m := m[rs.date.value := DateCol]; }
    if rs.debit.Some? { m := m[rs.debit.value := DebitCol]; }
    if rs.credit.Some? { m := m[rs.credit.value := CreditCol]; }
    if rs.reference.Some? { m := m[rs.reference.value := ReferenceCol]; }
  }

  function TargetMap(rs: Roles): map<Label, Canon> {
    map l | l in KeepCols(rs) :: Target(rs, l)
  }

  // ---------------------------------------------------------------------
  // Projection, renaming and conversion (bot2.py lines 75-80)

  function Count(s: seq<Label>, l: Label): nat {
    if s == [] then 0 else (if s[0] == l then 1 else 0) + Count(s[1..], l)
  }

  lemma {:induction false} CountPositive(s: seq<Label>, l: Label)
    requires l in s
    ensures Count(s, l) >= 1
  {
    if s[0] != l {
      assert l in s[1..];
      CountPositive(s[1..], l);
    }
  }

  /** How many columns `df[keep_cols].rename(columns=rename_map)` has under
      the name `c`: pandas takes every column carrying a kept label, once
      per time the label is listed. */
  function Width(rs: Roles, cols: seq<Label>, c: Canon): nat {
    Term(rs, rs.date, cols, c) + Term(rs, rs.debit, cols, c) +
    Term(rs, rs.credit, cols, c) + Term(rs, rs.reference, cols, c)
  }

  function Term(rs: Roles, m: Option<Label>, cols: seq<Label>, c: Canon): nat {
    match m
    case None => 0
    case Some(l) => if Target(rs, l) == c then Count(cols, l) else 0
  }

  /** The first canonical name borne by several columns, in the order the
      code reaches them: `df[col]` for Debit and Credit is then a frame
      without a `.str` accessor, `pd.to_datetime` cannot read a frame as
      dates, and a repeated Reference breaks every later lookup. */
  function Clash(rs: Roles, cols: seq<Label>): Option<Canon> {
    if Width(rs, cols, DebitCol) > 1 then Some(DebitCol)
    else if Width(rs, cols, CreditCol) > 1 then Some(CreditCol)
    else if Width(rs, cols, DateCol) > 1 then Some(DateCol)
    else if Width(rs, cols, ReferenceCol) > 1 then Some(ReferenceCol)
    else None
  }

  /** A column of the normalised table as pandas holds it. */
  datatype Column = Texts(cells: seq<Cell>) | Amounts(values: seq<real>) | Days(days: seq<Option<Date>>)

  type Table = map<Canon, Column>

  function ColumnCells(df: Frame, j: nat): (r: seq<Cell>)
    requires WellFormed(df) && j < |df.columns|
    ensures |r| == |df.rows|
  {
    seq(|df.rows|, i requires 0 <= i < |df.rows| => df.rows[i][j])
  }

  /** `df[keep][...].rename(columns=ren)` when every name comes out once. */
  function Project(df: Frame, keep: seq<Label>, ren: map<Label, Canon>): Table
    requires WellFormed(df)
    requires forall k :: 0 <= k < |keep| ==> keep[k] in ren && keep[k] in df.columns
    decreases |keep|
  {
    if keep == [] then map[]
    else
      var l := keep[|keep| - 1];
      Project(df, keep[..|keep| - 1], ren)[ren[l] := Texts(ColumnCells(df, IndexOf(df.columns, l)))]
  }

  /** `pd.to_numeric(col.astype(str).str.replace(",", "").str.strip(),
      errors="coerce").fillna(0)`. */
  function AsAmounts(col: Column): Column {
    match col
    case Texts(cells) => Amounts(seq(|cells|, i requires 0 <= i < |cells| => CoerceAmount(cells[i])))
    case _ => col
  }

  /** `pd.to_datetime(col, errors="coerce")`, reading each text with
      `parseDate`; a missing cell is `NaT`. */
  function AsDays(col: Column, parseDate: string -> Option<Date>): Column {
    match col
    case Texts(cells) => Days(seq(|cells|, i requires 0 <= i < |cells| => DayOf(cells[i], parseDate)))
    case _ => col
  }

  function DayOf(c: Cell, parseDate: string -> Option<Date>): Option<Date> {
    match c
    case None => None
    case Some(s) => parseDate(s)
  }

  /** The table after the `for col in ["Debit", "Credit"]` loop has
      handled the names in `names`. */
  function CoerceAmounts(t: Table, names: seq<Canon>): Table
    decreases |names|
  {
    if names == [] then t
    else
      var before := CoerceAmounts(t, names[..|names| - 1]);
      var c := names[|names| - 1];
      if c in before then before[c := AsAmounts(before[c])] else before
  }

  const AmountNames: seq<Canon> := [DebitCol, CreditCol]
  const CanonOrder: seq<Canon> := [DateCol, DebitCol, CreditCol, ReferenceCol]

  function Present(t: Table, order: seq<Canon>): seq<Canon> {
    if order == [] then []
    else (if order[0] in t then [order[0]] else []) + Present(t, order[1..])
  }

  function DayAt(t: Table, i: nat): Option<Date> {
    if DateCol in t && t[DateCol].Days? && i < |t[DateCol].days| then t[DateCol].days[i] else None
  }

  function AmountAt(t: Table, c: Canon, i: nat): real {
    if c in t && t[c].Amounts? && i < |t[c].values| then t[c].values[i] else 0.0
  }

  function TextAt(t: Table, i: nat): Cell {
    if ReferenceCol in t && t[ReferenceCol].Texts? && i < |t[ReferenceCol].cells| then t[ReferenceCol].cells[i] else None
  }

  /** The table read row by row. */
  function ToStore(t: Table, n: nat): Store {
    Store(Present(t, CanonOrder),
          seq(n, i requires 0 <= i < n => Txn(DayAt(t, i), AmountAt(t, DebitCol, i), AmountAt(t, CreditCol, i), TextAt(t, i))))
  }

  /** One more kept label: its column is added under its new name. */
  function Put(df: Frame, ren: map<Label, Canon>, t: Table, m: Option<Label>): Table
    requires WellFormed(df) && (m.Some? ==> m.value in ren && m.value in df.columns)
  {
    if m.Some? then t[ren[m.value] := Texts(ColumnCells(df, IndexOf(df.columns, m.value)))] else t
  }

  lemma ProjectSnoc(df: Frame, keep: seq<Label>, m: Option<Label>, ren: map<Label, Canon>)
    requires WellFormed(df) && (m.Some? ==> m.value in ren && m.value in df.columns)
    requires forall k :: 0 <= k < |keep| ==> keep[k] in ren && keep[k] in df.columns
    ensures forall k :: 0 <= k < |keep + Slot(m)| ==> (keep + Slot(m))[k] in ren && (keep + Slot(m))[k] in df.columns
    ensures Project(df, keep + Slot(m), ren) == Put(df, ren, Project(df, keep, ren), m)
  {
    if m.Some? {
      assert (keep + Slot(m))[..|keep|] == keep;
    } else {
      assert keep + Slot(m) == keep;
    }
  }

  /** The loop turns Debit and Credit, where present, into numbers and
      leaves every other column and the set of names alone. */
  lemma CoerceBoth(t: Table)
    ensures forall c :: c in CoerceAmounts(t, AmountNames) <==> c in t
    ensures forall c :: c in t ==>
      CoerceAmounts(t, AmountNames)[c] == if c == DebitCol || c == CreditCol then AsAmounts(t[c]) else t[c]
  {
    assert AmountNames[..1] == [DebitCol] && AmountNames[..1][..0] == [];
  }

  /** The canonical names of the roles that found a column, in order. */
  function CanonsOf(rs: Roles): seq<Canon> {
    (if rs.date.Some? then [DateCol] else []) + (if rs.debit.Some? then [DebitCol] else []) +
    (if rs.credit.Some? then [CreditCol] else []) + (if rs.reference.Some? then [ReferenceCol] else [])
  }

  /** Without a clash, no label was chosen for two roles, so each keeps
      the name of its own role. */
  lemma NoClashTargets(rs: Roles, cols: seq<Label>)
    requires Clash(rs, cols) == None
    requires Chosen(rs, cols)
    ensures rs.date.Some? ==> Target(rs, rs.date.value) == DateCol
    ensures rs.debit.Some? ==> Target(rs, rs.debit.value) == DebitCol
    ensures rs.credit.Some? ==> Target(rs, rs.credit.value) == CreditCol
    ensures rs.reference.Some? ==> Target(rs, rs.reference.value) == ReferenceCol
  {
    if rs.date.Some? { CountPositive(cols, rs.date.value); }
    if rs.debit.Some? { CountPositive(cols, rs.debit.value); }
    if rs.credit.Some? { CountPositive(cols, rs.credit.value); }
    if rs.reference.Some? { CountPositive(cols, rs.reference.value); }
  }

  // ---------------------------------------------------------------------
  // The whole of process_pdf_data

  /** What opening the PDF gave: the page tables, or the two failures the
      `try` reports. */
  datatype Extraction = Opened(pages: seq<Option<RawTable>>) | PasswordRefused | OpenFailed

  datatype Reason = WrongPassword | ProcessingError
  datatype Crash = UnalignableFrames | DuplicateColumn(name: Canon)

  /** `None` after an error message; `pd.DataFrame()`; an exception that
      escapes `process_pdf_data`; or the normalised table. */
  datatype Outcome = Rejected(reason: Reason) | NoData | Crashed(crash: Crash) | Normalized(store: Store)

  /** Every kept label is a label of the frame. */
  predicate Chosen(rs: Roles, cols: seq<Label>) {
    (rs.date.Some? ==> rs.date.value in cols) && (rs.debit.Some? ==> rs.debit.value in cols) &&
    (rs.credit.Some? ==> rs.credit.value in cols) && (rs.reference.Some? ==> rs.reference.value in cols)
  }

  lemma KeepInColumns(cols: seq<Label>)
    ensures Chosen(RolesOf(cols), cols)
  {
  }

  lemma ChosenKept(rs: Roles, cols: seq<Label>)
    requires Chosen(rs, cols)
    ensures forall k :: 0 <= k < |KeepCols(rs)| ==> KeepCols(rs)[k] in cols
  {
  }

  /** The stacked frame made into a statement. */
  function NormalizeFrame(df: Frame, parseDate: string -> Option<Date>): Outcome
    requires WellFormed(df)
  {
    var rs := RolesOf(df.columns);
    var keep := KeepCols(rs);
    if keep == [] then NoData
    else match Clash(rs, df.columns)
      case Some(c) => Crashed(DuplicateColumn(c))
      case None =>
        KeepInColumns(df.columns);
        Normalized(ToStore(Converted(df, rs, parseDate), |df.rows|))
  }

  /** `df[keep_cols].rename(columns=rename_map)`. */
  function Projected(df: Frame, rs: Roles): Table
    requires WellFormed(df) && Chosen(rs, df.columns)
  {
    ChosenKept(rs, df.columns);
    Project(df, KeepCols(rs), TargetMap(rs))
  }

  /** The kept columns, renamed, with amounts and dates converted. */
  function Converted(df: Frame, rs: Roles, parseDate: string -> Option<Date>): Table
    requires WellFormed(df) && Chosen(rs, df.columns)
  {
    Typed(Projected(df, rs), parseDate)
  }

  /** `pd.to_numeric` on the amount columns, then `pd.to_datetime` on the date. */
  function Typed(projected: Table, parseDate: string -> Option<Date>): Table {
    var t := CoerceAmounts(projected, AmountNames);
    if DateCol in t then t[DateCol := AsDays(t[DateCol], parseDate)] else t
  }

  function Normalize(x: Extraction, parseDate: string -> Option<Date>): Outcome {
    match x
    case PasswordRefused => Rejected(WrongPassword)
    case OpenFailed => Rejected(ProcessingError)
    case Opened(pages) =>
      match Collect(pages)
      case None => Rejected(ProcessingError)
      case Some(fs) =>
        if fs == [] then NoData
        else
          CollectRows(pages);
          match Concat(fs)
          case None => Crashed(UnalignableFrames)
          case Some(df) =>
            ConcatShape(fs);
            NormalizeFrame(df, parseDate)
  }

  /** `process_pdf_data`, step by step. */
  method ProcessPdfData(x: Extraction, parseDate: string -> Option<Date>) returns (out: Outcome)
    ensures out == Normalize(x, parseDate)
  {
    if x.PasswordRefused? {
      return Rejected(WrongPassword);
    } else if x.OpenFailed? {
      return Rejected(ProcessingError);
    }
    var allData := CollectFrames(x.pages);
    if allData.None? {
      return Rejected(ProcessingError);
    }
    if allData.value == [] {
      return NoData;
    }
    CollectRows(x.pages);
    var joined := Concat(allData.value);
    if joined.None? {
      return Crashed(UnalignableFrames);
    }
    ConcatShape(allData.value);
    out := NormalizeTable(joined.value, parseDate);
  }

  /** The `for col in ["Debit", "Credit"]` loop. */
  method CoerceColumns(projected: Table) returns (table: Table)
    ensures table == CoerceAmounts(projected, AmountNames)
  {
    table := projected;
    for k := 0 to |AmountNames|
      invariant table == CoerceAmounts(projected, AmountNames[..k])
    {
      assert AmountNames[..k + 1][..k] == AmountNames[..k];
      var col := AmountNames[k];
      if col in table {
        table := table[col := AsAmounts(table[col])];
      }
    }
    assert AmountNames[..|AmountNames|] == AmountNames;
  }

  /** The two conversions after the rename. */
  method ConvertColumns(projected: Table, parseDate: string -> Option<Date>) returns (table: Table)
    ensures table == Typed(projected, parseDate)
  {
    table := CoerceColumns(projected);
    if DateCol in table {
      table := table[DateCol := AsDays(table[DateCol], parseDate)];
    }
  }

  /** The part of `process_pdf_data` that works on the stacked frame. */
  method NormalizeTable(df: Frame, parseDate: string -> Option<Date>) returns (out: Outcome)
    requires WellFormed(df)
    ensures out == NormalizeFrame(df, parseDate)
  {
    var rs := RolesOf(df.columns);
    if KeepCols(rs) == [] {
      return NoData;
    }
    var clash := Clash(rs, df.columns);
    if clash.Some? {
      return Crashed(DuplicateColumn(clash.value));
    }
    KeepInColumns(df.columns);
    var table := RenameAndConvert(df, rs, parseDate);
    return Normalized(ToStore(table, |df.rows|));
  }

  /** `df[keep_cols].rename(columns=rename_map)` followed by the conversions. */
  method RenameAndConvert(df: Frame, rs: Roles, parseDate: string -> Option<Date>) returns (table: Table)
    requires WellFormed(df) && Chosen(rs, df.columns)
    ensures table == Converted(df, rs, parseDate)
  {
    var keep := KeepCols(rs);
    var renameMap := RenameMap(rs);
    assert renameMap == TargetMap(rs);
    ChosenKept(rs, df.columns);
    table := Project(df, keep, renameMap);
    table := ConvertColumns(table, parseDate);
  }

  /** No column is kept exactly when no label fits any role; the table is
      then `pd.DataFrame()`. */
  lemma NoDataExactly(df: Frame, parseDate: string -> Option<Date>)
    requires WellFormed(df)
    ensures NormalizeFrame(df, parseDate) == NoData <==>
      forall k, r :: 0 <= k < |df.columns| ==> !Fits(df.columns[k], r)
  {
    var rs := RolesOf(df.columns);
    if KeepCols(rs) == [] {
      forall k, r | 0 <= k < |df.columns| ensures !Fits(df.columns[k], r) {
        assert FirstMatch(df.columns, r).None?;
      }
    }
  }

  /** The projection: a column per role that found a label, holding that
      label's cells under the role's name. */
  lemma ProjectedShape(df: Frame, rs: Roles)
    requires WellFormed(df) && Chosen(rs, df.columns) && Clash(rs, df.columns) == None
    ensures var t := Projected(df, rs);
      Placed(df, t, DateCol, rs.date) && Placed(df, t, DebitCol, rs.debit) &&
      Placed(df, t, CreditCol, rs.credit) && Placed(df, t, ReferenceCol, rs.reference)
  {
    NoClashTargets(rs, df.columns);
    ProjectChain(df, rs);
    PutShape(df, TargetMap(rs), rs);
  }

  /** The column a role found, under the role's name; no such column when
      the role found no label. */
  ghost predicate Placed(df: Frame, t: Table, col: Canon, m: Option<Label>)
    requires WellFormed(df) && (m.Some? ==> m.value in df.columns)
  {
    (col in t <==> m.Some?) && (m.Some? ==> t[col] == Texts(ColumnCells(df, IndexOf(df.columns, m.value))))
  }

  /** Adding the chosen labels' columns under distinct names. */
  lemma PutShape(df: Frame, ren: map<Label, Canon>, rs: Roles)
    requires WellFormed(df) && Chosen(rs, df.columns)
    requires rs.date.Some? ==> rs.date.value in ren && ren[rs.date.value] == DateCol
    requires rs.debit.Some? ==> rs.debit.value in ren && ren[rs.debit.value] == DebitCol
    requires rs.credit.Some? ==> rs.credit.value in ren && ren[rs.credit.value] == CreditCol
    requires rs.reference.Some? ==> rs.reference.value in ren && ren[rs.reference.value] == ReferenceCol
    ensures var t := Put(df, ren, Put(df, ren, Put(df, ren, Put(df, ren, map[], rs.date), rs.debit), rs.credit), rs.reference);
      Placed(df, t, DateCol, rs.date) && Placed(df, t, DebitCol, rs.debit) &&
      Placed(df, t, CreditCol, rs.credit) && Placed(df, t, ReferenceCol, rs.reference)
  {
    var t1 := Put(df, ren, map[], rs.date);
    assert Placed(df, t1, DateCol, rs.date) && DebitCol !in t1 && CreditCol !in t1 && ReferenceCol !in t1;
    var t2 := Put(df, ren, t1, rs.debit);
    assert Placed(df, t2, DateCol, rs.date) && Placed(df, t2, DebitCol, rs.debit) && CreditCol !in t2 && ReferenceCol !in t2;
    var t3 := Put(df, ren, t2, rs.credit);
    assert Placed(df, t3, DateCol, rs.date) && Placed(df, t3, DebitCol, rs.debit) && Placed(df, t3, CreditCol, rs.credit);
    assert ReferenceCol !in t3;
  }

  /** `keep_cols` applied one chosen label at a time. */
  lemma ProjectChain(df: Frame, rs: Roles)
    requires WellFormed(df) && Chosen(rs, df.columns)
    ensures var ren := TargetMap(rs);
      Projected(df, rs) == Put(df, ren, Put(df, ren, Put(df, ren, Put(df, ren, map[], rs.date), rs.debit), rs.credit), rs.reference)
  {
    var ren := TargetMap(rs);
    var a := Slot(rs.date);
    var b := a + Slot(rs.debit);
    var c := b + Slot(rs.credit);
    assert [] + Slot(rs.date) == a;
    ProjectSnoc(df, [], rs.date, ren);
    ProjectSnoc(df, a, rs.debit, ren);
    ProjectSnoc(df, b, rs.credit, ren);
    ProjectSnoc(df, c, rs.reference, ren);
  }

  /** The converted table: the projection with Debit and Credit read as
      numbers and the Date column read as days. */
  lemma ConvertedShape(df: Frame, rs: Roles, parseDate: string -> Option<Date>)
    requires WellFormed(df) && Chosen(rs, df.columns) && Clash(rs, df.columns) == None
    ensures var t := Converted(df, rs, parseDate);
      (DateCol in t <==> rs.date.Some?) && (DebitCol in t <==> rs.debit.Some?) &&
      (CreditCol in t <==> rs.credit.Some?) && (ReferenceCol in t <==> rs.reference.Some?) &&
      (rs.date.Some? ==> t[DateCol] == AsDays(Texts(ColumnCells(df, IndexOf(df.columns, rs.date.value))), parseDate)) &&
      (rs.debit.Some? ==> t[DebitCol] == AsAmounts(Texts(ColumnCells(df, IndexOf(df.columns, rs.debit.value))))) &&
      (rs.credit.Some? ==> t[CreditCol] == AsAmounts(Texts(ColumnCells(df, IndexOf(df.columns, rs.credit.value))))) &&
      (rs.reference.Some? ==> t[ReferenceCol] == Texts(ColumnCells(df, IndexOf(df.columns, rs.reference.value))))
  {
    ProjectedShape(df, rs);
    CoerceBoth(Projected(df, rs));
  }

  lemma PresentOrder(t: Table, rs: Roles)
    requires (DateCol in t <==> rs.date.Some?) && (DebitCol in t <==> rs.debit.Some?)
    requires (CreditCol in t <==> rs.credit.Some?) && (ReferenceCol in t <==> rs.reference.Some?)
    ensures Present(t, CanonOrder) == CanonsOf(rs)
  {
    var o := CanonOrder;
    assert o[1..][1..][1..][1..] == [];
    assert Present(t, o[1..][1..][1..]) == (if rs.reference.Some? then [ReferenceCol] else []);
    assert Present(t, o[1..][1..]) == (if rs.credit.Some? then [CreditCol] else []) + (if rs.reference.Some? then [ReferenceCol] else []);
  }

  /** The table read row by row under chosen roles that do not clash. */
  lemma StoreRows(df: Frame, rs: Roles, parseDate: string -> Option<Date>, i: nat)
    requires WellFormed(df) && Chosen(rs, df.columns) && Clash(rs, df.columns) == None
    requires i < |df.rows|
    ensures var s := ToStore(Converted(df, rs, parseDate), |df.rows|);
      var row := df.rows[i];
      |s.rows| == |df.rows| && s.columns == CanonsOf(rs) &&
      s.rows[i].debit == (if rs.debit.Some? then CoerceAmount(Lookup(df.columns, row, rs.debit.value)) else 0.0) &&
      s.rows[i].credit == (if rs.credit.Some? then CoerceAmount(Lookup(df.columns, row, rs.credit.value)) else 0.0) &&
      s.rows[i].date == (if rs.date.Some? then DayOf(Lookup(df.columns, row, rs.date.value), parseDate) else None) &&
      s.rows[i].reference == (if rs.reference.Some? then Lookup(df.columns, row, rs.reference.value) else None)
  {
    var t := Converted(df, rs, parseDate);
    ConvertedShape(df, rs, parseDate);
    PresentOrder(t, rs);
    AmountRow(df, t, DebitCol, rs.debit, i);
    AmountRow(df, t, CreditCol, rs.credit, i);
    DayRow(df, t, rs.date, parseDate, i);
    TextRow(df, t, rs.reference, i);
  }

  /** Row `i` of a Debit or Credit column read as numbers. */
  lemma AmountRow(df: Frame, t: Table, c: Canon, m: Option<Label>, i: nat)
    requires WellFormed(df) && i < |df.rows| && (m.Some? ==> m.value in df.columns)
    requires (c in t <==> m.Some?)
    requires m.Some? ==> t[c] == AsAmounts(Texts(ColumnCells(df, IndexOf(df.columns, m.value))))
    ensures AmountAt(t, c, i) == (if m.Some? then CoerceAmount(Lookup(df.columns, df.rows[i], m.value)) else 0.0)
  {
  }

  /** Row `i` of the Date column read as days. */
  lemma DayRow(df: Frame, t: Table, m: Option<Label>, parseDate: string -> Option<Date>, i: nat)
    requires WellFormed(df) && i < |df.rows| && (m.Some? ==> m.value in df.columns)
    requires (DateCol in t <==> m.Some?)
    requires m.Some? ==> t[DateCol] == AsDays(Texts(ColumnCells(df, IndexOf(df.columns, m.value))), parseDate)
    ensures DayAt(t, i) == (if m.Some? then DayOf(Lookup(df.columns, df.rows[i], m.value), parseDate) else None)
  {
  }

  /** Row `i` of the Reference column, kept as text. */
  lemma TextRow(df: Frame, t: Table, m: Option<Label>, i: nat)
    requires WellFormed(df) && i < |df.rows| && (m.Some? ==> m.value in df.columns)
    requires (ReferenceCol in t <==> m.Some?)
    requires m.Some? ==> t[ReferenceCol] == Texts(ColumnCells(df, IndexOf(df.columns, m.value)))
    ensures TextAt(t, i) == (if m.Some? then Lookup(df.columns, df.rows[i], m.value) else None)
  {
  }

  /** The normalised table: one row per row of the stacked frame; the
      columns of the roles that found a label, in Date, Debit, Credit,
      Reference order; Debit and Credit the coerced text of the chosen
      column's cell, the date the day read from it, the reference its text,
      and the defaults for the columns the table lacks. */
  lemma NormalizedRows(df: Frame, parseDate: string -> Option<Date>, i: nat)
    requires WellFormed(df) && NormalizeFrame(df, parseDate).Normalized?
    requires i < |df.rows|
    ensures var s := NormalizeFrame(df, parseDate).store;
      var rs := RolesOf(df.columns);
      var row := df.rows[i];
      |s.rows| == |df.rows| && s.columns == CanonsOf(rs) &&
      s.rows[i].debit == (if rs.debit.Some? then CoerceAmount(Lookup(df.columns, row, rs.debit.value)) else 0.0) &&
      s.rows[i].credit == (if rs.credit.Some? then CoerceAmount(Lookup(df.columns, row, rs.credit.value)) else 0.0) &&
      s.rows[i].date == (if rs.date.Some? then DayOf(Lookup(df.columns, row, rs.date.value), parseDate) else None) &&
      s.rows[i].reference == (if rs.reference.Some? then Lookup(df.columns, row, rs.reference.value) else None)
  {
    KeepInColumns(df.columns);
    StoreRows(df, RolesOf(df.columns), parseDate, i);
  }

  /** The normalised table holds one row per data row of every page that
      had a table. */
  lemma NormalizeRowCount(pages: seq<Option<RawTable>>, parseDate: string -> Option<Date>)
    requires Normalize(Opened(pages), parseDate).Normalized?
    ensures |Normalize(Opened(pages), parseDate).store.rows| == DataRows(pages)
  {
    CollectRows(pages);
    var fs := Collect(pages).value;
    ConcatShape(fs);
    FrameRowCount(Concat(fs).value, parseDate);
  }

  lemma FrameRowCount(df: Frame, parseDate: string -> Option<Date>)
    requires WellFormed(df) && NormalizeFrame(df, parseDate).Normalized?
    ensures |NormalizeFrame(df, parseDate).store.rows| == |df.rows|
  {
  }

  /** A label chosen both as Debit and as Credit (and not as Reference) is
      renamed "Credit" and projected twice, so the coercion loop meets two
      Credit columns and fails. */
  lemma SharedAmountColumn(df: Frame, parseDate: string -> Option<Date>)
    requires WellFormed(df)
    requires var rs := RolesOf(df.columns); rs.debit.Some? && rs.credit == rs.debit && rs.reference != rs.debit
    ensures NormalizeFrame(df, parseDate) == Crashed(DuplicateColumn(CreditCol))
  {
    var rs := RolesOf(df.columns);
    KeepInColumns(df.columns);
    CountPositive(df.columns, rs.debit.value);
    NoDebitWidth(rs, df.columns);
  }

  lemma NoDebitWidth(rs: Roles, cols: seq<Label>)
    requires rs.debit.Some? && rs.credit == rs.debit && rs.reference != rs.debit
    ensures Width(rs, cols, DebitCol) == 0
    ensures Width(rs, cols, CreditCol) >= 2 * Count(cols, rs.debit.value)
  {
  }
}

