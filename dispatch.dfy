/**
 * The question dispatcher of the chatbot (bot2.py lines 195-337): the
 * quick-analysis option becomes a snake_case key, a typed question
 * overrides it, and the first known key contained in the query picks the
 * answer; otherwise a "how much ... on ..." question searches the
 * references, and anything else is not understood.
 */
module Dispatch {
  import opened Wrappers
  import opened Text
  import opened Ledger
  import opened Grouping
  import opened Orders
  import opened Filters
  import opened Aggregate

  // ---------------------------------------------------------------------
  // The query (bot2.py lines 195-209)

  /** The icons of the quick-analysis options, in the order the radio lists them. */
  const Icons: seq<string> := [
    "\U{1F534}", "\U{1F4B0}", "\U{1F4C5}", "\U{1F4B8}", "\U{1F4B5}",
    "\U{1F5D3}\U{FE0F}", "\U{1F5D3}\U{FE0F}", "\U{1F522}", "\U{1F525}", "\U{1F3C6}"]

  /** The words of the quick-analysis options. */
  const Words: seq<string> := [
    "Highest Debit", "Highest Credit", "Most Transactions", "Total Spent", "Total Deposited",
    "Monthly Summary", "Weekly Summary", "Transaction Count by Reference",
    "Most Frequent Reference", "Largest Transaction"]

  /** The quick-analysis options: each icon, a space, and its words. */
  const QuickOptions: seq<string> := seq(10, i requires 0 <= i < 10 => Icons[i] + " " + Words[i])

  lemma SpaceOccurs(s: string)
    ensures forall k :: 0 <= k < |s| ==> (OccursAt(s, " ", k) <==> s[k] == ' ')
  {
    forall k | 0 <= k < |s| ensures OccursAt(s, " ", k) <==> s[k] == ' ' {
      assert s[k..k + 1] == [s[k]];
    }
  }

  /** `caption.split(" ", 1)[1].lower().replace(" ", "_")`: nothing (an
      IndexError) for a caption without a space. */
  function QuickKey(caption: string): (r: Option<string>)
    ensures r.None? <==> ' ' !in caption
    ensures r.Some? ==> ' ' !in r.value
  {
    SpaceOccurs(caption);
    match FindFirst(caption, " ")
    case None => None
    case Some(i) => Some(ReplaceChar(Lower(caption[i + 1..]), ' ', '_'))
  }

  /** An icon without a space, a space, and words: the key is the words,
      lower-cased, with underscores for spaces. */
  lemma QuickKeyWords(icon: string, words: string)
    requires ' ' !in icon
    ensures QuickKey(icon + " " + words) == Some(ReplaceChar(Lower(words), ' ', '_'))
  {
    var caption := icon + " " + words;
    SpaceOccurs(caption);
    assert caption[|icon|] == ' ';
    var i := FindFirst(caption, " ").value;
    assert i == |icon| by {
      assert caption[i] == ' ';
      assert forall k :: 0 <= k < |icon| ==> caption[k] == icon[k];
      assert !(i < |icon|);
      assert !OccursAt(caption, " ", |icon|) ==> !(i > |icon|);
    }
    assert caption[i + 1..] == words;
  }

  /** The session query: the key of the quick option (line 203), replaced
      by the lower-cased typed question when there is one (line 209);
      nothing when the option's caption has no space. */
  function Query(selected: string, typed: string): (r: Option<string>)
    ensures r.None? <==> ' ' !in selected
    ensures r.Some? && typed != [] ==> r.value == Lower(typed)
    ensures r.Some? && typed == [] ==> r == QuickKey(selected)
  {
    match QuickKey(selected)
    case None => None
    case Some(k) => Some(if typed != [] then Lower(typed) else k)
  }

  /** `st.session_state.query` after lines 191-209: the previous query,
      overwritten by the Apply Filters button, then by the quick option's
      key when an option is selected, then by the typed question. */
  function SessionQuery(previous: string, pressed: bool, selected: string, typed: string): (r: Option<string>)
    ensures selected != [] ==> r == Query(selected, typed)
    ensures selected == [] && typed == [] ==> r == Some(if pressed then "filter_reference_amount" else previous)
    ensures selected == [] && typed != [] ==> r == Some(Lower(typed))
  {
    var afterButton := if pressed then "filter_reference_amount" else previous;
    var afterRadio := if selected != [] then QuickKey(selected) else Some(afterButton);
    match afterRadio
    case None => None
    case Some(k) => Some(if typed != [] then Lower(typed) else k)
  }

  /** The radio always has a selection, so the key the Apply Filters button
      stores is overwritten on the same run and the button changes nothing. */
  lemma ButtonOverwritten(previous: string, i: nat, typed: string)
    requires i < |QuickOptions|
    ensures SessionQuery(previous, true, QuickOptions[i], typed) == SessionQuery(previous, false, QuickOptions[i], typed)
    ensures SessionQuery(previous, true, QuickOptions[i], typed) == Query(QuickOptions[i], typed)
  {
    assert |QuickOptions[i]| > 0;
  }

  // ---------------------------------------------------------------------
  // Dispatch (bot2.py lines 213-337)

  /** The keys the chain tests, in its order. */
  const FixedKeys: seq<string> := [
    "highest_debit", "highest_credit", "most_transactions", "total_spent",
    "total_deposited", "monthly_summary", "weekly_summary", "count_by_reference",
    "most_frequent_reference", "largest_transaction", "filter_reference_amount"]

  /** The sidebar's filter settings. */
  datatype Sidebar = Sidebar(searchTerm: string, minAmount: real, maxAmount: real, amountColumn: Canon)

  predicate ValidSidebar(f: Sidebar) {
    f.amountColumn == DebitCol || f.amountColumn == CreditCol
  }

  /** What the page shows for a query. */
  datatype Answer =
    | Silent
    | Highest(col: Canon, reference: string, total: real, top: seq<(string, real)>)
    | NoAmountData(col: Canon)
    | Busiest(day: Date, count: nat, days: seq<(Date, nat)>)
    | NoDateData
    | Total(col: Canon, total: real)
    | ColumnMissing(col: Canon)
    | Monthly(months: seq<Bucket<Month>>)
    | Weekly(weeks: seq<Bucket<int>>)
    | NoPeriodData
    | KeyError(col: Canon)
    | ReferenceCounts(counts: seq<(string, nat)>)
    | MostFrequent(reference: string, count: nat, counts: seq<(string, nat)>)
    | NoReferenceData
    | Largest(debit: Option<real>, credit: Option<real>)
    | Found(rows: Store)
    | NoMatches
    | SpentOn(term: string, spent: real, rows: Store)
    | NothingContaining(term: string)
    | SearchHint
    | UnsupportedPattern(pattern: string)
    | NotUnderstood

  /** The highest debit or credit (lines 215-236): the reference `idxmax`
      picks from the top five and its total. */
  function HighestAnswer(s: Store, col: Canon): Answer {
    var top := TopAmounts(s, col, 5);
    if top != [] then
      var i := ArgMax(top, Amount);
      Highest(col, top[i].0, top[i].1, top)
    else NoAmountData(col)
  }

  /** The busiest day (lines 238-246). */
  function BusiestAnswer(s: Store): Answer {
    var counts := DayCounts(s);
    if counts != [] then
      var i := ArgMax(counts, DayScore);
      Busiest(counts[i].0, counts[i].1, counts)
    else NoDateData
  }

  /** Total spent or deposited (lines 248-260). */
  function TotalAnswer(s: Store, col: Canon): Answer {
    if Has(s, col) then Total(col, ColumnSum(s.rows, col)) else ColumnMissing(col)
  }

  /** A monthly or weekly summary (lines 262-282); a missing Debit or
      Credit column is pandas' KeyError. */
  function MonthlyAnswer(s: Store): Answer {
    match MonthlySummary(s)
    case Err(c) => KeyError(c)
    case Ok(bs) => if bs != [] then Monthly(bs) else NoPeriodData
  }

  function WeeklyAnswer(s: Store, weekOf: Date -> int): Answer {
    match WeeklySummary(s, weekOf)
    case Err(c) => KeyError(c)
    case Ok(bs) => if bs != [] then Weekly(bs) else NoPeriodData
  }

  /** Transactions per reference (lines 284-291). */
  function CountsAnswer(s: Store): Answer {
    var counts := CountByReference(s);
    if counts != [] then ReferenceCounts(counts) else NoReferenceData
  }

  /** The most frequent reference (lines 293-301). */
  function FrequentAnswer(s: Store): Answer {
    var counts := CountByReference(s);
    if counts != [] then
      var i := ArgMax(counts, RefScore);
      MostFrequent(counts[i].0, counts[i].1, counts)
    else NoReferenceData
  }

  /** The largest debit and credit (lines 303-305); `None` is NaN. */
  function LargestAnswer(s: Store): Answer {
    Largest(ColumnMax(s, DebitCol), ColumnMax(s, CreditCol))
  }

  /** The sidebar filters (lines 307-320): the reference search when a
      term is set, then the amount filter, with a maximum only when it is
      positive. */
  function FilterAnswer(s: Store, f: Sidebar): Answer
    requires ValidSidebar(f)
  {
    if f.searchTerm != [] && Needle(Lower(f.searchTerm)).None? then UnsupportedPattern(f.searchTerm)
    else
      var searched := if f.searchTerm != [] then SearchReference(s, f.searchTerm) else s;
      var hi := if f.maxAmount > 0.0 then Some(f.maxAmount) else None;
      var found := FilterByAmount(searched, f.minAmount, hi, f.amountColumn);
      if !IsEmpty(found) then Found(found) else NoMatches
  }

  /** The question words that route a query to the reference search. */
  predicate AsksHowMuch(q: string) {
    Contains(q, "how much") || Contains(q, "spent on") || Contains(q, "spend on")
  }

  /** The term of a "how much ... on ..." question as written on line 322:
      the last piece of `q.split("on")`, stripped; nothing when `q` holds
      no "on". */
  function SpendTermAsWritten(q: string): (r: Option<string>)
    ensures r.None? <==> !Contains(q, "on")
  {
    SplitMoreThanOne(q, "on");
    if |Split(q, "on")| > 1 then Some(Strip(LastPiece(q, "on"))) else None
  }

  /** The term as the question means it: what follows the last word "on",
      stripped; nothing when `q` holds no " on ". */
  function SpendTerm(q: string): (r: Option<string>)
    ensures r.None? <==> !Contains(q, " on ")
  {
    match FindLast(q, " on ")
    case None => None
    case Some(k) => ContainsAt(q, " on ", k); Some(Strip(q[k + 4..]))
  }

  /** The search of lines 325-332 for a term: the debits of the rows whose
      reference contains it, or "nothing containing" it. */
  function SearchSpend(s: Store, term: string): Answer {
    if Needle(Lower(term)).None? then UnsupportedPattern(term)
    else
      var found := SearchReference(s, term);
      if !IsEmpty(found) then SpentOn(term, if Has(found, DebitCol) then ColumnSum(found.rows, DebitCol) else 0.0, found)
      else NothingContaining(term)
  }

  /** The free-text question (lines 321-334), with the term of line 324:
      the search hint when `q` holds no "on", otherwise the search. */
  function SpendAnswer(s: Store, q: string): Answer {
    match SpendTermAsWritten(q)
    case None => SearchHint
    case Some(term) => SearchSpend(s, term)
  }

  /** The free-text question as it is meant: the search for what follows
      the last word "on". No run of the page uses it. */
  function SpendAnswerIntended(s: Store, q: string): Answer {
    match SpendTerm(q)
    case None => SearchHint
    case Some(term) => SearchSpend(s, term)
  }

  /** The chain of lines 214-337 for a loaded statement. */
  function Respond(s: Store, q: string, f: Sidebar, weekOf: Date -> int): Answer
    requires ValidSidebar(f)
  {
    if q == [] then Silent
    else if Contains(q, "highest_debit") then HighestAnswer(s, DebitCol)
    else if Contains(q, "highest_credit") then HighestAnswer(s, CreditCol)
    else if Contains(q, "most_transactions") then BusiestAnswer(s)
    else if Contains(q, "total_spent") then TotalAnswer(s, DebitCol)
    else if Contains(q, "total_deposited") then TotalAnswer(s, CreditCol)
    else if Contains(q, "monthly_summary") then MonthlyAnswer(s)
    else if Contains(q, "weekly_summary") then WeeklyAnswer(s, weekOf)
    else if Contains(q, "count_by_reference") then CountsAnswer(s)
    else if Contains(q, "most_frequent_reference") then FrequentAnswer(s)
    else if Contains(q, "largest_transaction") then LargestAnswer(s)
    else if Contains(q, "filter_reference_amount") then FilterAnswer(s, f)
    else if AsksHowMuch(q) then SpendAnswer(s, q)
    else NotUnderstood
  }

  /** What one run of the page shows: the upload prompt, the answer to the
      query, or nothing past the quick options (an IndexError). */
  datatype Page = UploadPrompt | Shown(answer: Answer) | IndexError

  /** One run of the page: without a non-empty statement the upload prompt
      (lines 178, 338-339); otherwise the query's answer, or nothing when
      the selected caption has no space (an IndexError). */
  function Turn(df: Option<Store>, previous: string, pressed: bool, selected: string, typed: string,
                f: Sidebar, weekOf: Date -> int): Page
    requires ValidSidebar(f)
  {
    if df.None? || IsEmpty(df.value) then UploadPrompt
    else
      match SessionQuery(previous, pressed, selected, typed)
      case None => IndexError
      case Some(q) => Shown(Respond(df.value, q, f, weekOf))
  }

  // ---------------------------------------------------------------------
  // The chain as "the first key the query contains decides"

  /** The index of the first of `keys` that `q` contains. */
  function FirstKey(q: string, keys: seq<string>): (r: Option<nat>)
    ensures r.Some? ==> r.value < |keys| && Contains(q, keys[r.value])
    ensures r.Some? ==> forall j :: 0 <= j < r.value ==> !Contains(q, keys[j])
    ensures r.None? ==> forall j :: 0 <= j < |keys| ==> !Contains(q, keys[j])
  {
    if keys == [] then None
    else if Contains(q, keys[0]) then Some(0)
    else
      match FirstKey(q, keys[1..])
      case None => None
      case Some(i) => Some(i + 1)
  }

  /** The handler of the `i`-th key of `FixedKeys`. */
  function Handler(i: nat, s: Store, f: Sidebar, weekOf: Date -> int): Answer
    requires i < |FixedKeys| && ValidSidebar(f)
  {
    if i == 0 then HighestAnswer(s, DebitCol)
    else if i == 1 then HighestAnswer(s, CreditCol)
    else if i == 2 then BusiestAnswer(s)
    else if i == 3 then TotalAnswer(s, DebitCol)
    else if i == 4 then TotalAnswer(s, CreditCol)
    else if i == 5 then MonthlyAnswer(s)
    else if i == 6 then WeeklyAnswer(s, weekOf)
    else if i == 7 then CountsAnswer(s)
    else if i == 8 then FrequentAnswer(s)
    else if i == 9 then LargestAnswer(s)
    else FilterAnswer(s, f)
  }

  /** A non-empty query is answered by the handler of the first key it
      contains; with none, a "how much" question goes to the reference
      search and anything else is not understood. */
  lemma FirstKeyDecides(s: Store, q: string, f: Sidebar, weekOf: Date -> int)
    requires ValidSidebar(f) && q != []
    ensures FirstKey(q, FixedKeys).Some? ==> Respond(s, q, f, weekOf) == Handler(FirstKey(q, FixedKeys).value, s, f, weekOf)
    ensures FirstKey(q, FixedKeys).None? && AsksHowMuch(q) ==> Respond(s, q, f, weekOf) == SpendAnswer(s, q)
    ensures FirstKey(q, FixedKeys).None? && !AsksHowMuch(q) ==> Respond(s, q, f, weekOf) == NotUnderstood
  {
    var keys := FixedKeys;
    assert keys[0] == "highest_debit" && keys[1] == "highest_credit" && keys[2] == "most_transactions";
    assert keys[3] == "total_spent" && keys[4] == "total_deposited" && keys[5] == "monthly_summary";
    assert keys[6] == "weekly_summary" && keys[7] == "count_by_reference" && keys[8] == "most_frequent_reference";
    assert keys[9] == "largest_transaction" && keys[10] == "filter_reference_amount";
    match FirstKey(q, keys)
    case None =>
    case Some(i) =>
      assert Contains(q, keys[i]) && forall j :: 0 <= j < i ==> !Contains(q, keys[j]);
  }

  /** A substring's characters are characters of the string. */
  lemma ContainsChars(s: string, t: string)
    ensures Contains(s, t) ==> forall c :: c in t ==> c in s
  {
    if Contains(s, t) {
      var i := FindFirst(s, t).value;
      forall c | c in t ensures c in s {
        var k :| 0 <= k < |t| && t[k] == c;
        assert s[i..i + |t|][k] == c;
      }
    }
  }

  lemma ContainsSelf(s: string)
    ensures Contains(s, s)
  {
    assert OccursAt(s, s, 0);
    ContainsAt(s, s, 0);
  }

  lemma Lowered(words: string, key: string)
    requires |words| == |key|
    requires forall k :: 0 <= k < |words| ==> (if LowerChar(words[k]) == ' ' then '_' else LowerChar(words[k])) == key[k]
    ensures ReplaceChar(Lower(words), ' ', '_') == key
  {
  }

  /** The query each quick option yields when nothing is typed. */
  const QuickQueries: seq<string> := [
    "highest_debit", "highest_credit", "most_transactions", "total_spent",
    "total_deposited", "monthly_summary", "weekly_summary", "transaction_count_by_reference",
    "most_frequent_reference", "largest_transaction"]

  /** The query of the quick option at `i`, from its icon and words. */
  lemma OptionQuery(i: nat)
    requires i < |QuickOptions| && ' ' !in Icons[i]
    requires ReplaceChar(Lower(Words[i]), ' ', '_') == QuickQueries[i]
    ensures Query(QuickOptions[i], []) == Some(QuickQueries[i])
  {
    QuickKeyWords(Icons[i], Words[i]);
  }

  lemma QuickHighestDebit()
    ensures Query(QuickOptions[0], []) == Some(QuickQueries[0])
  {
    Lowered(Words[0], QuickQueries[0]);
    OptionQuery(0);
  }

  lemma QuickHighestCredit()
    ensures Query(QuickOptions[1], []) == Some(QuickQueries[1])
  {
    Lowered(Words[1], QuickQueries[1]);
    OptionQuery(1);
  }

  lemma QuickMostTransactions()
    ensures Query(QuickOptions[2], []) == Some(QuickQueries[2])
  {
    Lowered(Words[2], QuickQueries[2]);
    OptionQuery(2);
  }

  lemma QuickTotalSpent()
    ensures Query(QuickOptions[3], []) == Some(QuickQueries[3])
  {
    Lowered(Words[3], QuickQueries[3]);
    OptionQuery(3);
  }

  lemma QuickTotalDeposited()
    ensures Query(QuickOptions[4], []) == Some(QuickQueries[4])
  {
    Lowered(Words[4], QuickQueries[4]);
    OptionQuery(4);
  }

  lemma QuickMonthlySummary()
    ensures Query(QuickOptions[5], []) == Some(QuickQueries[5])
  {
    Lowered(Words[5], QuickQueries[5]);
    OptionQuery(5);
  }

  lemma QuickWeeklySummary()
    ensures Query(QuickOptions[6], []) == Some(QuickQueries[6])
  {
    Lowered(Words[6], QuickQueries[6]);
    OptionQuery(6);
  }

  lemma QuickCountByReference()
    ensures Query(QuickOptions[7], []) == Some(QuickQueries[7])
  {
    Lowered(Words[7], QuickQueries[7]);
    OptionQuery(7);
  }

  lemma QuickMostFrequentReference()
    ensures Query(QuickOptions[8], []) == Some(QuickQueries[8])
  {
    Lowered(Words[8], QuickQueries[8]);
    OptionQuery(8);
  }

  lemma QuickLargestTransaction()
    ensures Query(QuickOptions[9], []) == Some(QuickQueries[9])
  {
    Lowered(Words[9], QuickQueries[9]);
    OptionQuery(9);
  }

  /** Each quick option, with nothing typed, yields its query. */
  lemma QuickQueryOf(i: nat)
    requires i < |QuickOptions|
    ensures Query(QuickOptions[i], []) == Some(QuickQueries[i])
  {
    if i < 5 {
      FirstQuickQueries(i);
    } else {
      LastQuickQueries(i);
    }
  }

  lemma FirstQuickQueries(i: nat)
    requires i < 5
    ensures Query(QuickOptions[i], []) == Some(QuickQueries[i])
  {
    if i == 0 {
      QuickHighestDebit();
    } else if i == 1 {
      QuickHighestCredit();
    } else if i == 2 {
      QuickMostTransactions();
    } else if i == 3 {
      QuickTotalSpent();
    } else {
      QuickTotalDeposited();
    }
  }

  lemma LastQuickQueries(i: nat)
    requires 5 <= i < |QuickOptions|
    ensures Query(QuickOptions[i], []) == Some(QuickQueries[i])
  {
    if i == 5 {
      QuickMonthlySummary();
    } else if i == 6 {
      QuickWeeklySummary();
    } else if i == 7 {
      QuickCountByReference();
    } else if i == 8 {
      QuickMostFrequentReference();
    } else {
      QuickLargestTransaction();
    }
  }

  /** Every key holds an underscore. */
  lemma KeysHaveUnderscore()
    ensures forall j :: 0 <= j < |FixedKeys| ==> '_' in FixedKeys[j]
  {
    FirstKeysUnderscore();
    LastKeysUnderscore();
  }

  lemma FirstKeysUnderscore()
    ensures forall j :: 0 <= j < 6 ==> '_' in FixedKeys[j]
  {
    var keys := FixedKeys;
    assert keys[0][7] == '_' && keys[1][7] == '_' && keys[2][4] == '_';
    assert keys[3][5] == '_' && keys[4][5] == '_' && keys[5][7] == '_';
  }

  lemma LastKeysUnderscore()
    ensures forall j :: 6 <= j < 11 ==> '_' in FixedKeys[j]
  {
    var keys := FixedKeys;
    assert keys[6][6] == '_' && keys[7][5] == '_' && keys[8][4] == '_';
    assert keys[9][7] == '_' && keys[10][6] == '_';
  }

  /** A question without an underscore, as people type them, never reaches
      a keyed handler: it is the reference search or not understood. */
  lemma TypedQuestion(s: Store, q: string, f: Sidebar, weekOf: Date -> int)
    requires ValidSidebar(f) && q != [] && '_' !in q
    ensures Respond(s, q, f, weekOf) == if AsksHowMuch(q) then SpendAnswer(s, q) else NotUnderstood
  {
    KeysHaveUnderscore();
    forall j | 0 <= j < |FixedKeys| ensures !Contains(q, FixedKeys[j]) {
      ContainsChars(q, FixedKeys[j]);
    }
    FirstKeyDecides(s, q, f, weekOf);
  }

  /** A typed question replaces the quick option's query, lower-cased. */
  lemma TypedOverrides(s: Store, previous: string, pressed: bool, selected: string, typed: string,
                       f: Sidebar, weekOf: Date -> int)
    requires ValidSidebar(f) && !IsEmpty(s) && (selected == [] || ' ' in selected) && typed != []
    ensures Turn(Some(s), previous, pressed, selected, typed, f, weekOf) == Shown(Respond(s, Lower(typed), f, weekOf))
  {
  }

  /** The upload prompt shows exactly when there is no statement, or an
      empty one; with a statement the run stops early exactly when the
      selected caption has no space; an empty query shows nothing, and a
      typed question without an underscore is the reference search or not
      understood, whatever option is selected. */
  lemma {:induction false} TurnFacts(df: Option<Store>, previous: string, pressed: bool, selected: string, typed: string,
                  f: Sidebar, weekOf: Date -> int)
    requires ValidSidebar(f)
    ensures Turn(df, previous, pressed, selected, typed, f, weekOf) == UploadPrompt <==> df.None? || IsEmpty(df.value)
    ensures Turn(df, previous, pressed, selected, typed, f, weekOf) == IndexError <==>
      df.Some? && !IsEmpty(df.value) && selected != [] && ' ' !in selected
    ensures df.Some? && !IsEmpty(df.value) && SessionQuery(previous, pressed, selected, typed) == Some([]) ==>
      Turn(df, previous, pressed, selected, typed, f, weekOf) == Shown(Silent)
    ensures df.Some? && !IsEmpty(df.value) && (selected == [] || ' ' in selected) && typed != [] && '_' !in typed ==>
      var q := Lower(typed);
      Turn(df, previous, pressed, selected, typed, f, weekOf) == Shown(if AsksHowMuch(q) then SpendAnswer(df.value, q) else NotUnderstood)
  {
    if df.Some? && !IsEmpty(df.value) && (selected == [] || ' ' in selected) && typed != [] && '_' !in typed {
      var q := Lower(typed);
      forall k | 0 <= k < |q| ensures q[k] != '_' {
        assert typed[k] != '_';
      }
      TypedOverrides(df.value, previous, pressed, selected, typed, f, weekOf);
      TypedQuestion(df.value, q, f, weekOf);
    }
  }

  // ---------------------------------------------------------------------
  // What each answer means

  /** The highest debit or credit names a reference whose total is
      positive and not below any other reference's total; there is none
      exactly when a column is missing or no total is positive. */
  lemma HighestFacts(s: Store, col: Canon)
    ensures HighestAnswer(s, col).NoAmountData? <==>
      !(Has(s, col) && Has(s, ReferenceCol)) || forall k :: IsReference(s, k) ==> SumOf(s.rows, RefKey, k, ValueOf(col)) <= 0.0
    ensures HighestAnswer(s, col).Highest? ==>
      var a := HighestAnswer(s, col);
      a.col == col && a.top == TopAmounts(s, col, 5) && a.top != [] && (a.reference, a.total) == a.top[0] &&
      a.total > 0.0 && IsReference(s, a.reference) && a.total == SumOf(s.rows, RefKey, a.reference, ValueOf(col)) &&
      forall k :: IsReference(s, k) ==> SumOf(s.rows, RefKey, k, ValueOf(col)) <= a.total
    ensures HighestAnswer(s, col).Highest? ==>
      var a := HighestAnswer(s, col);
      forall k :: IsReference(s, k) && SumOf(s.rows, RefKey, k, ValueOf(col)) == a.total ==>
        k == a.reference || StrLt(a.reference, k)
  {
    var top := TopAmounts(s, col, 5);
    TopShape(s, col, 5);
    if Has(s, col) && Has(s, ReferenceCol) {
      TopHead(s, col, 5);
      if top != [] {
        ArgMaxSorted(top, Amount);
        assert top[0] in top;
        FirstOfEqualTotals(s, col, top);
      }
    }
  }

  /** Of the references with the largest total, the head of the top list
      is the first in reference order. */
  lemma FirstOfEqualTotals(s: Store, col: Canon, top: seq<(string, real)>)
    requires top == TopAmounts(s, col, 5) && top != []
    ensures forall k :: IsReference(s, k) && SumOf(s.rows, RefKey, k, ValueOf(col)) == top[0].1 ==>
      k == top[0].0 || StrLt(top[0].0, k)
  {
    TopShape(s, col, 5);
    TopTies(s, col, 5);
    assert top[0] in top;
    forall k | IsReference(s, k) && SumOf(s.rows, RefKey, k, ValueOf(col)) == top[0].1
      ensures k == top[0].0 || StrLt(top[0].0, k)
    {
      if d :| d in top && d.0 == k {
        var j :| 0 <= j < |top| && top[j] == d;
        assert Exact(s, col, d);
      }
    }
  }

  /** The busiest day is a day some row is dated, with its number of rows,
      as many as any other day has, and more than any earlier day has
      (`idxmax` keeps the first of equal counts). */
  lemma BusiestFacts(s: Store)
    ensures BusiestAnswer(s).NoDateData? <==>
      !Has(s, DateCol) || forall i :: 0 <= i < |s.rows| ==> s.rows[i].date.None?
    ensures BusiestAnswer(s).Busiest? ==>
      var a := BusiestAnswer(s);
      a.days == DayCounts(s) && a.count == CountOf(s.rows, DayKey, a.day) &&
      (exists i :: 0 <= i < |s.rows| && s.rows[i].date == Some(a.day)) &&
      (forall i :: 0 <= i < |s.rows| && s.rows[i].date.Some? ==> CountOf(s.rows, DayKey, s.rows[i].date.value) <= a.count) &&
      (forall i :: 0 <= i < |s.rows| && s.rows[i].date.Some? && DateLt(s.rows[i].date.value, a.day) ==>
         CountOf(s.rows, DayKey, s.rows[i].date.value) < a.count)
  {
    if Has(s, DateCol) {
      DaysPresent(s);
      var counts := DayCounts(s);
      if counts != [] {
        DayCountsShape(s);
        DateOrder();
        FirstMaxDay(s.rows, counts, ArgMax(counts, DayScore));
      }
    }
  }

  /** There is a day to count exactly when some row is dated. */
  lemma DaysPresent(s: Store)
    requires Has(s, DateCol)
    ensures DayCounts(s) != [] <==> exists i :: 0 <= i < |s.rows| && s.rows[i].date.Some?
  {
    var counts := DayCounts(s);
    DayCountsShape(s);
    if exists i :: 0 <= i < |s.rows| && s.rows[i].date.Some? {
      var i :| 0 <= i < |s.rows| && s.rows[i].date.Some?;
      var d := s.rows[i].date.value;
      assert DatedOn(s.rows, d);
      assert Listed(counts, d);
    }
    if counts != [] {
      var d := counts[0].0;
      assert Listed(counts, d);
      assert DatedOn(s.rows, d);
    }
  }

  /** In counts of ascending days, the first largest count is at least any
      day's count and more than any earlier day's. */
  lemma {:induction false} FirstMaxDay(rows: seq<Txn>, counts: seq<(Date, nat)>, m: nat)
    requires m < |counts|
    requires forall i, j :: 0 <= i < j < |counts| ==> DateLt(counts[i].0, counts[j].0)
    requires forall d :: Listed(counts, d) <==> DatedOn(rows, d)
    requires forall i :: 0 <= i < |counts| ==> counts[i].1 == CountOf(rows, DayKey, counts[i].0)
    requires forall j :: 0 <= j < |counts| ==> DayScore(counts[j]) <= DayScore(counts[m])
    requires forall j :: 0 <= j < m ==> DayScore(counts[j]) < DayScore(counts[m])
    requires StrictTotal(DateLt)
    ensures exists i :: 0 <= i < |rows| && rows[i].date == Some(counts[m].0)
    ensures forall i :: 0 <= i < |rows| && rows[i].date.Some? ==> CountOf(rows, DayKey, rows[i].date.value) <= counts[m].1
    ensures forall i :: 0 <= i < |rows| && rows[i].date.Some? && DateLt(rows[i].date.value, counts[m].0) ==>
      CountOf(rows, DayKey, rows[i].date.value) < counts[m].1
  {
    var day := counts[m].0;
    assert 0 <= m < |counts| && counts[m].0 == day;
    assert Listed(counts, day);
    assert DatedOn(rows, day);
    forall i | 0 <= i < |rows| && rows[i].date.Some?
      ensures CountOf(rows, DayKey, rows[i].date.value) <= counts[m].1
      ensures DateLt(rows[i].date.value, counts[m].0) ==> CountOf(rows, DayKey, rows[i].date.value) < counts[m].1
    {
      var d := rows[i].date.value;
      assert DatedOn(rows, d);
      assert Listed(counts, d);
      var j :| 0 <= j < |counts| && counts[j].0 == d;
      assert DayScore(counts[j]) <= DayScore(counts[m]);
      assert DateLt(d, counts[m].0) ==> j < m;
    }
  }

  /** Transactions per reference and the most frequent reference answer
      alike when there is no reference; otherwise the most frequent is a
      reference with as many rows as any other, and heads the counts. */
  lemma FrequentFacts(s: Store)
    ensures FrequentAnswer(s).NoReferenceData? <==> !Has(s, ReferenceCol) || forall k :: !IsReference(s, k)
    ensures CountsAnswer(s).NoReferenceData? <==> FrequentAnswer(s).NoReferenceData?
    ensures FrequentAnswer(s).MostFrequent? ==>
      var a := FrequentAnswer(s);
      a.counts == CountByReference(s) && a.counts != [] && (a.reference, a.count) == a.counts[0] &&
      IsReference(s, a.reference) && a.count == CountOf(s.rows, RefKey, a.reference) &&
      forall k :: IsReference(s, k) ==> CountOf(s.rows, RefKey, k) <= a.count
  {
    if Has(s, ReferenceCol) {
      CountByReferenceShape(s);
      ReferencesCounted(s);
      if CountByReference(s) != [] {
        MostFrequentFirst(s);
      }
    }
  }

  /** There are counts exactly when some row has a reference. */
  lemma ReferencesCounted(s: Store)
    requires Has(s, ReferenceCol)
    ensures CountByReference(s) != [] <==> exists k :: IsReference(s, k)
  {
    var counts := CountByReference(s);
    CountByReferenceShape(s);
    if exists k :: IsReference(s, k) {
      var k :| IsReference(s, k);
      assert (k, CountOf(s.rows, RefKey, k)) in counts;
    }
    if counts != [] {
      assert counts[0] in counts;
    }
  }

  /** The head of the counts is the most frequent reference. */
  lemma MostFrequentFirst(s: Store)
    requires Has(s, ReferenceCol) && CountByReference(s) != []
    ensures var counts := CountByReference(s);
      ArgMax(counts, RefScore) == 0 && IsReference(s, counts[0].0) && counts[0].1 == CountOf(s.rows, RefKey, counts[0].0) &&
      forall k :: IsReference(s, k) ==> CountOf(s.rows, RefKey, k) <= counts[0].1
  {
    var counts := CountByReference(s);
    CountByReferenceShape(s);
    ArgMaxSorted(counts, RefScore);
    assert counts[0] in counts;
    forall k | IsReference(s, k) ensures CountOf(s.rows, RefKey, k) <= counts[0].1 {
      assert (k, CountOf(s.rows, RefKey, k)) in counts;
      var j :| 0 <= j < |counts| && counts[j] == (k, CountOf(s.rows, RefKey, k));
      assert RefScore(counts[j]) <= RefScore(counts[0]);
    }
  }

  /** A summary is pandas' KeyError exactly when Date is there and Debit or
      Credit is not; it is empty exactly when no row has a date; otherwise
      its buckets are the periods of the rows, ascending, with their sums. */
  lemma MonthlyFacts(s: Store)
    ensures MonthlyAnswer(s).KeyError? <==> Has(s, DateCol) && !(Has(s, DebitCol) && Has(s, CreditCol))
    ensures MonthlyAnswer(s).NoPeriodData? <==>
      !Has(s, DateCol) || (Has(s, DebitCol) && Has(s, CreditCol) && forall i :: 0 <= i < |s.rows| ==> s.rows[i].date.None?)
    ensures MonthlyAnswer(s).Monthly? ==> SummaryFacts(s, MonthKey, MonthLt, MonthlyAnswer(s).months)
  {
    MonthOrder();
    SummaryShape(s, MonthKey, MonthLt);
    PeriodsPresent(s, MonthKey, MonthLt);
  }

  lemma WeeklyFacts(s: Store, weekOf: Date -> int)
    ensures WeeklyAnswer(s, weekOf).KeyError? <==> Has(s, DateCol) && !(Has(s, DebitCol) && Has(s, CreditCol))
    ensures WeeklyAnswer(s, weekOf).NoPeriodData? <==>
      !Has(s, DateCol) || (Has(s, DebitCol) && Has(s, CreditCol) && forall i :: 0 <= i < |s.rows| ==> s.rows[i].date.None?)
    ensures WeeklyAnswer(s, weekOf).Weekly? ==> SummaryFacts(s, WeekKey(weekOf), IntLt, WeeklyAnswer(s, weekOf).weeks)
  {
    IntOrder();
    SummaryShape(s, WeekKey(weekOf), IntLt);
    PeriodsPresent(s, WeekKey(weekOf), IntLt);
  }

  /** A successful summary has a bucket exactly when some row has a date. */
  lemma PeriodsPresent<K(!new)>(s: Store, key: Txn -> Option<K>, lt: (K, K) -> bool)
    requires StrictTotal(lt) && forall t :: key(t).Some? <==> t.date.Some?
    ensures Summary(s, key, lt).Ok? && Has(s, DateCol) ==>
      (Summary(s, key, lt).value != [] <==> exists i :: 0 <= i < |s.rows| && s.rows[i].date.Some?)
  {
    SummaryShape(s, key, lt);
    if Summary(s, key, lt).Ok? && Has(s, DateCol) {
      var bs := Summary(s, key, lt).value;
      if exists i :: 0 <= i < |s.rows| && s.rows[i].date.Some? {
        var i :| 0 <= i < |s.rows| && s.rows[i].date.Some?;
        var k := key(s.rows[i]).value;
        assert exists j :: 0 <= j < |s.rows| && key(s.rows[j]) == Some(k);
      }
      if bs != [] {
        var k := bs[0].period;
        assert exists j :: 0 <= j < |bs| && bs[j].period == k;
      }
    }
  }

  /** When every row is dated, the monthly buckets add up to the totals
      spent and deposited. */
  lemma TotalsAgree(s: Store)
    requires Has(s, DateCol) && Has(s, DebitCol) && Has(s, CreditCol) && s.rows != []
    requires forall i :: 0 <= i < |s.rows| ==> s.rows[i].date.Some?
    ensures MonthlyAnswer(s).Monthly?
    ensures TotalAnswer(s, DebitCol) == Total(DebitCol, DebitTotal(MonthlyAnswer(s).months))
    ensures TotalAnswer(s, CreditCol) == Total(CreditCol, CreditTotal(MonthlyAnswer(s).months))
  {
    MonthlyFacts(s);
    MonthlyMatchesTotals(s);
  }

  /** The rows the sidebar settings select: the reference matches the
      search term when one is set, and the amount is in range. */
  predicate Selected(t: Txn, f: Sidebar) {
    (f.searchTerm != [] ==>
       match Needle(Lower(f.searchTerm))
       case Some(n) => RefMatches(t.reference, n)
       case None => false) &&
    AmountIn(AmountOf(t, f.amountColumn), f.minAmount, Some(f.maxAmount))
  }

  /** The filter answer lists exactly the selected rows, each as many
      times as the statement has it, with every column; it finds nothing
      when a column it tests is missing. */
  lemma FilterFacts(s: Store, f: Sidebar)
    requires ValidSidebar(f)
    ensures FilterAnswer(s, f).UnsupportedPattern? <==> f.searchTerm != [] && Needle(Lower(f.searchTerm)).None?
    ensures FilterAnswer(s, f).Found? ==>
      FilterAnswer(s, f).rows.columns == s.columns &&
      forall t :: t in FilterAnswer(s, f).rows.rows <==> t in s.rows && Selected(t, f)
    ensures FilterAnswer(s, f).Found? ==>
      forall t :: multiset(FilterAnswer(s, f).rows.rows)[t] == if Selected(t, f) then multiset(s.rows)[t] else 0
    ensures !FilterAnswer(s, f).UnsupportedPattern? ==>
      (FilterAnswer(s, f).Found? <==>
         Has(s, f.amountColumn) && (f.searchTerm != [] ==> Has(s, ReferenceCol)) && exists t :: t in s.rows && Selected(t, f))
  {
    if f.searchTerm == [] || Needle(Lower(f.searchTerm)).Some? {
      var searched := if f.searchTerm != [] then SearchReference(s, f.searchTerm) else s;
      var hi := if f.maxAmount > 0.0 then Some(f.maxAmount) else None;
      var found := FilterByAmount(searched, f.minAmount, hi, f.amountColumn);
      assert forall t :: AmountIn(AmountOf(t, f.amountColumn), f.minAmount, hi) <==>
                         AmountIn(AmountOf(t, f.amountColumn), f.minAmount, Some(f.maxAmount));
      assert Has(searched, f.amountColumn) <==> Has(s, f.amountColumn) && (f.searchTerm != [] ==> Has(s, ReferenceCol));
      if Has(searched, f.amountColumn) {
        assert found.columns == s.columns && found.columns != [];
        assert forall t :: t in found.rows <==> t in s.rows && Selected(t, f);
        assert forall t :: multiset(found.rows)[t] == if Selected(t, f) then multiset(s.rows)[t] else 0;
        assert found.rows != [] ==> found.rows[0] in found.rows;
        if exists t :: t in s.rows && Selected(t, f) {
          var t :| t in s.rows && Selected(t, f);
          assert t in found.rows;
          assert !IsEmpty(found);
          assert FilterAnswer(s, f) == Found(found);
        }
      }
    }
  }

  /** Keeping rows cannot raise a sum of amounts that are not negative. */
  lemma {:induction false} ColumnSumKeep(rows: seq<Txn>, p: Txn -> bool, col: Canon)
    requires forall i :: 0 <= i < |rows| ==> AmountOf(rows[i], col) >= 0.0
    ensures 0.0 <= ColumnSum(Keep(rows, p), col) <= ColumnSum(rows, col)
    decreases |rows|
  {
    if rows != [] {
      var head := [rows[0]];
      ColumnSumKeep(rows[1..], p, col);
      assert rows == head + rows[1..];
      ColumnSumAppend(head, rows[1..], col);
      assert head[..0] == [];
      var kept := if p(rows[0]) then head else [];
      ColumnSumAppend(kept, Keep(rows[1..], p), col);
      if !p(rows[0]) {
        assert kept + Keep(rows[1..], p) == Keep(rows[1..], p);
      }
    }
  }

  /** The free-text answer: the hint exactly when the question has no
      "on" anywhere; otherwise the debits of exactly the rows whose
      reference holds the term of line 324, each counted as many times as
      the statement has it. */
  lemma SpendFacts(s: Store, q: string)
    ensures SpendAnswer(s, q) == SearchHint <==> !Contains(q, "on")
    ensures SpendAnswer(s, q).SpentOn? ==>
      var a := SpendAnswer(s, q);
      SpendTermAsWritten(q) == Some(a.term) && Needle(Lower(a.term)).Some? && Has(s, ReferenceCol) &&
      a.rows.columns == s.columns &&
      a.rows == SearchReference(s, a.term) &&
      (forall t :: t in a.rows.rows <==> t in s.rows && RefMatches(t.reference, Needle(Lower(a.term)).value)) &&
      (forall t :: multiset(a.rows.rows)[t] == if RefMatches(t.reference, Needle(Lower(a.term)).value) then multiset(s.rows)[t] else 0) &&
      a.spent == (if Has(s, DebitCol) then ColumnSum(a.rows.rows, DebitCol) else 0.0)
    ensures SpendAnswer(s, q).NothingContaining? ==>
      var term := SpendAnswer(s, q).term;
      SpendTermAsWritten(q) == Some(term) && Needle(Lower(term)).Some? &&
      (Has(s, ReferenceCol) ==> forall t :: t in s.rows ==> !RefMatches(t.reference, Needle(Lower(term)).value))
  {
    if SpendAnswer(s, q).NothingContaining? {
      var term := SpendAnswer(s, q).term;
      var found := SearchReference(s, term);
      if Has(s, ReferenceCol) {
        assert found.rows == [];
        forall t | t in s.rows ensures !RefMatches(t.reference, Needle(Lower(term)).value) {
          assert t !in found.rows;
        }
      }
    }
  }

  /** When no debit is negative, what a reference spent is between zero
      and the total spent. */
  lemma SpentBounded(s: Store, q: string)
    requires Has(s, DebitCol) && forall i :: 0 <= i < |s.rows| ==> AmountOf(s.rows[i], DebitCol) >= 0.0
    requires SpendAnswer(s, q).SpentOn?
    ensures 0.0 <= SpendAnswer(s, q).spent <= ColumnSum(s.rows, DebitCol)
  {
    var term := SpendTermAsWritten(q).value;
    var needle := Needle(Lower(term)).value;
    var found := SearchReference(s, term);
    assert Has(s, ReferenceCol);
    assert found == Where(s, MatchesRef(needle));
    ColumnSumKeep(s.rows, MatchesRef(needle), DebitCol);
  }

  /** A question ending in "on" searches for the empty term, which every
      present reference contains: the answer sums the debits of all rows
      with a reference, or finds nothing when no row has one. */
  lemma EndingOnSearchesAll(s: Store, p: string)
    ensures SpendTermAsWritten(p + "on") == Some("")
    ensures Has(s, ReferenceCol) ==>
      forall t :: t in SearchReference(s, "").rows <==> t in s.rows && t.reference.Some?
    ensures SpendAnswer(s, p + "on") ==
      var found := SearchReference(s, "");
      if !IsEmpty(found) then SpentOn("", if Has(found, DebitCol) then ColumnSum(found.rows, DebitCol) else 0.0, found)
      else NothingContaining("")
  {
    LastPieceEndingOn(p);
    assert Lower("") == "";
    forall c: string ensures Contains(c, "") {
      assert StartsWith(c, "");
    }
  }

  /** The last piece of `(p + "on").split("on")` is empty. */
  lemma {:induction false} LastPieceEndingOn(p: string)
    ensures LastPiece(p + "on", "on") == ""
    decreases |p|
  {
    var q := p + "on";
    assert q[|p|..|p| + 2] == "on";
    assert OccursAt(q, "on", |p|);
    ContainsAt(q, "on", |p|);
    var i := FindFirst(q, "on").value;
    assert OccursAt(q, "on", i);
    assert i <= |p|;
    LastPieceStep(q, "on", i);
    if i == |p| {
      assert q[i + 2..] == [];
      assert FindFirst([], "on").None?;
    } else {
      assert q[i..i + 2] == "on";
      assert q[i + 1] == q[i..i + 2][1] == 'n';
      assert q[|p|] == 'o';
      assert i + 2 <= |p|;
      assert q[i + 2..] == p[i + 2..] + "on";
      LastPieceEndingOn(p[i + 2..]);
    }
  }

  /** The intended answer: the hint exactly without " on ", and for a
      question ending in " on " and a word, the search for that word. */
  lemma IntendedAnswer(s: Store, p: string, item: string)
    requires forall k :: 0 <= k < |item| ==> !IsSpace(item[k])
    ensures forall q :: SpendAnswerIntended(s, q) == SearchHint <==> !Contains(q, " on ")
    ensures SpendAnswerIntended(s, p + " on " + item) == SearchSpend(s, item)
  {
    TermAfterOn(p, item);
  }

  // ---------------------------------------------------------------------
  // The term of a free-text question

  /** `q.split("on")` as written also splits inside words: when the term
      itself holds "on", the piece after the last "on" is shorter than the
      term, and the search looks for the wrong text. */
  lemma {:induction false} AsWrittenCutsTerm(p: string, item: string)
    requires Contains(item, "on") && forall k :: 0 <= k < |item| ==> !IsSpace(item[k])
    ensures SpendTermAsWritten(p + " on " + item) != Some(item)
  {
    var q := p + " on " + item;
    var j := FindFirst(item, "on").value;
    var m := |p| + 4 + j;
    assert q[m..m + 2] == item[j..j + 2];
    LastPieceAfter(q, "on", m);
  }

  /** The last piece of a split starts after every occurrence of the separator. */
  lemma {:induction false} LastPieceAfter(s: string, sep: string, m: nat)
    requires |sep| > 0 && OccursAt(s, sep, m)
    ensures |LastPiece(s, sep)| < |s| - m
  {
    SplitLast(s, sep);
    var last := LastPiece(s, sep);
    var start := |s| - |last|;
    assert m >= start ==> OccursAt(last, sep, m - start) by {
      if m >= start {
        assert last == s[start..];
        assert m + |sep| <= |s|;
        assert last[m - start..m - start + |sep|] == s[start..][m - start..m - start + |sep|];
      }
    }
  }

  /** The corrected term is what follows the last word "on": for a
      question ending in " on " and a word, that word. */
  lemma {:induction false} TermAfterOn(p: string, item: string)
    requires forall k :: 0 <= k < |item| ==> !IsSpace(item[k])
    ensures SpendTerm(p + " on " + item) == Some(item)
  {
    var q := p + " on " + item;
    assert q[|p|..|p| + 4] == " on ";
    ContainsAt(q, " on ", |p|);
    forall k: nat | k > |p| ensures !OccursAt(q, " on ", k) {
      if k + 4 <= |q| {
        assert q[k..k + 4][3] == q[k + 3] == item[k + 3 - |p| - 4];
      }
    }
    var k := FindLast(q, " on ").value;
    assert k == |p|;
    assert q[k + 4..] == item;
  }

  /** "spend on donuts": the code as written searches for something other
      than "donuts", the corrected term is "donuts". */
  lemma SpendOnDonuts(q: string)
    requires q == "spend on donuts"
    ensures SpendTermAsWritten(q) != Some("donuts")
    ensures SpendTerm(q) == Some("donuts")
  {
    var p, item := "spend", "donuts";
    assert p + " on " + item == q;
    assert item[1..3] == "on";
    ContainsAt(item, "on", 1);
    AsWrittenCutsTerm(p, item);
    TermAfterOn(p, item);
  }
}
