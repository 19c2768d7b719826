/**
 * The decisions of the bill screen (src/components/BillGenerator.tsx): which
 * tokens it lists, what selecting one loads into the form, when an action may
 * go ahead, which fields the analysis overwrites, and what Lock Report does to
 * the screen and to storage. The rendered page and the sharing are only as far
 * as they decide what is drawn; the store is untouched by them because they
 * are given none.
 */
module BillScreen {
  import opened Text
  import opened Types
  import opened Seqs
  import opened Words
  import opened Storage
  import opened TokenNumbering
  import Layout

  /** The three inputs of the analysis form, as typed. */
  datatype Draft = Draft(percentage: string, element: string, remarks: string)

  datatype BillState = BillState(today: seq<TokenData>, selected: Option<TokenData>, draft: Draft, masked: bool)

  /** The tokens listed when the screen opens: the in-progress records stamped today. */
  function TodayTokens(clock: Clock, now: int, temp: seq<TokenData>): (r: seq<TokenData>)
    ensures forall t :: t in r <==> t in temp && clock.dayKey(t.timestamp) == clock.dayKey(now)
    ensures forall t :: multiset(r)[t] == if clock.dayKey(t.timestamp) == clock.dayKey(now) then multiset(temp)[t] else 0
    ensures IsSubsequence(r, temp)
  {
    FilterIsSubsequence(temp, OnDay(clock, clock.dayKey(now)));
    FilterCounts(temp, OnDay(clock, clock.dayKey(now)));
    Filter(temp, OnDay(clock, clock.dayKey(now)))
  }

  /** The list shown is the part of the in-progress list the next token number counts. */
  lemma TodayTokensCounted(clock: Clock, now: int, store: Store)
    ensures SequenceNumber(clock, now, store.temp, store.full)
            == |TodayTokens(clock, now, store.temp)| + SameDayCount(clock, now, store.full) + 1
  {
  }

  /** The screen as it opens: today's in-progress tokens, nothing selected, an empty form, masking off. */
  function Open(clock: Clock, now: int, temp: seq<TokenData>): (st: BillState)
    ensures forall t :: t in st.today <==> t in temp && clock.dayKey(t.timestamp) == clock.dayKey(now)
    ensures forall t :: multiset(st.today)[t] == if clock.dayKey(t.timestamp) == clock.dayKey(now) then multiset(temp)[t] else 0
    ensures IsSubsequence(st.today, temp)
    ensures st.selected == None && st.draft == Draft("", "", "") && !st.masked
  {
    BillState(TodayTokens(clock, now, temp), None, Draft("", "", ""), false)
  }

  /** `handleTokenSelect`: the token's own analysis fields fill the form, `''` where absent. */
  function Select(st: BillState, tok: TokenData): (r: BillState)
    ensures r.selected == Some(tok) && r.today == st.today && r.masked == st.masked
    ensures r.draft.percentage != "" <==> Truthy(tok.percentage)
    ensures r.draft.element != "" <==> Truthy(tok.element)
    ensures r.draft.remarks != "" <==> Truthy(tok.remarks)
    ensures Truthy(tok.percentage) ==> r.draft.percentage == tok.percentage.value
    ensures Truthy(tok.element) ==> r.draft.element == tok.element.value
    ensures Truthy(tok.remarks) ==> r.draft.remarks == tok.remarks.value
  {
    st.(selected := Some(tok), draft := Draft(OrEmpty(tok.percentage), OrEmpty(tok.element), OrEmpty(tok.remarks)))
  }

  /** The two entries of the element drop-down. */
  datatype ElementChoice = Gold | Silver

  /** Choosing from the drop-down: the element becomes "gold" or "silver" and nothing else changes. */
  function SetElement(st: BillState, choice: ElementChoice): (r: BillState)
    ensures r.draft.element == "gold" || r.draft.element == "silver"
    ensures Lower(r.draft.element) == "gold" <==> choice == Gold
    ensures r.(draft := r.draft.(element := st.draft.element)) == st
  {
    var text := match choice case Gold => "gold" case Silver => "silver";
    assert Lower("silver")[0] == 's';
    st.(draft := st.draft.(element := text))
  }

  function SetPercentage(st: BillState, text: string): (r: BillState)
    ensures r.draft.percentage == text && r.(draft := r.draft.(percentage := st.draft.percentage)) == st
  {
    st.(draft := st.draft.(percentage := text))
  }

  function SetRemarks(st: BillState, text: string): (r: BillState)
    ensures r.draft.remarks == text && r.(draft := r.draft.(remarks := st.draft.remarks)) == st
  {
    st.(draft := st.draft.(remarks := text))
  }

  function SetMasked(st: BillState, masked: bool): (r: BillState)
    ensures r.masked == masked && r.(masked := st.masked) == st
  {
    st.(masked := masked)
  }

  /** The check shared by Preview, Share and Lock Report. */
  predicate Ready(st: BillState) {
    st.selected.Some? && st.draft.percentage != "" && st.draft.element != ""
  }

  /**
   * The record the three actions build: the selected token with the four
   * analysis fields taken from the form and the words computed from the
   * percentage as typed, and every other field as it was.
   */
  function Attach(st: BillState, numeric: Numeric): (r: Option<TokenData>)
    ensures r.Some? <==> Ready(st)
    ensures r.Some? ==> HasAnalysis(r.value)
    ensures r.Some? ==> r.value.(percentage := st.selected.value.percentage, element := st.selected.value.element,
                                 percentageInWords := st.selected.value.percentageInWords,
                                 remarks := st.selected.value.remarks) == st.selected.value
    ensures r.Some? ==> r.value.percentage == Some(st.draft.percentage) && r.value.element == Some(st.draft.element)
                        && r.value.remarks == Some(st.draft.remarks)
    ensures r.Some? ==> r.value.percentageInWords == Some(ConvertToWords(numeric.percentHundredths(st.draft.percentage)))
  {
    if !Ready(st) then None
    else
      var words := ConvertToWords(numeric.percentHundredths(st.draft.percentage));
      Some(st.selected.value.(percentage := Some(st.draft.percentage), element := Some(st.draft.element),
                              percentageInWords := Some(words), remarks := Some(st.draft.remarks)))
  }

  /** Preview: the page of the attached record, or nothing when the form is not ready. */
  function Preview(st: BillState, m: Layout.Metrics, numeric: Numeric, clock: Clock, now: int)
    : (r: Option<seq<Layout.DrawOp>>)
    ensures r.Some? <==> Ready(st)
  {
    match Attach(st, numeric)
    case None => None
    case Some(rec) => Some(Layout.Page(rec, Layout.BillReport, st.masked, m, numeric, clock, now))
  }

  /**
   * The preview prints the attached record's percentage in words, whether
   * masked or not: the record the page is drawn from is the one the form
   * builds, not the stored token.
   */
  lemma PreviewShowsWords(st: BillState, m: Layout.Metrics, numeric: Numeric, clock: Clock, now: int)
    requires Ready(st)
    ensures exists y :: Layout.Label(ConvertToWords(numeric.percentHundredths(st.draft.percentage)), 15.0, y)
                        in Preview(st, m, numeric, clock, now).value
  {
    var rec := Attach(st, numeric).value;
    var words := ConvertToWords(numeric.percentHundredths(st.draft.percentage));
    assert words != "" by { WordsNonEmpty(numeric.percentHundredths(st.draft.percentage)); }
    assert Preview(st, m, numeric, clock, now).value == Layout.Page(rec, Layout.BillReport, st.masked, m, numeric, clock, now);
    Layout.WordsInPage(rec, Layout.BillReport, st.masked, m, numeric, clock, now);
  }

  /**
   * A masked preview is the attached record's analysis block alone, starting
   * at 80, for printing on pre-printed stationery.
   */
  lemma PreviewMasked(st: BillState, m: Layout.Metrics, numeric: Numeric, clock: Clock, now: int)
    requires Ready(st) && st.masked
    ensures Preview(st, m, numeric, clock, now).value
            == Layout.Analysis(Attach(st, numeric).value, true, 80, m, numeric, clock, now).ops
  {
  }

  /** Share: the same page under the file name `Bill_<token number>_<date>.pdf`. */
  function Share(st: BillState, m: Layout.Metrics, numeric: Numeric, clock: Clock, now: int)
    : (r: Option<(string, seq<Layout.DrawOp>)>)
    ensures r.Some? <==> Ready(st)
    ensures r.Some? ==> Some(r.value.1) == Preview(st, m, numeric, clock, now)
    ensures r.Some? ==> r.value.0 == Layout.FileName(st.selected.value)
  {
    match Preview(st, m, numeric, clock, now)
    case None => None
    case Some(page) =>
      var rec := Attach(st, numeric).value;
      assert rec.tokenNumber == st.selected.value.tokenNumber && rec.date == st.selected.value.date;
      Some((Layout.FileName(rec), page))
  }

  /**
   * Lock Report: move the attached record to history; when the move returns,
   * drop its id from the list and clear the selection (the form keeps its
   * text). A move that throws leaves the screen as it was, though storage may
   * already have been partly written.
   */
  function LockReport(st: BillState, store: Store, numeric: Numeric, tempFails: bool, historyFails: bool,
                      fullFails: bool, retryFails: bool): (r: (BillState, Outcome))
    ensures !Ready(st) ==> r == (st, Ok(store))
    ensures Ready(st) ==> r.1 == MoveTokenToHistory(store, Attach(st, numeric).value, tempFails, historyFails,
                                                     fullFails, retryFails)
    ensures r.1.Threw? ==> r.0 == st
    ensures Ready(st) && r.1.Ok? ==>
      && r.0.selected.None? && r.0.draft == st.draft && r.0.masked == st.masked
      && IsSubsequence(r.0.today, st.today)
      && (forall t :: t in r.0.today <==> t in st.today && t.id != st.selected.value.id)
      && (forall t :: multiset(r.0.today)[t] == if t.id != st.selected.value.id then multiset(st.today)[t] else 0)
  {
    match Attach(st, numeric)
    case None => (st, Ok(store))
    case Some(rec) =>
      var out := MoveTokenToHistory(store, rec, tempFails, historyFails, fullFails, retryFails);
      if out.Threw? then (st, out)
      else
        FilterIsSubsequence(st.today, HasOtherId(rec.id));
        FilterCounts(st.today, HasOtherId(rec.id));
        (st.(today := Filter(st.today, HasOtherId(rec.id)), selected := None), out)
  }

  /**
   * A Lock Report whose writes all go through leaves the record, with its
   * analysis, at the end of the completed list and nowhere in the
   * in-progress list.
   */
  lemma LockReportCompletes(st: BillState, store: Store, numeric: Numeric)
    requires Ready(st)
    ensures var r := LockReport(st, store, numeric, false, false, false, false);
      && r.1.Ok?
      && Last(r.1.store.full) == Attach(st, numeric).value
      && HasAnalysis(Last(r.1.store.full))
      && (forall t :: t in r.1.store.temp ==> t.id != st.selected.value.id)
  {
  }
}
