/**
 * The decisions of the history screen (src/components/HistoryView.tsx): which
 * stored records it shows and in which order, which of them a search keeps,
 * what deleting one does, and what it exports.
 */
module HistoryScreen {
  import opened Text
  import opened Types
  import opened Seqs
  import opened Storage
  import Csv

  function Timestamp(t: TokenData): int {
    t.timestamp
  }

  /** The completed reports: full records whose percentage and element are both non-empty. */
  function Completed(full: seq<TokenData>): (r: seq<TokenData>)
    ensures forall t :: t in r <==> t in full && HasAnalysis(t)
    ensures forall t :: multiset(r)[t] == if HasAnalysis(t) then multiset(full)[t] else 0
    ensures IsSubsequence(r, full)
  {
    FilterIsSubsequence(full, HasAnalysis);
    FilterCounts(full, HasAnalysis);
    Filter(full, HasAnalysis)
  }

  /** The list the screen holds: the completed reports, newest first. */
  function Displayed(full: seq<TokenData>): (r: seq<TokenData>)
    ensures multiset(r) == multiset(Completed(full))
    ensures forall t :: t in r <==> t in full && HasAnalysis(t)
    ensures SortedDesc(r, Timestamp)
  {
    var r := SortDesc(Completed(full), Timestamp);
    assert forall t :: t in r <==> t in multiset(r);
    r
  }

  /** The search box: the term, lower-cased, occurs in the lower-cased name, token number or description. */
  predicate Matches(item: TokenData, term: string)
    ensures term == "" ==> Matches(item, term)
    ensures Matches(item, term) ==>
      |term| <= |item.customerName| || |term| <= |item.tokenNumber| || |term| <= |item.itemDescription|
  {
    IncludesEmpty(Lower(item.customerName));
    IncludesShorter(Lower(item.customerName), Lower(term));
    IncludesShorter(Lower(item.tokenNumber), Lower(term));
    IncludesShorter(Lower(item.itemDescription), Lower(term));
    Includes(Lower(item.customerName), Lower(term))
      || Includes(Lower(item.tokenNumber), Lower(term))
      || Includes(Lower(item.itemDescription), Lower(term))
  }

  /** The search predicate agrees with "some window of one of the three texts is the term". */
  lemma MatchesIffOccurs(item: TokenData, term: string)
    ensures Matches(item, term) <==>
      (exists i :: WindowAt(Lower(item.customerName), Lower(term), i))
      || (exists i :: WindowAt(Lower(item.tokenNumber), Lower(term), i))
      || (exists i :: WindowAt(Lower(item.itemDescription), Lower(term), i))
  {
    IncludesIffWindow(Lower(item.customerName), Lower(term));
    IncludesIffWindow(Lower(item.tokenNumber), Lower(term));
    IncludesIffWindow(Lower(item.itemDescription), Lower(term));
  }

  /** `filteredHistory`: the shown records that match, in the order shown. */
  function Search(history: seq<TokenData>, term: string): (r: seq<TokenData>)
    ensures forall t :: t in r <==> t in history && Matches(t, term)
    ensures forall t :: multiset(r)[t] == if Matches(t, term) then multiset(history)[t] else 0
    ensures IsSubsequence(r, history)
  {
    var p := (t: TokenData) => Matches(t, term);
    FilterIsSubsequence(history, p);
    FilterCounts(history, p);
    Filter(history, p)
  }

  /** An empty search box shows everything. */
  lemma EmptySearchKeepsAll(history: seq<TokenData>)
    ensures Search(history, "") == history
  {
    forall i | 0 <= i < |history| ensures Matches(history[i], "") {
      IncludesEmpty(Lower(history[i].customerName));
    }
    FilterKeepsAll(history, (t: TokenData) => Matches(t, ""));
  }

  /** The screen's list and the search term typed. */
  datatype HistoryState = HistoryState(history: seq<TokenData>, term: string)

  /** The screen as it opens: the completed reports newest first, and an empty search box. */
  function Mount(full: seq<TokenData>): (st: HistoryState)
    ensures st.term == ""
    ensures forall t :: t in st.history <==> t in full && HasAnalysis(t)
    ensures forall t :: multiset(st.history)[t] == if HasAnalysis(t) then multiset(full)[t] else 0
    ensures SortedDesc(st.history, Timestamp)
    ensures Search(st.history, st.term) == st.history
  {
    EmptySearchKeepsAll(Displayed(full));
    HistoryState(Displayed(full), "")
  }

  /**
   * `handleDelete`: delete the id from the full list, then re-read it and
   * derive the list with the same filter and order. A refused write is
   * reported and changes nothing.
   */
  function Delete(st: HistoryState, store: Store, id: string, writeFails: bool): (r: (HistoryState, Outcome))
    ensures r.1 == DeleteTokenData(store, id, writeFails)
    ensures r.1.Threw? ==> r.0 == st
    ensures r.1.Ok? ==> r.0 == st.(history := Displayed(r.1.store.full))
    ensures r.1.Ok? ==> forall t :: t in r.0.history ==> t.id != id
  {
    var out := DeleteTokenData(store, id, writeFails);
    if out.Threw? then (st, out) else (st.(history := Displayed(out.store.full)), out)
  }

  /**
   * After a delete the list holds exactly the completed reports that were
   * stored under other ids.
   */
  lemma DeleteShowsTheRest(st: HistoryState, store: Store, id: string)
    ensures var r := Delete(st, store, id, false);
      forall t :: t in r.0.history <==> t in store.full && HasAnalysis(t) && t.id != id
  {
  }

  /**
   * Export writes the whole list the screen holds: a header line, then a line
   * per completed report, plus one for every newline inside their texts.
   */
  function Export(st: HistoryState, numeric: Numeric): (text: string)
    ensures |Split(text, '\n')| == |st.history| + 1 + Csv.NewlinesIn(st.history)
  {
    Csv.CsvLines(st.history, numeric);
    Csv.CsvText(st.history, numeric)
  }

  /** What is exported does not depend on the search box. */
  lemma ExportIgnoresSearch(st: HistoryState, term: string, numeric: Numeric)
    ensures Export(st.(term := term), numeric) == Export(st, numeric)
  {
  }
}
