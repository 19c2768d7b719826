/**
 * The three screens together over one store: a token is saved from the token
 * screen, listed on the bill screen the same day, locked there with its
 * analysis, and shown on the history screen. The invariant below is what the
 * screens keep between them: the in-progress list holds only records without
 * analysis, and the completed list only records with it.
 */
module Workflow {
  import opened Types
  import opened Seqs
  import opened Storage
  import TokenScreen
  import BillScreen
  import HistoryScreen

  /** Every in-progress record is fresh; every completed record carries a percentage and an element. */
  predicate Inv(s: Store) {
    (forall i :: 0 <= i < |s.temp| ==> IsFreshToken(s.temp[i]))
    && (forall i :: 0 <= i < |s.full| ==> HasAnalysis(s.full[i]))
  }

  /** The store the app starts from: three absent keys read as empty lists. */
  lemma EmptyStoreInv()
    ensures Inv(Store([], [], []))
  {
  }

  /** Saving a token keeps the invariant, whichever writes are refused. */
  lemma SaveTokenKeepsInv(st: TokenScreen.TokenState, s: Store, id: string, clock: Clock, now: int,
                          camera: TokenScreen.Camera, firstFails: bool, retryFails: bool)
    requires Inv(s)
    ensures Inv(TokenScreen.SaveToken(st, s, id, clock, now, camera, firstFails, retryFails).1.store)
  {
    var r := TokenScreen.SaveToken(st, s, id, clock, now, camera, firstFails, retryFails).1.store;
    if TokenScreen.Complete(st.form) && !(firstFails && retryFails) {
      forall i | 0 <= i < |r.temp| ensures IsFreshToken(r.temp[i]) {
        if i < |s.temp| {
          assert r.temp[i] == r.temp[..|s.temp|][i];
        }
      }
    }
  }

  /**
   * Locking a report keeps the invariant, whichever writes are refused: the
   * in-progress list only loses records, and the completed list only gains
   * the record with its analysis attached.
   */
  lemma LockReportKeepsInv(st: BillScreen.BillState, s: Store, numeric: Numeric, tempFails: bool,
                           historyFails: bool, fullFails: bool, retryFails: bool)
    requires Inv(s)
    ensures Inv(BillScreen.LockReport(st, s, numeric, tempFails, historyFails, fullFails, retryFails).1.store)
  {
    if BillScreen.Ready(st) {
      MoveKeepsInv(s, BillScreen.Attach(st, numeric).value, tempFails, historyFails, fullFails, retryFails);
    }
  }

  /** Moving a record with its analysis attached keeps the invariant. */
  lemma MoveKeepsInv(s: Store, tok: TokenData, tempFails: bool, historyFails: bool, fullFails: bool,
                     retryFails: bool)
    requires Inv(s) && HasAnalysis(tok)
    ensures Inv(MoveTokenToHistory(s, tok, tempFails, historyFails, fullFails, retryFails).store)
  {
    var r := MoveTokenToHistory(s, tok, tempFails, historyFails, fullFails, retryFails).store;
    if !tempFails {
      MoveTempList(s, tok, tempFails, historyFails, fullFails, retryFails);
      forall i | 0 <= i < |r.temp| ensures IsFreshToken(r.temp[i]) {
        assert r.temp[i] in s.temp;
      }
    }
  }

  /** Deleting from the history screen keeps the invariant. */
  lemma DeleteKeepsInv(st: HistoryScreen.HistoryState, s: Store, id: string, writeFails: bool)
    requires Inv(s)
    ensures Inv(HistoryScreen.Delete(st, s, id, writeFails).1.store)
  {
    var r := HistoryScreen.Delete(st, s, id, writeFails).1.store;
    forall i | 0 <= i < |r.full| ensures HasAnalysis(r.full[i]) {
      assert r.full[i] in s.full;
    }
  }

  /**
   * Under the invariant the history screen shows every completed record: the
   * completed-analysis filter drops nothing.
   */
  lemma HistoryShowsAll(s: Store)
    requires Inv(s)
    ensures forall t :: t in HistoryScreen.Displayed(s.full) <==> t in s.full
    ensures |HistoryScreen.Displayed(s.full)| == |s.full|
  {
    FilterKeepsAll(s.full, HasAnalysis);
    var d := HistoryScreen.Displayed(s.full);
    assert |multiset(d)| == |multiset(HistoryScreen.Completed(s.full))|;
  }

  /** A token saved now is listed when the bill screen is opened the same day. */
  lemma SavedTokenListed(st: TokenScreen.TokenState, s: Store, id: string, clock: Clock, now: int,
                         camera: TokenScreen.Camera, later: int)
    requires TokenScreen.Complete(st.form)
    requires clock.dayKey(later) == clock.dayKey(now)
    ensures var r := TokenScreen.SaveToken(st, s, id, clock, now, camera, false, false).1.store;
      Last(r.temp) in BillScreen.Open(clock, later, r.temp).today
  {
    TokenScreen.SavedRecord(st, s, id, clock, now, camera, false, false);
  }

  /**
   * A report locked with every write going through shows up on the history
   * screen, with its analysis; if the full list was refused once, it shows up
   * without its image.
   */
  lemma LockedReportDisplayed(st: BillScreen.BillState, s: Store, numeric: Numeric, fullFails: bool)
    requires BillScreen.Ready(st)
    ensures var r := BillScreen.LockReport(st, s, numeric, false, false, fullFails, false).1;
      var tok := BillScreen.Attach(st, numeric).value;
      && r.Ok?
      && (if fullFails then WithoutImage(tok) else tok) in HistoryScreen.Displayed(r.store.full)
  {
    var r := BillScreen.LockReport(st, s, numeric, false, false, fullFails, false).1;
    var tok := BillScreen.Attach(st, numeric).value;
    assert Last(r.store.full) in r.store.full;
  }
}
