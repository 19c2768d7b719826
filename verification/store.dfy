/**
 * The three local-storage lists and the operations of src/utils/tokenUtils.ts
 * that write them. Each list is held already parsed; a refused `setItem`
 * (quota exceeded) is a boolean supplied by the caller, and a refused write
 * leaves the stored list as it was. The operations are not transactions: a
 * throw can come after earlier writes have already landed, so a thrown
 * outcome carries the store as it was left.
 */
module Storage {
  import opened Types
  import opened Seqs

  /**
   * An entry of the `tokenHistory` list. The list is written from
   * `getHistoryData()`, which reads the full records, followed by one summary,
   * so it holds both shapes. Nothing reads it back.
   */
  datatype HistoryEntry = FullRecord(record: TokenData) | Summary(item: HistoryItem)

  /** `tempTokenData`, `fullTokenData` and `tokenHistory`. */
  datatype Store = Store(temp: seq<TokenData>, full: seq<TokenData>, tokenHistory: seq<HistoryEntry>)

  /** An operation either returns or throws, and leaves the store it leaves either way. */
  datatype Outcome = Ok(store: Store) | Threw(store: Store)

  /** `{ ...t, image: '' }`: the fallback copy written when the full record is refused. */
  function WithoutImage(t: TokenData): (r: TokenData)
    ensures r.image == Some("") && !Truthy(r.image)
    ensures r.(image := t.image) == t
  {
    t.(image := Some(""))
  }

  /** `token => token.id !== id`. */
  function HasOtherId(id: string): TokenData -> bool {
    (t: TokenData) => t.id != id
  }

  function Last<T>(s: seq<T>): T
    requires |s| > 0
  {
    s[|s| - 1]
  }

  /**
   * `saveTokenToTemp`: append the record to `tempTokenData`; if that write is
   * refused, append it without its image; if that is refused too, throw.
   */
  function SaveTokenToTemp(s: Store, tok: TokenData, firstFails: bool, retryFails: bool): (r: Outcome)
    ensures r.store.full == s.full && r.store.tokenHistory == s.tokenHistory
    ensures r.Ok? <==> !(firstFails && retryFails)
    ensures r.Ok? ==> |r.store.temp| == |s.temp| + 1 && r.store.temp[..|s.temp|] == s.temp
    ensures r.Ok? ==> Last(r.store.temp) == if firstFails then WithoutImage(tok) else tok
    ensures r.Threw? ==> r.store == s
  {
    if !firstFails then Ok(s.(temp := s.temp + [tok]))
    else if !retryFails then Ok(s.(temp := s.temp + [WithoutImage(tok)]))
    else Threw(s)
  }

  /**
   * The value both history writers store under `tokenHistory`: every full
   * record, then the six-field summary of the new one.
   */
  function HistoryList(full: seq<TokenData>, tok: TokenData): (h: seq<HistoryEntry>)
    ensures |h| == |full| + 1
    ensures forall i :: 0 <= i < |full| ==> h[i] == FullRecord(full[i])
    ensures h[|full|] == Summary(Summarize(tok))
  {
    Map(full, (t: TokenData) => FullRecord(t)) + [Summary(Summarize(tok))]
  }

  /**
   * `moveTokenToHistory`, three writes in this order: the temp list without
   * the record's id (no handler: a refusal throws), `tokenHistory` (no handler
   * either), and the full list with the record appended, retried once without
   * the image before throwing.
   */
  function MoveTokenToHistory(s: Store, tok: TokenData, tempFails: bool, historyFails: bool,
                              fullFails: bool, retryFails: bool): (r: Outcome)
    ensures r.Ok? <==> !tempFails && !historyFails && !(fullFails && retryFails)
    ensures tempFails ==> r == Threw(s)
    ensures !tempFails ==> r.store.temp == Filter(s.temp, HasOtherId(tok.id))
    ensures r.Ok? ==> r.store.full == s.full + [if fullFails then WithoutImage(tok) else tok]
    ensures !tempFails && historyFails ==> r.store.tokenHistory == s.tokenHistory
    ensures !tempFails && !historyFails ==> r.store.tokenHistory == HistoryList(s.full, tok)
    ensures r.Threw? ==> r.store.full == s.full
  {
    if tempFails then Threw(s)
    else
      var afterTemp := s.(temp := Filter(s.temp, HasOtherId(tok.id)));
      if historyFails then Threw(afterTemp)
      else
        var afterHistory := afterTemp.(tokenHistory := HistoryList(s.full, tok));
        if !fullFails then Ok(afterHistory.(full := s.full + [tok]))
        else if !retryFails then Ok(afterHistory.(full := s.full + [WithoutImage(tok)]))
        else Threw(afterHistory)
  }

  /**
   * Once the temp write has gone through, the temp list keeps every record
   * with another id, in order, and none with the moved id, whatever happens
   * to the later writes.
   */
  lemma MoveTempList(s: Store, tok: TokenData, tempFails: bool, historyFails: bool,
                     fullFails: bool, retryFails: bool)
    requires !tempFails
    ensures var r := MoveTokenToHistory(s, tok, tempFails, historyFails, fullFails, retryFails);
      && IsSubsequence(r.store.temp, s.temp)
      && (forall t :: t in r.store.temp <==> t in s.temp && t.id != tok.id)
  {
    FilterIsSubsequence(s.temp, HasOtherId(tok.id));
  }

  /**
   * The move is not atomic: if the history write or both full-list writes are
   * refused, the operation throws after the record has already left the temp
   * list, and the full list has not gained it. A record that was in neither
   * list under another copy is then lost from both. When only the full-list
   * writes are refused, `tokenHistory` has already been rewritten and keeps a
   * summary of the record that neither list holds any more.
   */
  lemma MoveCanLoseRecord(s: Store, tok: TokenData, historyFails: bool, fullFails: bool, retryFails: bool)
    requires historyFails || (fullFails && retryFails)
    ensures var r := MoveTokenToHistory(s, tok, false, historyFails, fullFails, retryFails);
      && r.Threw?
      && (forall t :: t in r.store.temp ==> t.id != tok.id)
      && r.store.full == s.full
      && (historyFails ==> r.store.tokenHistory == s.tokenHistory)
      && (!historyFails ==> r.store.tokenHistory == HistoryList(s.full, tok)
                            && Last(r.store.tokenHistory) == Summary(Summarize(tok)))
  {
  }

  /** A move that succeeds puts the record at the end of the full list, image stripped at most. */
  lemma MoveDelivers(s: Store, tok: TokenData, fullFails: bool, retryFails: bool)
    requires !(fullFails && retryFails)
    ensures var r := MoveTokenToHistory(s, tok, false, false, fullFails, retryFails);
      && r.Ok?
      && Last(r.store.full).(image := tok.image) == tok
      && r.store.full[..|s.full|] == s.full
  {
    var r := MoveTokenToHistory(s, tok, false, false, fullFails, retryFails);
    assert r.store.full[..|s.full|] == s.full;
  }

  /**
   * `saveToHistory`: the `tokenHistory` write, then the full-list append, with
   * no handler around either.
   */
  function SaveToHistory(s: Store, tok: TokenData, historyFails: bool, fullFails: bool): (r: Outcome)
    ensures r.Ok? <==> !historyFails && !fullFails
    ensures r.store.temp == s.temp
    ensures historyFails ==> r == Threw(s)
    ensures !historyFails ==> r.store.tokenHistory == HistoryList(s.full, tok)
    ensures r.Ok? ==> r.store.full == s.full + [tok]
    ensures r.Threw? ==> r.store.full == s.full
  {
    if historyFails then Threw(s)
    else
      var afterHistory := s.(tokenHistory := HistoryList(s.full, tok));
      if fullFails then Threw(afterHistory) else Ok(afterHistory.(full := s.full + [tok]))
  }

  /** `tokens.map(token => token.id === u.id ? u : token)`. */
  function ReplaceById(s: seq<TokenData>, u: TokenData): (r: seq<TokenData>)
    ensures |r| == |s|
    ensures forall i :: 0 <= i < |s| ==> r[i] == if s[i].id == u.id then u else s[i]
  {
    Map(s, (t: TokenData) => if t.id == u.id then u else t)
  }

  /** Replacing by an id no record carries changes nothing. */
  lemma ReplaceAbsentId(s: seq<TokenData>, u: TokenData)
    requires forall t :: t in s ==> t.id != u.id
    ensures ReplaceById(s, u) == s
  {
  }

  /** The list of ids is unchanged by a replacement. */
  lemma ReplaceKeepsIds(s: seq<TokenData>, u: TokenData)
    ensures forall i :: 0 <= i < |s| ==> ReplaceById(s, u)[i].id == s[i].id
  {
  }

  /** Replacing twice with the same record is replacing once. */
  lemma ReplaceIdempotent(s: seq<TokenData>, u: TokenData)
    ensures ReplaceById(ReplaceById(s, u), u) == ReplaceById(s, u)
  {
  }

  /** `updateTokenData`: one write of the full list with the matching records replaced. */
  function UpdateTokenData(s: Store, u: TokenData, writeFails: bool): (r: Outcome)
    ensures r.Ok? <==> !writeFails
    ensures r.store.temp == s.temp && r.store.tokenHistory == s.tokenHistory
    ensures r.Ok? ==> r.store.full == ReplaceById(s.full, u)
    ensures r.Threw? ==> r.store == s
  {
    if writeFails then Threw(s) else Ok(s.(full := ReplaceById(s.full, u)))
  }

  /** `tokens.filter(token => token.id !== id)`. */
  function DeleteById(s: seq<TokenData>, id: string): (r: seq<TokenData>)
    ensures forall t :: t in r <==> t in s && t.id != id
    ensures forall t :: multiset(r)[t] == if t.id != id then multiset(s)[t] else 0
  {
    FilterCounts(s, HasOtherId(id));
    Filter(s, HasOtherId(id))
  }

  /** Deletion keeps the surviving records in their stored order. */
  lemma DeleteKeepsOrder(s: seq<TokenData>, id: string)
    ensures IsSubsequence(DeleteById(s, id), s)
  {
    FilterIsSubsequence(s, HasOtherId(id));
  }

  /** Deleting the same id twice is deleting it once. */
  lemma DeleteIdempotent(s: seq<TokenData>, id: string)
    ensures DeleteById(DeleteById(s, id), id) == DeleteById(s, id)
  {
    FilterIdempotent(s, HasOtherId(id));
  }

  /** Deleting an id no record carries changes nothing. */
  lemma DeleteAbsentId(s: seq<TokenData>, id: string)
    requires forall i :: 0 <= i < |s| ==> s[i].id != id
    ensures DeleteById(s, id) == s
  {
    FilterKeepsAll(s, HasOtherId(id));
  }

  /** `deleteTokenData`: one write of the full list without the matching records. */
  function DeleteTokenData(s: Store, id: string, writeFails: bool): (r: Outcome)
    ensures r.Ok? <==> !writeFails
    ensures r.store.temp == s.temp && r.store.tokenHistory == s.tokenHistory
    ensures r.Ok? ==> r.store.full == DeleteById(s.full, id)
    ensures r.Threw? ==> r.store == s
  {
    if writeFails then Threw(s) else Ok(s.(full := DeleteById(s.full, id)))
  }
}
