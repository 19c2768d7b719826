# XRF token shop: a Dafny model

This project models the logic of a single-device shop app. The app issues
intake tokens for items brought in for XRF (X-ray fluorescence) testing, and
turns them into gold/silver test certificates. The model covers these parts:

- **Token numbering.** A number is `DDMM` plus a daily sequence. The sequence
  counts the records stamped the same day in the in-progress list and in the
  completed list.
- **Percentage in words.** `convertToWords` reads a two-decimal percentage
  digit by digit, for example "NINE ONE / SIX ZERO".
- **The three local-storage lists.** These are `tempTokenData` (tokens waiting
  for analysis), `fullTokenData` (completed reports) and `tokenHistory`.
  Writing a list can be refused, so each write has a failure flag. The app's
  operations on the lists are append with an image-stripping retry, the
  non-atomic move from in-progress to completed, replace-by-id and
  delete-by-id.
- **The CSV export text**: a fixed header and one line per record.
- **The certificate page** (`generatePDF`), modelled as the list of drawing
  operations it issues, each with its vertical cursor position.
- **The decisions of the three screens:**
  - token intake: validation, building the record, shrinking the photograph,
    save-then-reset;
  - bill generation: today's list, selection, attaching the analysis, Lock
    Report;
  - history: the completed filter, newest-first order, search, delete,
    export.
- **An invariant the screens keep between them**: in-progress records carry
  no analysis, and completed records always do.

Everything the app gets from the browser is a parameter. These are the
calendar (`Clock`), number parsing and `toFixed` rounding (`Numeric`), text
measurement and wrapping (`Layout.Metrics`), image decoding and re-encoding
(`TokenScreen.Camera`), and `Date.now()` ids. A refused `localStorage.setItem`
is a boolean the caller chooses. Every operation returns `Ok` or `Threw`, and
both carry the store as the operation left it.

Points where the code does something other than what it appears to intend:

- `getHistoryData` reads `fullTokenData` (src/utils/tokenUtils.ts:349-357).
  So both writers of `tokenHistory` overwrite it with every full record
  followed by one six-field summary. The model keeps this, in `HistoryEntry`
  and `Storage.HistoryList`.
- The move is three separate writes. Once the first one lands, a later refusal
  can lose the record from both lists (`Storage.MoveCanLoseRecord`).
- The CSV quotes the name and description without doubling embedded quotes,
  against rule 7 of section 2 of RFC 4180. An RFC 4180 reader gets such a
  field back exactly when it contains no double quote (`Csv.QuotedReadsBack`).
- `convertToWords` of a negative value starts with a space: the minus sign
  maps to an empty word (`Words.NegativeHasNamelessSign`).
- The photograph sits at a fixed place on the certificate, whatever the
  cursor. The wrapped item description can run into it
  (`Layout.PictureBesideDescription`).

## Model

| member | source | states |
|---|---|---|
| Types.OrEmpty | src/utils/tokenUtils.ts:391-396 | `x \|\| ''` is empty exactly when the field is absent or empty, and is otherwise the field's own text |
| Types.Summarize | src/utils/tokenUtils.ts:315-322 | the history summary copies token number, name, description, date, time and timestamp, and leaves the phone absent |
| Types.SummaryIgnoresOtherFields | src/types/token.ts:19-27 | the summary depends on nothing but those six fields: no id, weight, image or analysis reaches it |
| Types.ToFixed | src/utils/tokenUtils.ts:37 | `toFixed` gives "NaN" exactly for NaN; a number's text is longer than the decimals, starts with '-' exactly when negative, and has the point before the last `places` digits |
| Types.ToFixedInjective | src/utils/tokenUtils.ts:37 | distinct non-negative values have distinct `toFixed` texts |
| Types.ToFixedAlphabet | src/utils/tokenUtils.ts:392 | `toFixed` writes only digits, the point, the minus sign and the letters of "NaN" |
| Text.PadZerosValue | src/utils/tokenUtils.ts:30 | `padStart` with zeros keeps a digit string's value and digits-only shape |
| Text.SplitJoin | src/utils/tokenUtils.ts:56 | splitting a join at its separator gives back the pieces when no piece contains the separator |
| Text.IncludesIffWindow | src/components/HistoryView.tsx:34-36 | `includes` holds exactly when some window of the text equals the term |
| TokenNumbering.GenerateTokenNumber | src/utils/tokenUtils.ts:9-33 | a token number is all digits and at least seven characters long |
| TokenNumbering.TokenNumberFields | src/utils/tokenUtils.ts:9-33 | the number reads back as day, month (1-12 shift of `getMonth`) and one plus the same-day count; the sequence part is never truncated, and the number is seven characters exactly when the sequence is below 1000 |
| TokenNumbering.PaddedWidth | src/utils/tokenUtils.ts:30 | a number padded to a width has exactly that width iff it is below 10^width |
| TokenNumbering.OtherDayIgnored | src/utils/tokenUtils.ts:19-27 | adding a record stamped on another day, to either list and at any position, leaves the number unchanged |
| TokenNumbering.SameDayCounted | src/utils/tokenUtils.ts:19-30 | adding a record stamped the same day, to either list, raises the sequence by exactly one |
| TokenNumbering.FifthOfMarchExample | src/utils/tokenUtils.ts:10-32 | 5 March with four same-day records gives "0503005" |
| Words.ConvertToWords | src/utils/tokenUtils.ts:35-59 | NaN reads as two spaces (its letters have no names); a number's words end with " / " and the names of its two decimal digits |
| Words.WordsNonEmpty | src/utils/tokenUtils.ts:35-59 | the words are never empty, so a report always gets its words line |
| Words.DigitWordInverse | src/utils/tokenUtils.ts:41-54 | each digit's name is non-empty, has no space, is not "/", and reads back as that digit |
| Words.WordsShape | src/utils/tokenUtils.ts:35-59 | for a non-negative value the words, split at spaces, are the names of the integer digits, "/", and the names of exactly two fraction digits; those digits recompose the value |
| Words.WordsRoundTrip | src/utils/tokenUtils.ts:35-59 | decoding the words of a non-negative value gives back its two-decimal text |
| Words.WordsInjective | src/utils/tokenUtils.ts:35-59 | distinct non-negative percentages are never read out the same way |
| Words.NinetyOnePointSixExample | src/utils/tokenUtils.ts:35-59 | 91.6 is read "NINE ONE / SIX ZERO" |
| Words.NegativeHasNamelessSign | src/utils/tokenUtils.ts:37-56 | the words of a negative value start with a space, because `-` has no name |
| Storage.WithoutImage | src/utils/tokenUtils.ts:284 | the fallback copy has an empty image and agrees with the record in every other field |
| Storage.SaveTokenToTemp | src/utils/tokenUtils.ts:275-294 | appends exactly one record at the end and keeps the prefix: the record itself, or its image-less copy if the first write was refused; throws only if both writes are refused, and then changes nothing |
| Storage.HistoryList | src/utils/tokenUtils.ts:324-326 | `tokenHistory` is written as every full record followed by the new record's summary |
| Storage.MoveTokenToHistory | src/utils/tokenUtils.ts:308-347 | succeeds iff the temp and history writes and one of the two full-list writes go through; once the temp write lands, temp is filtered whatever follows; once the temp write lands, the history list is left alone if its write is refused and otherwise becomes the old full list plus the record's summary, even if a full-list write then throws; on success the full list gains the record (image-less after one refusal) at the end; a throw never changes the full list |
| Storage.MoveTempList | src/utils/tokenUtils.ts:310-312 | after the temp write, temp holds exactly the records with another id, in their order |
| Storage.MoveCanLoseRecord | src/utils/tokenUtils.ts:308-347 | a refused history write or two refused full-list writes throw after the record has left temp and without adding it to the full list; in the second case the history list already ends with the record's summary, so it lists a record neither the temp nor the full list holds |
| Storage.MoveDelivers | src/utils/tokenUtils.ts:329-346 | a move whose full-list writes do not both fail keeps the old full list as prefix and ends it with the record, at most without its image |
| Storage.SaveToHistory | src/utils/tokenUtils.ts:253-272 | writes `tokenHistory` and then appends to the full list, with no retry; temp is untouched and a throw leaves the full list as it was |
| Storage.ReplaceById | src/utils/tokenUtils.ts:371-373 | replacement keeps the length and puts the new record exactly where the id matches |
| Storage.ReplaceAbsentId | src/utils/tokenUtils.ts:371-373 | replacing an id no record carries changes nothing |
| Storage.ReplaceKeepsIds | src/utils/tokenUtils.ts:371-373 | the sequence of ids is unchanged |
| Storage.ReplaceIdempotent | src/utils/tokenUtils.ts:371-373 | replacing twice is replacing once |
| Storage.UpdateTokenData | src/utils/tokenUtils.ts:369-375 | one write: on success only the full list changes, by replacement; a refusal changes nothing |
| Storage.DeleteById | src/utils/tokenUtils.ts:379 | the survivors are exactly the records with another id, in order, each with as many copies as before; no copy with the id remains |
| Storage.DeleteKeepsOrder | src/utils/tokenUtils.ts:379 | the survivors keep their stored order |
| Storage.DeleteIdempotent | src/utils/tokenUtils.ts:379 | deleting an id twice is deleting it once |
| Storage.DeleteAbsentId | src/utils/tokenUtils.ts:379 | deleting an id no record carries changes nothing |
| Storage.DeleteTokenData | src/utils/tokenUtils.ts:377-381 | one write: on success only the full list changes, by deletion; a refusal changes nothing |
| Csv.CsvText | src/utils/tokenUtils.ts:383-397 | the text starts with the header line, is only the header exactly when there are no records, and otherwise continues with a newline |
| Csv.HeaderColumns | src/utils/tokenUtils.ts:384-386 | the header splits into the nine column names, and it has no newline |
| Csv.WeightFieldPlain | src/utils/tokenUtils.ts:392 | the weight field never holds a comma, newline or double quote |
| Csv.RowPieces | src/utils/tokenUtils.ts:387-397 | a record's line splits at commas into nine pieces plus one per comma in its texts |
| Csv.RowFieldOrder | src/utils/tokenUtils.ts:387-397 | without commas in the texts, the line reads back as token number, quoted name, quoted description, phone or '', weight, date, time, percentage or '', element or '' |
| Csv.CsvLines | src/utils/tokenUtils.ts:385-398 | the text splits at newlines into the header, one line per record, plus one per newline inside a record's texts |
| Csv.CsvLineOrder | src/utils/tokenUtils.ts:385-398 | without embedded newlines the lines are the header and then the records' lines in order |
| Csv.QuotedReadsBack | src/utils/tokenUtils.ts:389-390 | an RFC 4180 reader recovers a quoted field exactly when it holds no double quote |
| Layout.Letterhead | src/utils/tokenUtils.ts:68-104 | the border, band, logo and titles are drawn iff the print is unmasked, all between y 5 and 35 in drawing order |
| Layout.Field | src/utils/tokenUtils.ts:124-131 | both parts of a caption/value line are drawn at the cursor's height, the value at x 80, and the cursor moves down 9 |
| Layout.Details | src/utils/tokenUtils.ts:106-152 | masked: nothing is drawn and the cursor is 80; unmasked: the cursor ends at 85 + 6 per description line, and everything drawn lies in order between 35 and it |
| Layout.DetailsContent | src/utils/tokenUtils.ts:109-147 | an unmasked print draws exactly these ten items, in order: "DATE: " and "TIME: " with the clock's texts at (160, 35) and (160, 43); the captions "TOKEN NUMBER:", "CUSTOMER NAME:" and "ITEM WEIGHT (GRMS):" at x 15, each with its value at x 80 (the token number, the customer name, and the weight to three decimals followed by " g"), on lines 51, 60 and 69; and "ITEM DESCRIPTION:" at (15, 78) with the wrapped description at (80, 78) |
| Layout.Stamp | src/utils/tokenUtils.ts:156-168 | unmasked: nothing is drawn and the cursor stays put; masked: the date and time, separated by a space, are drawn alone at (15, y + 2) and the cursor moves down 8 |
| Layout.Statement | src/utils/tokenUtils.ts:170-183 | the result sentence is two text operations at the cursor's height, the lead-in at x 15; the second prints " <toFixed(2) of the parsed percentage>% of PURE <upper-cased element>."; the cursor moves 9 |
| Layout.Analysis | src/utils/tokenUtils.ts:155-211 | the block draws something iff percentage and element are both non-empty, never moves the cursor up, and leaves it in place when absent |
| Layout.AnalysisFlows | src/utils/tokenUtils.ts:155-211 | the analysis block draws only between its start and the cursor it leaves, top to bottom |
| Layout.AnalysisLines | src/utils/tokenUtils.ts:155-211 | the block is drawn iff percentage and element are both non-empty; the cursor moves by 8 (masked only) + 16, + 9 iff gold, + 16 iff words present, + 7 + 6 per remark line iff remarks present; the operation count follows the same cases |
| Layout.GoldHasKarat | src/utils/tokenUtils.ts:185-191 | with an analysis for gold, the KARAT line is on the page |
| Layout.WordsInPage | src/utils/tokenUtils.ts:193-199 | a record with an analysis and a percentage in words has those words at x 15 on its page, masked or not |
| Layout.PageWithoutAnalysis | src/utils/tokenUtils.ts:155 | a record without analysis is drawn as letterhead, details and photograph only |
| Layout.Page | src/utils/tokenUtils.ts:62-238 | a masked page is the analysis block from y 80 alone; an unmasked one starts with the seven letterhead operations and, with an image, ends with the photograph |
| Layout.PageOrdered | src/utils/tokenUtils.ts:62-211 | everything before the photograph is drawn top to bottom |
| Layout.KindIgnored | src/utils/tokenUtils.ts:62 | the `type` argument has no effect on the page |
| Layout.MaskedShowsOnlyAnalysis | src/utils/tokenUtils.ts:68-211 | two records with the same analysis fields give the same masked page, so no customer, item, weight, token number or photograph reaches it |
| Layout.MaskedIsTextOnly | src/utils/tokenUtils.ts:68-238 | a masked page draws text only: no border, band, logo, frame or photograph |
| Layout.Picture | src/utils/tokenUtils.ts:214-234 | the photograph is drawn iff the record has an image and the print is unmasked, as two operations |
| Layout.PicturePlacement | src/utils/tokenUtils.ts:227-234 | the unfilled frame comes first, then the photograph; both are 40 x 40 at the fixed point (155, 48), inside the border |
| Layout.PictureBesideDescription | src/utils/tokenUtils.ts:146-147 | the wrapped description starts level with the photograph's frame and may reach into it |
| Layout.FileName | src/utils/tokenUtils.ts:245 | the saved file name is "Bill_", the token number, "_", the date with its slashes removed, and ".pdf" |
| Layout.RemoveChar | src/utils/tokenUtils.ts:245 | removing a character removes every occurrence of it and keeps every other character, in order |
| BillScreen.Open | src/components/BillGenerator.tsx:31-54 | the screen opens listing exactly today's in-progress records, in stored order and with every copy, with nothing selected, an empty form and masking off |
| BillScreen.TodayTokens | src/components/BillGenerator.tsx:45-54 | the list shown is exactly the in-progress records stamped today, in stored order, each as many times as it is stored |
| BillScreen.TodayTokensCounted | src/components/BillGenerator.tsx:45-53 | the next token number counts exactly the list shown plus today's completed records |
| BillScreen.Select | src/components/BillGenerator.tsx:56-63 | selecting loads percentage, element and remarks into the form, '' where absent or empty, and keeps the list |
| BillScreen.SetElement | src/components/BillGenerator.tsx:179-189 | the element can only become "gold" or "silver", and nothing else changes |
| BillScreen.SetPercentage | src/components/BillGenerator.tsx:65-70 | typing a percentage changes that input and nothing else |
| BillScreen.SetRemarks | src/components/BillGenerator.tsx:65-70 | typing remarks changes that input and nothing else |
| BillScreen.SetMasked | src/components/BillGenerator.tsx:210-211 | the masked checkbox changes that flag and nothing else |
| BillScreen.Attach | src/components/BillGenerator.tsx:227-242 | a record is built iff a token is selected and percentage and element are non-empty; it has an analysis; only the four analysis fields differ from the selection, and the words are `convertToWords` of the typed percentage |
| BillScreen.Preview | src/components/BillGenerator.tsx:227-245 | a page is produced exactly when the form is ready |
| BillScreen.PreviewShowsWords | src/components/BillGenerator.tsx:235-245 | the preview is drawn from the record the form builds, not the stored token: it prints `convertToWords` of the typed percentage |
| BillScreen.PreviewMasked | src/components/BillGenerator.tsx:235-245 | a masked preview is the built record's analysis block alone, from y 80 |
| BillScreen.Share | src/components/BillGenerator.tsx:262-281 | shares exactly when ready, the same page Preview shows, under the `Bill_` name of the selected token |
| BillScreen.LockReport | src/components/BillGenerator.tsx:339-364 | does nothing unless ready; otherwise it is the move of the attached record; a throw leaves the screen as it was; success clears the selection, keeps the form text and drops exactly that id from the list, keeping the order and every copy of the other records |
| BillScreen.LockReportCompletes | src/components/BillGenerator.tsx:347-355 | with every write accepted, the record with its analysis ends the completed list and its id is gone from the in-progress list |
| TokenScreen.NewRecord | src/components/TokenGenerator.tsx:191-200 | the record copies the form as typed, has no analysis fields, is stamped `now` and numbered by `generateTokenNumber` at `now` |
| TokenScreen.ImageBox | src/components/TokenGenerator.tsx:207-214 | both sides are positive and at most 150, the aspect ratio is kept, and the longer side (height for a square) is 150 |
| TokenScreen.ShrinkImage | src/components/TokenGenerator.tsx:202-222 | only the image changes, and only when there is one; it becomes the photograph re-encoded at the `ImageBox` of its decoded size |
| TokenScreen.SavedPhoto | src/components/TokenGenerator.tsx:202-223 | the stored photograph is the re-encoded copy, whose longer side is 150 with the aspect kept, or '' when only the image-less retry was written |
| TokenScreen.SaveToken | src/components/TokenGenerator.tsx:182-242 | nothing happens unless name, description and weight are filled; the save fails only if both writes are refused, and then the form is kept; on success the form and photograph are cleared and exactly one record is appended to the in-progress list |
| TokenScreen.SavedRecord | src/components/TokenGenerator.tsx:191-223 | the appended record is the form's record, fresh, numbered and stamped for `now`, differing at most in its image |
| TokenScreen.SaveAdvancesSequence | src/components/TokenGenerator.tsx:194-223 | after a save, the sequence number at the same moment is one higher |
| TokenScreen.SuccessiveNumbersDiffer | src/components/TokenGenerator.tsx:194-223 | after a save, the number any later moment of the same day gives differs from the one the save took |
| TokenScreen.Preview | src/components/TokenGenerator.tsx:252-277 | a page is produced exactly when the form is complete; no store is written |
| TokenScreen.Share | src/components/TokenGenerator.tsx:302-325 | shares exactly when complete, the page Preview shows, under "Token_", the token number, "_", the date with its slashes removed, and ".pdf" |
| TokenScreen.PreviewHasNoAnalysis | src/components/TokenGenerator.tsx:261-272 | a new token's page is letterhead, details and photograph, with no analysis block |
| HistoryScreen.Mount | src/components/HistoryView.tsx:20-31 | the screen opens with an empty search, showing exactly the completed records with every copy, newest first |
| HistoryScreen.Completed | src/components/HistoryView.tsx:27-29 | keeps exactly the full records with non-empty percentage and element, in order, each as many times as it is stored |
| HistoryScreen.Displayed | src/components/HistoryView.tsx:26-31 | the list is a permutation of the completed records, sorted newest first |
| HistoryScreen.Matches | src/components/HistoryView.tsx:33-37 | an empty term matches every record, and a term longer than the name, token number and description matches none |
| HistoryScreen.MatchesIffOccurs | src/components/HistoryView.tsx:33-37 | an item matches iff the lower-cased term occurs in the lower-cased name, token number or description |
| HistoryScreen.Search | src/components/HistoryView.tsx:33-37 | the result is exactly the matching items, each as many times as it is shown, as a subsequence of the list shown |
| HistoryScreen.EmptySearchKeepsAll | src/components/HistoryView.tsx:33-37 | an empty search shows everything |
| HistoryScreen.Delete | src/components/HistoryView.tsx:39-57 | the list is re-derived from the new full list with the same filter and order, and no shown record has the deleted id; a refusal changes nothing |
| HistoryScreen.DeleteShowsTheRest | src/components/HistoryView.tsx:39-45 | after a delete, the list holds exactly the completed records with another id |
| HistoryScreen.Export | src/components/HistoryView.tsx:108 | the export has the header line, one line per shown record, and one more per newline in their texts |
| HistoryScreen.ExportIgnoresSearch | src/components/HistoryView.tsx:128-130 | the export does not depend on the search term |
| Workflow.EmptyStoreInv | src/utils/tokenUtils.ts:297-305 | the empty store satisfies the invariant |
| Workflow.SaveTokenKeepsInv | src/components/TokenGenerator.tsx:182-242 | saving a token keeps in-progress records fresh and completed ones analysed, whatever is refused |
| Workflow.LockReportKeepsInv | src/components/BillGenerator.tsx:339-364 | Lock Report keeps the invariant, whatever is refused |
| Workflow.MoveKeepsInv | src/utils/tokenUtils.ts:308-347 | moving a record with its analysis keeps the invariant, whatever is refused |
| Workflow.DeleteKeepsInv | src/components/HistoryView.tsx:39-57 | deleting from history keeps the invariant |
| Workflow.HistoryShowsAll | src/components/HistoryView.tsx:26-31 | under the invariant the history screen shows every completed record |
| Workflow.SavedTokenListed | src/components/BillGenerator.tsx:45-54 | a token saved today is listed when the bill screen opens later the same day |
| Workflow.LockedReportDisplayed | src/components/BillGenerator.tsx:347-355 | a locked report appears on the history screen, without its image if the first full-list write was refused |

## Left out

- Fonts, colours, line widths, the logo bitmap and the PDF output (blob, `save`, preview URL) are not modelled. Text width and wrapping are the `Metrics` parameter.
- Floating point is not modelled. `parseFloat`/`Number` followed by `toFixed` is the `Numeric` parameter, which gives integers of hundredths or thousandths, already rounded. The karat figure (`x 0.2402`) is the opaque text `karatText`.
- Types.ToFixed: `JsNumber` has no negative zero, no infinities and no exponent form, so three `toFixed` outputs are missing: "-0.00" (for example from "-0.001"), "Infinity"/"-Infinity" (from "1e400"), and "1e+21"-style text for magnitudes of 1e21 and above. `convertToWords` of "-0.001" is " ZERO / ZERO ZERO" in the app, and the model, which rounds it to zero, gives "ZERO / ZERO ZERO".
- Dates and locale are not modelled. `toDateString`, `getDate`, `getMonth` and the en-GB date and time texts are the `Clock` parameter; `Date.now()` ids are a parameter.
- JSON parsing is not modelled, and a stored list that fails to parse reads as empty. The lists are held already parsed.
- Platform I/O is not modelled: Capacitor Filesystem and Share, `navigator.share`, download links, base64, and the share/export buttons' file handling. Only the file names and texts are modelled.
- Canvas decoding and re-encoding of the photograph are the `Camera` parameter, and the canvas's truncation of fractional sizes to integers is not modelled. A photograph whose load never fires `onload` hangs the action, and that is not modelled either.
- Layout.Picture: the catch around the photograph (src/utils/tokenUtils.ts:215-237) is not modelled; the model always draws the frame and the photograph. In the app a throw while decoding or re-encoding the image draws neither, and a throw from `addImage` leaves the frame without the photograph.
- TokenScreen.ImageBox: requires both sides to be positive. A decoded image of size 0 would give a NaN aspect ratio, and `Dimensions` excludes it.
- `exportToExcel` writes the same text as `exportToCSV` (src/utils/tokenUtils.ts:439-453), so the text is modelled once, in `Csv.CsvText`.
- The React shell is not modelled: toasts, modals, tabs (src/pages/Index.tsx) and the app configuration.
- `handleGenerateBill` and `handleGenerateToken` are not modelled: no button calls them. `saveToHistory` has no caller, and `updateTokenData` is called only from the unused `handleGenerateBill` (src/components/BillGenerator.tsx:94); both are modelled as operations of the store.
- The asynchronous gap between counting and appending in token numbering is not modelled: the app runs single-threaded.
- Lower- and upper-casing are modelled for ASCII letters only.
- HistoryScreen.Displayed: the sort is proved to be a sorted permutation, not stable. The model's insertion order is stable.
- `getTempTokenData` and `getFullTokenData` are the store's fields; `getHistoryData` is the same read as `getFullTokenData`.
