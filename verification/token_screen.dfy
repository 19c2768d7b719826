/**
 * The decisions of the token screen (src/components/TokenGenerator.tsx): when
 * an action may go ahead, the record it builds from the form, the bounding box
 * the photograph is shrunk to, and what Save Token does to the form and to
 * the in-progress list. Decoding and re-encoding the photograph belong to the
 * browser and are given as functions.
 */
module TokenScreen {
  import opened Text
  import opened Types
  import opened Storage
  import opened TokenNumbering
  import Layout

  /** The four text inputs of the intake form. */
  datatype Form = Form(customerName: string, itemDescription: string, itemWeight: string, phoneNumber: string)

  const EmptyForm: Form := Form("", "", "", "")

  /** The form and the photograph as a data URL ('' when none was taken). */
  datatype TokenState = TokenState(form: Form, image: string)

  /** The check shared by Save Token, Preview and Share; the phone number is optional. */
  predicate Complete(form: Form) {
    form.customerName != "" && form.itemDescription != "" && form.itemWeight != ""
  }

  /**
   * The record the three actions build at time `now`: the form copied as
   * typed, the photograph as taken, a token number for `now` computed from the
   * stored lists, the clock's date and time texts, and no analysis yet.
   * `id` is the text of `Date.now()`.
   */
  function NewRecord(form: Form, image: string, id: string, clock: Clock, now: int, store: Store): (t: TokenData)
    ensures IsFreshToken(t) && !HasAnalysis(t)
    ensures t.customerName == form.customerName && t.itemDescription == form.itemDescription
    ensures t.itemWeight == form.itemWeight && t.phoneNumber == Some(form.phoneNumber)
    ensures t.image == Some(image) && t.id == id && t.timestamp == now
    ensures AllDigits(t.tokenNumber) && |t.tokenNumber| >= 7
    ensures t.tokenNumber == GenerateTokenNumber(clock, now, store.temp, store.full)
  {
    TokenData(id, GenerateTokenNumber(clock, now, store.temp, store.full), form.customerName, form.itemDescription,
              form.itemWeight, Some(form.phoneNumber), None, None, None, None, Some(image),
              clock.dateText(now), clock.timeText(now), now)
  }

  /**
   * The size the photograph is redrawn at: its longer side becomes 150 and the
   * other keeps the aspect ratio (a square becomes 150 x 150).
   */
  function ImageBox(width: real, height: real): (box: (real, real))
    requires width > 0.0 && height > 0.0
    ensures 0.0 < box.0 <= 150.0 && 0.0 < box.1 <= 150.0
    ensures box.0 * height == box.1 * width
    ensures width > height ==> box.0 == 150.0
    ensures width <= height ==> box.1 == 150.0
  {
    var aspect := width / height;
    assert aspect * height == width;
    if aspect > 1.0 then
      var side := 150.0 / aspect;
      assert side * aspect == 150.0;
      assert side * width == side * aspect * height;
      (150.0, side)
    else
      (150.0 * aspect, 150.0)
  }

  /** A photograph's pixel size, as the browser decodes it: both sides positive. */
  type Dimensions = d: (real, real) | d.0 > 0.0 && d.1 > 0.0 witness (1.0, 1.0)

  /**
   * The browser's image work: `size(url)` is the natural size of the decoded
   * image, `encode(url, w, h)` the JPEG data URL of it drawn at `w` x `h`.
   */
  datatype Camera = Camera(size: string -> Dimensions, encode: (string, real, real) -> string)

  /** A record with a photograph gets the shrunk copy; one without keeps its (empty) image. */
  function ShrinkImage(t: TokenData, camera: Camera): (r: TokenData)
    ensures r.(image := t.image) == t
    ensures !Truthy(t.image) ==> r == t
    ensures Truthy(t.image) ==>
      var d := camera.size(t.image.value);
      var box := ImageBox(d.0, d.1);
      r.image == Some(camera.encode(t.image.value, box.0, box.1))
  {
    if Truthy(t.image) then
      var d := camera.size(t.image.value);
      var box := ImageBox(d.0, d.1);
      t.(image := Some(camera.encode(t.image.value, box.0, box.1)))
    else t
  }

  /**
   * Save Token: build the record, shrink its photograph, append it to the
   * in-progress list; only once that returns is the form cleared. A save
   * that throws is reported and leaves the form as it was.
   */
  function SaveToken(st: TokenState, store: Store, id: string, clock: Clock, now: int, camera: Camera,
                     firstFails: bool, retryFails: bool): (r: (TokenState, Outcome))
    ensures !Complete(st.form) ==> r == (st, Ok(store))
    ensures r.1.Threw? ==> r.0 == st && r.1.store == store
    ensures Complete(st.form) ==> r.1.Ok? == !(firstFails && retryFails)
    ensures Complete(st.form) && r.1.Ok? ==>
      && r.0 == TokenState(EmptyForm, "")
      && r.1.store.full == store.full
      && |r.1.store.temp| == |store.temp| + 1
      && r.1.store.temp[..|store.temp|] == store.temp
  {
    if !Complete(st.form) then (st, Ok(store))
    else
      var rec := ShrinkImage(NewRecord(st.form, st.image, id, clock, now, store), camera);
      var out := SaveTokenToTemp(store, rec, firstFails, retryFails);
      if out.Ok? then (TokenState(EmptyForm, ""), out) else (st, out)
  }

  /**
   * The record a successful save appends is the form's: fresh, numbered for
   * `now`, stamped `now`, with the form's texts; only its image may differ
   * from what the form held.
   */
  lemma SavedRecord(st: TokenState, store: Store, id: string, clock: Clock, now: int, camera: Camera,
                    firstFails: bool, retryFails: bool)
    requires Complete(st.form) && !(firstFails && retryFails)
    ensures var t := Last(SaveToken(st, store, id, clock, now, camera, firstFails, retryFails).1.store.temp);
      && IsFreshToken(t)
      && t.(image := Some(st.image)) == NewRecord(st.form, st.image, id, clock, now, store)
      && t.timestamp == now
      && t.tokenNumber == GenerateTokenNumber(clock, now, store.temp, store.full)
  {
  }

  /**
   * A successful save counts towards the next token number: at the same
   * moment, the sequence number has moved on by one.
   */
  lemma SaveAdvancesSequence(st: TokenState, store: Store, id: string, clock: Clock, now: int, camera: Camera,
                             firstFails: bool, retryFails: bool)
    requires Complete(st.form) && !(firstFails && retryFails)
    ensures var s := SaveToken(st, store, id, clock, now, camera, firstFails, retryFails).1.store;
      SequenceNumber(clock, now, s.temp, s.full) == SequenceNumber(clock, now, store.temp, store.full) + 1
  {
    var s := SaveToken(st, store, id, clock, now, camera, firstFails, retryFails).1.store;
    var t := Last(s.temp);
    assert s.temp == store.temp + [t] + [];
    assert store.temp + [] == store.temp;
    SameDayCounted(clock, now, store.temp, t, [], store.full);
  }

  /**
   * Two tokens saved one after the other on the same day get different
   * numbers: the number the next save would take at any later moment of that
   * day differs from the one this save took.
   */
  lemma SuccessiveNumbersDiffer(st: TokenState, store: Store, id: string, clock: Clock, now: int, later: int,
                                camera: Camera, firstFails: bool, retryFails: bool)
    requires Complete(st.form) && !(firstFails && retryFails)
    requires clock.dayKey(later) == clock.dayKey(now)
    requires clock.dayOfMonth(now) < 100 && clock.monthIndex(now) + 1 < 100
    requires clock.dayOfMonth(later) < 100 && clock.monthIndex(later) + 1 < 100
    ensures var s := SaveToken(st, store, id, clock, now, camera, firstFails, retryFails).1.store;
      GenerateTokenNumber(clock, later, s.temp, s.full) != GenerateTokenNumber(clock, now, store.temp, store.full)
  {
    var s := SaveToken(st, store, id, clock, now, camera, firstFails, retryFails).1.store;
    SaveAdvancesSequence(st, store, id, clock, now, camera, firstFails, retryFails);
    assert SequenceNumber(clock, later, s.temp, s.full) == SequenceNumber(clock, now, s.temp, s.full);
    TokenNumberFields(clock, later, s.temp, s.full);
    TokenNumberFields(clock, now, store.temp, store.full);
  }

  /**
   * The photograph a save stores: the shrunk copy when the first write goes
   * through, '' when only the image-less retry does; the shrunk copy's longer
   * side is 150 and its aspect is the original's.
   */
  lemma SavedPhoto(st: TokenState, store: Store, id: string, clock: Clock, now: int, camera: Camera,
                   firstFails: bool, retryFails: bool)
    requires Complete(st.form) && !(firstFails && retryFails)
    ensures var t := Last(SaveToken(st, store, id, clock, now, camera, firstFails, retryFails).1.store.temp);
      var d := camera.size(st.image);
      var box := ImageBox(d.0, d.1);
      && (firstFails ==> t.image == Some(""))
      && (!firstFails && st.image != "" ==> t.image == Some(camera.encode(st.image, box.0, box.1)))
      && (!firstFails && st.image == "" ==> t.image == Some(""))
      && (box.0 == 150.0 || box.1 == 150.0) && box.0 * d.1 == box.1 * d.0
  {
  }

  /**
   * Preview and Share draw the token page of the record as built, photograph
   * unshrunk; they are given no store to write, so nothing is saved.
   */
  function Preview(st: TokenState, store: Store, id: string, clock: Clock, now: int, m: Layout.Metrics,
                   numeric: Numeric): (r: Option<seq<Layout.DrawOp>>)
    ensures r.Some? <==> Complete(st.form)
  {
    if !Complete(st.form) then None
    else Some(Layout.Page(NewRecord(st.form, st.image, id, clock, now, store), Layout.TokenReport, false, m, numeric,
                         clock, now))
  }

  /**
   * Share: the same page as Preview under the name
   * `Token_<token number>_<date without slashes>.pdf`; nothing is saved.
   */
  function Share(st: TokenState, store: Store, id: string, clock: Clock, now: int, m: Layout.Metrics,
                 numeric: Numeric): (r: Option<(string, seq<Layout.DrawOp>)>)
    ensures r.Some? <==> Complete(st.form)
    ensures r.Some? ==> Some(r.value.1) == Preview(st, store, id, clock, now, m, numeric)
    ensures r.Some? ==> var rec := NewRecord(st.form, st.image, id, clock, now, store);
      && |r.value.0| == 11 + |rec.tokenNumber| + |Layout.RemoveChar(rec.date, '/')|
      && StartsWith(r.value.0, "Token_" + rec.tokenNumber + "_") && EndsWith(r.value.0, ".pdf")
      && r.value.0[7 + |rec.tokenNumber|..|r.value.0| - 4] == Layout.RemoveChar(rec.date, '/')
      && '/' !in r.value.0[6..]
  {
    match Preview(st, store, id, clock, now, m, numeric)
    case None => None
    case Some(page) =>
      var rec := NewRecord(st.form, st.image, id, clock, now, store);
      var date := Layout.RemoveChar(rec.date, '/');
      ShareNameShape(rec.tokenNumber, date);
      Some(("Token_" + rec.tokenNumber + "_" + date + ".pdf", page))
  }

  /** The share name is the prefix, the token number, `_`, the date and `.pdf`, with no slash after the prefix. */
  lemma ShareNameShape(number: string, date: string)
    requires AllDigits(number) && '/' !in date
    ensures var name := "Token_" + number + "_" + date + ".pdf";
      && |name| == 11 + |number| + |date|
      && StartsWith(name, "Token_" + number + "_") && EndsWith(name, ".pdf")
      && name[7 + |number|..|name| - 4] == date
      && '/' !in name[6..]
  {
    var name := "Token_" + number + "_" + date + ".pdf";
    var tail := number + "_" + date + ".pdf";
    assert name == "Token_" + tail;
    assert name[6..] == tail;
    assert '/' !in number by {
      forall i | 0 <= i < |number| ensures number[i] != '/' {
        assert IsDigit(number[i]);
      }
    }
    assert '/' !in ".pdf";
    assert name == ("Token_" + number + "_") + date + ".pdf";
  }

  /** The page of a new token has no analysis block: it ends with the description, then the photograph. */
  lemma PreviewHasNoAnalysis(st: TokenState, store: Store, id: string, clock: Clock, now: int, m: Layout.Metrics,
                             numeric: Numeric)
    requires Complete(st.form)
    ensures var rec := NewRecord(st.form, st.image, id, clock, now, store);
      Preview(st, store, id, clock, now, m, numeric) ==
        Some(Layout.Letterhead(false, m) + Layout.Details(rec, false, m, numeric, clock, now).ops
             + Layout.Picture(rec, false))
  {
    var rec := NewRecord(st.form, st.image, id, clock, now, store);
    Layout.PageWithoutAnalysis(rec, Layout.TokenReport, false, m, numeric, clock, now);
  }
}
