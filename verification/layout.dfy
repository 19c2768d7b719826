/**
 * The certificate page `generatePDF` draws, as the list of drawing operations
 * it issues on an A5 landscape page (210 x 148 mm) in the order it issues
 * them. Fonts and colours are not modelled; text width and line wrapping are
 * the document's own measurements, supplied as functions. The page is built
 * in parts, each of which starts at the vertical cursor the previous part
 * left and returns the cursor it leaves.
 */
module Layout {
  import opened Text
  import opened Types
  import opened Seqs

  const PageWidth: int := 210
  const PageHeight: int := 148

  /** The width `splitTextToSize` wraps the description and the remarks to. */
  const WrapWidth: int := PageWidth - 75

  const PictureSide: int := 40
  const PictureX: int := PageWidth - PictureSide - 15
  const PictureY: int := PageHeight - PictureSide - 60

  datatype DrawOp =
    | Rect(x: real, y: int, w: int, h: int, filled: bool)
    | Logo(x: real, y: int, w: int, h: int)
    | Label(text: string, x: real, y: int)
    | Lines(lines: seq<string>, x: real, y: int)
    | Photo(x: real, y: int, w: int, h: int)

  /**
   * The document's measurements: `width(s, size, bold)` is `getTextWidth(s)`
   * in the given font size and weight, `wrap(s, w)` is `splitTextToSize(s, w)`.
   */
  datatype Metrics = Metrics(width: (string, nat, bool) -> real, wrap: (string, int) -> seq<string>)

  /** The `type` argument: 'token' or 'bill'. */
  datatype ReportKind = TokenReport | BillReport

  /** Operations drawn by one part of the page and the cursor it leaves. */
  datatype Part = Part(ops: seq<DrawOp>, y: int)

  /** The operations go down the page: no operation is drawn above an earlier one. */
  predicate Ordered(ops: seq<DrawOp>) {
    forall i, j :: 0 <= i < j < |ops| ==> ops[i].y <= ops[j].y
  }

  /** A part started at `y0` draws only between `y0` and the cursor it leaves, in order. */
  predicate Flows(p: Part, y0: int) {
    y0 <= p.y && Ordered(p.ops) && forall i :: 0 <= i < |p.ops| ==> y0 <= p.ops[i].y <= p.y
  }

  /** Two parts drawn one after the other flow as one part. */
  lemma Chain(a: Part, b: Part, y0: int)
    requires Flows(a, y0) && Flows(b, a.y)
    ensures Flows(Part(a.ops + b.ops, b.y), y0)
  {
    var ops := a.ops + b.ops;
    forall i, j | 0 <= i < j < |ops| ensures ops[i].y <= ops[j].y {
      if j < |a.ops| {
        assert ops[i] == a.ops[i] && ops[j] == a.ops[j];
      } else if i >= |a.ops| {
        assert ops[i] == b.ops[i - |a.ops|] && ops[j] == b.ops[j - |a.ops|];
      } else {
        assert ops[i] == a.ops[i] && ops[j] == b.ops[j - |a.ops|];
      }
    }
  }

  /** Text centred across the page. */
  function Centred(s: string, size: nat, bold: bool, y: int, m: Metrics): DrawOp {
    Label(s, (PageWidth as real - m.width(s, size, bold)) / 2.0, y)
  }

  /** The border, the header band, the logo and the four centred title lines; nothing when masked. */
  function Letterhead(masked: bool, m: Metrics): (ops: seq<DrawOp>)
    ensures masked <==> ops == []
    ensures Flows(Part(ops, 35), 5)
  {
    if masked then []
    else
      [Rect(5.0, 5, PageWidth - 10, PageHeight - 10, false),
       Rect(7.0, 7, PageWidth - 14, 22, true),
       Logo(50.0, 10, 15, 15),
       Centred("New MDS Jewellers", 14, true, 15, m),
       Centred("Shop no. 29, SKS Complex, Old Bus Stand, Kurnool", 9, false, 21, m),
       Centred("9849957100 / 8247453580", 9, true, 27, m),
       Centred("XRF Gold/Silver Test Certificate", 15, true, 35, m)]
  }

  /** `addStyledField`: the caption in bold at x 15, the value at x 80, then one 9 mm line down. */
  function Field(caption: string, value: string, y: int): (p: Part)
    ensures Flows(p, y) && p.y == y + 9
    ensures forall op :: op in p.ops ==> op.y == y
    ensures Label(value, 80.0, y) in p.ops
  {
    Part([Label(caption + ":", 15.0, y), Label(value, 80.0, y)], y + 9)
  }

  /**
   * Date, time and the customer fields, ending with the wrapped item
   * description; when masked nothing is drawn and the cursor is moved to 80.
   */
  function Details(rec: TokenData, masked: bool, m: Metrics, numeric: Numeric, clock: Clock, now: int): (p: Part)
    ensures masked ==> p == Part([], 80)
    ensures !masked ==> p.y == 85 + 6 * |m.wrap(rec.itemDescription, WrapWidth)|
    ensures Flows(p, if masked then 80 else 35)
  {
    if masked then Part([], 80)
    else
      var stamp := Part([Label("DATE: " + clock.dateText(now), 160.0, 35),
                         Label("TIME: " + clock.timeText(now), 160.0, 43)], 51);
      var token := Field("TOKEN NUMBER", rec.tokenNumber, stamp.y);
      var name := Field("CUSTOMER NAME", rec.customerName, token.y);
      var weight := Field("ITEM WEIGHT (GRMS)", ToFixed(numeric.weightThousandths(rec.itemWeight), 3) + " g", name.y);
      var lines := m.wrap(rec.itemDescription, WrapWidth);
      var description := Part([Label("ITEM DESCRIPTION:", 15.0, weight.y), Lines(lines, 80.0, weight.y)],
                              weight.y + 7 + |lines| * 6);
      Chain(stamp, token, 35);
      var a := Part(stamp.ops + token.ops, token.y);
      Chain(a, name, 35);
      var b := Part(a.ops + name.ops, name.y);
      Chain(b, weight, 35);
      var c := Part(b.ops + weight.ops, weight.y);
      Chain(c, description, 35);
      Part(c.ops + description.ops, description.y)
  }

  /**
   * What an unmasked print says about the record: the date and time at x 160,
   * then the token number, the customer name and the weight in grams to three
   * decimals at x 80 on successive 9 mm lines, then the wrapped description,
   * each value beside its caption at x 15; nothing else is printed there.  Kept apart from
   * `Details` so that pages built from it do not carry these facts around.
   */
  lemma DetailsContent(rec: TokenData, m: Metrics, numeric: Numeric, clock: Clock, now: int)
    ensures Details(rec, false, m, numeric, clock, now).ops
         == [Label("DATE: " + clock.dateText(now), 160.0, 35), Label("TIME: " + clock.timeText(now), 160.0, 43)]
            + [Label("TOKEN NUMBER:", 15.0, 51), Label(rec.tokenNumber, 80.0, 51)]
            + [Label("CUSTOMER NAME:", 15.0, 60), Label(rec.customerName, 80.0, 60)]
            + [Label("ITEM WEIGHT (GRMS):", 15.0, 69),
               Label(ToFixed(numeric.weightThousandths(rec.itemWeight), 3) + " g", 80.0, 69)]
            + [Label("ITEM DESCRIPTION:", 15.0, 78), Lines(m.wrap(rec.itemDescription, WrapWidth), 80.0, 78)]
  {
    var weightText := ToFixed(numeric.weightThousandths(rec.itemWeight), 3) + " g";
    DetailsParts(rec, m, numeric, clock, now);
    CaptionsSpelled();
    FieldOps("TOKEN NUMBER", rec.tokenNumber, 51);
    FieldOps("CUSTOMER NAME", rec.customerName, 60);
    FieldOps("ITEM WEIGHT (GRMS)", weightText, 69);
  }

  /** The unmasked details block is its stamp, three fields and the description, in that order. */
  lemma DetailsParts(rec: TokenData, m: Metrics, numeric: Numeric, clock: Clock, now: int)
    ensures Details(rec, false, m, numeric, clock, now).ops
         == [Label("DATE: " + clock.dateText(now), 160.0, 35), Label("TIME: " + clock.timeText(now), 160.0, 43)]
            + Field("TOKEN NUMBER", rec.tokenNumber, 51).ops
            + Field("CUSTOMER NAME", rec.customerName, 60).ops
            + Field("ITEM WEIGHT (GRMS)", ToFixed(numeric.weightThousandths(rec.itemWeight), 3) + " g", 69).ops
            + [Label("ITEM DESCRIPTION:", 15.0, 78), Lines(m.wrap(rec.itemDescription, WrapWidth), 80.0, 78)]
  {
  }

  lemma FieldOps(caption: string, value: string, y: int)
    ensures Field(caption, value, y).ops == [Label(caption + ":", 15.0, y), Label(value, 80.0, y)]
  {
  }

  /** The field captions with their colons, as printed. */
  lemma CaptionsSpelled()
    ensures "TOKEN NUMBER" + ":" == "TOKEN NUMBER:"
    ensures "CUSTOMER NAME" + ":" == "CUSTOMER NAME:"
    ensures "ITEM WEIGHT (GRMS)" + ":" == "ITEM WEIGHT (GRMS):"
  {
  }

  /** The grey date-and-time stamp that stands in for the letterhead on a masked print. */
  function Stamp(masked: bool, clock: Clock, now: int, y: int): (p: Part)
    ensures Flows(p, y)
    ensures !masked ==> p == Part([], y)
    ensures masked ==> p.ops == [Label(clock.dateText(now) + " " + clock.timeText(now), 15.0, y + 2)] && p.y == y + 8
  {
    if masked then Part([Label(clock.dateText(now) + " " + clock.timeText(now), 15.0, y + 2)], y + 8)
    else Part([], y)
  }

  /** The sentence stating the result: a lead-in, then the figure in bold right after it. */
  function Statement(rec: TokenData, y: int, m: Metrics, numeric: Numeric): (p: Part)
    requires Truthy(rec.percentage) && Truthy(rec.element)
    ensures Flows(p, y) && p.y == y + 9 && |p.ops| == 2
    ensures p.ops[0] == Label("Upon XRF analysis, the above sample item has ", 15.0, y)
    ensures p.ops[1].Label? && p.ops[1].y == y
    ensures p.ops[1].text == " " + (ToFixed(numeric.percentHundredths(rec.percentage.value), 2) + "%") + " of PURE "
                             + Upper(rec.element.value) + "."
  {
    var percent := ToFixed(numeric.percentHundredths(rec.percentage.value), 2) + "%";
    var element := Upper(rec.element.value);
    var lead := "Upon XRF analysis, the above sample item has ";
    var offset := m.width(lead, 13, false) + 15.0;
    Part([Label(lead, 15.0, y), Label(" " + percent + " of PURE " + element + ".", offset, y)], y + 9)
  }

  /** The karat line, for gold only. */
  function Karat(rec: TokenData, y: int, numeric: Numeric): (p: Part)
    requires Truthy(rec.percentage) && Truthy(rec.element)
    ensures Flows(p, y)
  {
    if Lower(rec.element.value) == "gold" then
      Part([Label("KARAT:", 15.0, y), Label(numeric.karatText(rec.percentage.value) + "K", 60.0, y)], y + 9)
    else Part([], y)
  }

  /** The percentage in words, under its own label, when present. */
  function WordsLine(rec: TokenData, y: int): (p: Part)
    ensures Flows(p, y)
  {
    if Truthy(rec.percentageInWords) then
      Part([Label("PERCENTAGE IN WORDS:", 15.0, y), Label(rec.percentageInWords.value, 15.0, y + 7)], y + 16)
    else Part([], y)
  }

  /** The wrapped remarks beside their label, when present. */
  function RemarksLine(rec: TokenData, y: int, m: Metrics): (p: Part)
    ensures Flows(p, y)
  {
    if Truthy(rec.remarks) then
      var lines := m.wrap(rec.remarks.value, WrapWidth);
      Part([Label("REMARKS:", 15.0, y), Lines(lines, 60.0, y)], y + 7 + |lines| * 6)
    else Part([], y)
  }

  /** The analysis block, drawn only when both `percentage` and `element` are non-empty. */
  function Analysis(rec: TokenData, masked: bool, y: int, m: Metrics, numeric: Numeric, clock: Clock, now: int): (a: Part)
    ensures a.ops == [] <==> !HasAnalysis(rec)
    ensures y <= a.y
    ensures !HasAnalysis(rec) ==> a.y == y
  {
    if !(Truthy(rec.percentage) && Truthy(rec.element)) then Part([], y)
    else
      var stamp := Stamp(masked, clock, now, y);
      var title := Part([Label("XRF ANALYSIS RESULT:", 15.0, stamp.y)], stamp.y + 7);
      var statement := Statement(rec, title.y, m, numeric);
      var karat := Karat(rec, statement.y, numeric);
      var words := WordsLine(rec, karat.y);
      var remarks := RemarksLine(rec, words.y, m);
      Part(stamp.ops + title.ops + statement.ops + karat.ops + words.ops + remarks.ops, remarks.y)
  }

  /** The framed photograph, at a fixed place, only on an unmasked print of a record with an image. */
  function Picture(rec: TokenData, masked: bool): (ops: seq<DrawOp>)
    ensures ops != [] <==> Truthy(rec.image) && !masked
    ensures ops == [] || |ops| == 2
  {
    if Truthy(rec.image) && !masked then
      [Rect(PictureX as real, PictureY, PictureSide, PictureSide, false),
       Photo(PictureX as real, PictureY, PictureSide, PictureSide)]
    else []
  }

  /** `generatePDF(tokenData, type, returnBlob, masked)`: every operation, in drawing order. */
  function Page(rec: TokenData, kind: ReportKind, masked: bool, m: Metrics, numeric: Numeric,
                clock: Clock, now: int): (p: seq<DrawOp>)
    ensures masked ==> p == Analysis(rec, true, 80, m, numeric, clock, now).ops
    ensures !masked ==> |p| >= 7 && p[..7] == Letterhead(false, m)
    ensures !masked && Truthy(rec.image) ==> p[|p| - 2..] == Picture(rec, false)
  {
    var details := Details(rec, masked, m, numeric, clock, now);
    var analysis := Analysis(rec, masked, details.y, m, numeric, clock, now);
    var head := Letterhead(masked, m);
    var picture := Picture(rec, masked);
    ConcatEnds(head, details.ops, analysis.ops, picture);
    head + details.ops + analysis.ops + picture
  }

  /** What a page's first and last parts contribute to the whole. */
  lemma ConcatEnds(a: seq<DrawOp>, b: seq<DrawOp>, c: seq<DrawOp>, d: seq<DrawOp>)
    ensures var p := a + b + c + d;
      && p[..|a|] == a && p[|p| - |d|..] == d
      && (a == [] && b == [] && d == [] ==> p == c)
  {
    var p := a + b + c + d;
    assert p == a + (b + c + d);
    assert p == (a + b + c) + d;
  }

  /** The analysis block flows down from the cursor it starts at. */
  lemma AnalysisFlows(rec: TokenData, masked: bool, y: int, m: Metrics, numeric: Numeric, clock: Clock, now: int)
    ensures Flows(Analysis(rec, masked, y, m, numeric, clock, now), y)
  {
    if HasAnalysis(rec) {
      var stamp := Stamp(masked, clock, now, y);
      var title := Part([Label("XRF ANALYSIS RESULT:", 15.0, stamp.y)], stamp.y + 7);
      var statement := Statement(rec, title.y, m, numeric);
      var karat := Karat(rec, statement.y, numeric);
      var words := WordsLine(rec, karat.y);
      var remarks := RemarksLine(rec, words.y, m);
      Chain(stamp, title, y);
      var a := Part(stamp.ops + title.ops, title.y);
      Chain(a, statement, y);
      var b := Part(a.ops + statement.ops, statement.y);
      Chain(b, karat, y);
      var c := Part(b.ops + karat.ops, karat.y);
      Chain(c, words, y);
      var d := Part(c.ops + words.ops, words.y);
      Chain(d, remarks, y);
    }
  }

  /** How far each optional line moves the cursor; zero for a line that is not drawn. */
  function LineHeight(present: bool, height: int): int {
    if present then height else 0
  }

  /**
   * The analysis block is drawn exactly when both `percentage` and `element`
   * are non-empty. Then it moves the cursor by the stamp (masked only), the
   * title and the result sentence, plus the karat line exactly for gold, the
   * words exactly when present and the wrapped remarks exactly when present;
   * and it draws two operations for each optional line it includes.
   */
  lemma AnalysisLines(rec: TokenData, masked: bool, y: int, m: Metrics, numeric: Numeric, clock: Clock, now: int)
    ensures var a := Analysis(rec, masked, y, m, numeric, clock, now);
      && (a.ops == [] <==> !HasAnalysis(rec))
      && (HasAnalysis(rec) ==>
            var gold := Lower(rec.element.value) == "gold";
            var remarks := if Truthy(rec.remarks) then |m.wrap(rec.remarks.value, WrapWidth)| else 0;
            && a.y == y + LineHeight(masked, 8) + 16 + LineHeight(gold, 9)
                        + LineHeight(Truthy(rec.percentageInWords), 16)
                        + LineHeight(Truthy(rec.remarks), 7 + 6 * remarks)
            && |a.ops| == LineHeight(masked, 1) + 3 + LineHeight(gold, 2)
                          + LineHeight(Truthy(rec.percentageInWords), 2) + LineHeight(Truthy(rec.remarks), 2))
      && (!HasAnalysis(rec) ==> a.y == y)
  {
  }

  /** With an analysis for gold, the karat line is drawn. */
  lemma GoldHasKarat(rec: TokenData, kind: ReportKind, masked: bool, m: Metrics, numeric: Numeric,
                     clock: Clock, now: int)
    requires HasAnalysis(rec) && Lower(rec.element.value) == "gold"
    ensures exists y :: Label("KARAT:", 15.0, y) in Page(rec, kind, masked, m, numeric, clock, now)
  {
    var details := Details(rec, masked, m, numeric, clock, now);
    var y := KaratInAnalysis(rec, masked, details.y, m, numeric, clock, now);
    AnalysisInPage(rec, kind, masked, m, numeric, clock, now, Label("KARAT:", 15.0, y));
  }

  lemma KaratInAnalysis(rec: TokenData, masked: bool, y0: int, m: Metrics, numeric: Numeric, clock: Clock, now: int)
    returns (y: int)
    requires HasAnalysis(rec) && Lower(rec.element.value) == "gold"
    ensures Label("KARAT:", 15.0, y) in Analysis(rec, masked, y0, m, numeric, clock, now).ops
  {
    var stamp := Stamp(masked, clock, now, y0);
    var title := Part([Label("XRF ANALYSIS RESULT:", 15.0, stamp.y)], stamp.y + 7);
    var statement := Statement(rec, title.y, m, numeric);
    var karat := Karat(rec, statement.y, numeric);
    var words := WordsLine(rec, karat.y);
    var remarks := RemarksLine(rec, words.y, m);
    y := statement.y;
    assert karat.ops[0] == Label("KARAT:", 15.0, y);
    var ops := Analysis(rec, masked, y0, m, numeric, clock, now).ops;
    assert ops == stamp.ops + title.ops + statement.ops + karat.ops + words.ops + remarks.ops;
    assert ops[|stamp.ops| + 3] == karat.ops[0];
  }

  /** The percentage in words, when the record has them, is printed on its page. */
  lemma WordsInPage(rec: TokenData, kind: ReportKind, masked: bool, m: Metrics, numeric: Numeric,
                    clock: Clock, now: int)
    requires HasAnalysis(rec) && Truthy(rec.percentageInWords)
    ensures exists y :: Label(rec.percentageInWords.value, 15.0, y) in Page(rec, kind, masked, m, numeric, clock, now)
  {
    var details := Details(rec, masked, m, numeric, clock, now);
    var y := WordsInAnalysis(rec, masked, details.y, m, numeric, clock, now);
    AnalysisInPage(rec, kind, masked, m, numeric, clock, now, Label(rec.percentageInWords.value, 15.0, y));
  }

  lemma WordsInAnalysis(rec: TokenData, masked: bool, y0: int, m: Metrics, numeric: Numeric, clock: Clock, now: int)
    returns (y: int)
    requires HasAnalysis(rec) && Truthy(rec.percentageInWords)
    ensures Label(rec.percentageInWords.value, 15.0, y) in Analysis(rec, masked, y0, m, numeric, clock, now).ops
  {
    var stamp := Stamp(masked, clock, now, y0);
    var title := Part([Label("XRF ANALYSIS RESULT:", 15.0, stamp.y)], stamp.y + 7);
    var statement := Statement(rec, title.y, m, numeric);
    var karat := Karat(rec, statement.y, numeric);
    var words := WordsLine(rec, karat.y);
    var remarks := RemarksLine(rec, words.y, m);
    y := karat.y + 7;
    assert words.ops[1] == Label(rec.percentageInWords.value, 15.0, y);
    var ops := Analysis(rec, masked, y0, m, numeric, clock, now).ops;
    var before := stamp.ops + title.ops + statement.ops + karat.ops;
    assert ops == before + words.ops + remarks.ops;
    assert words.ops[1] in words.ops;
  }

  /** A record without analysis is drawn as the letterhead, the details and the photograph. */
  lemma PageWithoutAnalysis(rec: TokenData, kind: ReportKind, masked: bool, m: Metrics, numeric: Numeric,
                            clock: Clock, now: int)
    requires !HasAnalysis(rec)
    ensures Page(rec, kind, masked, m, numeric, clock, now)
      == Letterhead(masked, m) + Details(rec, masked, m, numeric, clock, now).ops + Picture(rec, masked)
  {
    var head := Letterhead(masked, m) + Details(rec, masked, m, numeric, clock, now).ops;
    assert head + [] == head;
  }

  /** Whatever the analysis block draws is on the page. */
  lemma AnalysisInPage(rec: TokenData, kind: ReportKind, masked: bool, m: Metrics, numeric: Numeric,
                       clock: Clock, now: int, op: DrawOp)
    requires op in Analysis(rec, masked, Details(rec, masked, m, numeric, clock, now).y, m, numeric, clock, now).ops
    ensures op in Page(rec, kind, masked, m, numeric, clock, now)
  {
  }

  /**
   * Everything but the photograph is drawn top to bottom: no operation before
   * the picture lies above an earlier one.
   */
  lemma PageOrdered(rec: TokenData, kind: ReportKind, masked: bool, m: Metrics, numeric: Numeric,
                    clock: Clock, now: int)
    ensures var p := Page(rec, kind, masked, m, numeric, clock, now);
      Ordered(p[..|p| - |Picture(rec, masked)|])
  {
    var details := Details(rec, masked, m, numeric, clock, now);
    var analysis := Analysis(rec, masked, details.y, m, numeric, clock, now);
    var head := Part(Letterhead(masked, m), 35);
    AnalysisFlows(rec, masked, details.y, m, numeric, clock, now);
    Chain(head, details, 5);
    Chain(Part(head.ops + details.ops, details.y), analysis, 5);
    var p := Page(rec, kind, masked, m, numeric, clock, now);
    assert p[..|p| - |Picture(rec, masked)|] == head.ops + details.ops + analysis.ops;
  }

  /** The `type` argument has no effect on the page. */
  lemma KindIgnored(rec: TokenData, masked: bool, m: Metrics, numeric: Numeric, clock: Clock, now: int)
    ensures Page(rec, TokenReport, masked, m, numeric, clock, now) == Page(rec, BillReport, masked, m, numeric, clock, now)
  {
  }

  /**
   * A masked print is the same for any two records with the same analysis
   * fields: nothing of the customer, the item, its weight, the token number or
   * the photograph reaches it.
   */
  lemma MaskedShowsOnlyAnalysis(a: TokenData, b: TokenData, kind: ReportKind, m: Metrics, numeric: Numeric,
                                clock: Clock, now: int)
    requires a.percentage == b.percentage && a.element == b.element
    requires a.percentageInWords == b.percentageInWords && a.remarks == b.remarks
    ensures Page(a, kind, true, m, numeric, clock, now) == Page(b, kind, true, m, numeric, clock, now)
  {
    assert Details(a, true, m, numeric, clock, now) == Part([], 80);
    assert Details(b, true, m, numeric, clock, now) == Part([], 80);
    AnalysisSameFields(a, b, 80, m, numeric, clock, now);
    assert Page(a, kind, true, m, numeric, clock, now) == [] + [] + Analysis(a, true, 80, m, numeric, clock, now).ops + [];
    assert Page(b, kind, true, m, numeric, clock, now) == [] + [] + Analysis(b, true, 80, m, numeric, clock, now).ops + [];
  }

  /** The masked analysis block reads only the four analysis fields. */
  lemma AnalysisSameFields(a: TokenData, b: TokenData, y: int, m: Metrics, numeric: Numeric, clock: Clock, now: int)
    requires a.percentage == b.percentage && a.element == b.element
    requires a.percentageInWords == b.percentageInWords && a.remarks == b.remarks
    ensures Analysis(a, true, y, m, numeric, clock, now) == Analysis(b, true, y, m, numeric, clock, now)
  {
    if HasAnalysis(a) {
      var y1 := Stamp(true, clock, now, y).y + 7;
      assert Statement(a, y1, m, numeric) == Statement(b, y1, m, numeric);
      var y2 := y1 + 9;
      assert Karat(a, y2, numeric) == Karat(b, y2, numeric);
      var y3 := Karat(a, y2, numeric).y;
      assert WordsLine(a, y3) == WordsLine(b, y3);
      var y4 := WordsLine(a, y3).y;
      assert RemarksLine(a, y4, m) == RemarksLine(b, y4, m);
    }
  }

  /** A masked print draws text only: no border, band, logo, frame or photograph. */
  lemma MaskedIsTextOnly(rec: TokenData, kind: ReportKind, m: Metrics, numeric: Numeric, clock: Clock, now: int)
    ensures forall op :: op in Page(rec, kind, true, m, numeric, clock, now) ==> op.Label? || op.Lines?
  {
    var details := Details(rec, true, m, numeric, clock, now);
    var analysis := Analysis(rec, true, details.y, m, numeric, clock, now);
    AnalysisIsText(rec, true, details.y, m, numeric, clock, now);
    assert Page(rec, kind, true, m, numeric, clock, now) == [] + [] + analysis.ops + [];
  }

  /** Operations that only write text. */
  predicate TextOnly(ops: seq<DrawOp>) {
    forall i :: 0 <= i < |ops| ==> ops[i].Label? || ops[i].Lines?
  }

  lemma TextOnlyAppend(a: seq<DrawOp>, b: seq<DrawOp>)
    requires TextOnly(a) && TextOnly(b)
    ensures TextOnly(a + b)
  {
  }

  /** Each optional part of the analysis block writes text only. */
  lemma PartsAreText(rec: TokenData, masked: bool, y: int, m: Metrics, numeric: Numeric, clock: Clock, now: int)
    requires HasAnalysis(rec)
    ensures TextOnly(Stamp(masked, clock, now, y).ops)
    ensures forall y' :: TextOnly(Statement(rec, y', m, numeric).ops)
    ensures forall y' :: TextOnly(Karat(rec, y', numeric).ops)
    ensures forall y' :: TextOnly(WordsLine(rec, y').ops)
    ensures forall y' :: TextOnly(RemarksLine(rec, y', m).ops)
  {
    forall y' ensures TextOnly(Statement(rec, y', m, numeric).ops) {
      var ops := Statement(rec, y', m, numeric).ops;
      assert ops[0].Label? && ops[1].Label?;
    }
  }

  /** Every operation of the analysis block writes text. */
  lemma AnalysisIsText(rec: TokenData, masked: bool, y: int, m: Metrics, numeric: Numeric, clock: Clock, now: int)
    ensures TextOnly(Analysis(rec, masked, y, m, numeric, clock, now).ops)
  {
    if HasAnalysis(rec) {
      var stamp := Stamp(masked, clock, now, y);
      var title := Part([Label("XRF ANALYSIS RESULT:", 15.0, stamp.y)], stamp.y + 7);
      var statement := Statement(rec, title.y, m, numeric);
      var karat := Karat(rec, statement.y, numeric);
      var words := WordsLine(rec, karat.y);
      var remarks := RemarksLine(rec, words.y, m);
      PartsAreText(rec, masked, y, m, numeric, clock, now);
      assert TextOnly(title.ops);
      TextOnlyAppend(stamp.ops, title.ops);
      TextOnlyAppend(stamp.ops + title.ops, statement.ops);
      TextOnlyAppend(stamp.ops + title.ops + statement.ops, karat.ops);
      TextOnlyAppend(stamp.ops + title.ops + statement.ops + karat.ops, words.ops);
      TextOnlyAppend(stamp.ops + title.ops + statement.ops + karat.ops + words.ops, remarks.ops);
    }
  }

  /**
   * The photograph is drawn exactly on unmasked prints of records with an
   * image, framed, inside the border.
   */
  lemma PicturePlacement(rec: TokenData, masked: bool)
    ensures Picture(rec, masked) != [] ==>
      && Picture(rec, masked)[0] == Rect(PictureX as real, PictureY, PictureSide, PictureSide, false)
      && Picture(rec, masked)[1].Photo?
    ensures forall op :: op in Picture(rec, masked) ==>
      && (op.Rect? || op.Photo?)
      && op.x == PictureX as real && op.y == PictureY && op.w == PictureSide && op.h == PictureSide
      && 5.0 <= op.x && op.x + op.w as real <= (PageWidth - 5) as real
      && 5 <= op.y && op.y + op.h <= PageHeight - 5
  {
  }

  /**
   * The photograph is placed without regard to the cursor: on an unmasked
   * print with an image, the description text starts level with the frame
   * and may wrap out to a width that reaches into it.
   */
  lemma PictureBesideDescription(rec: TokenData, kind: ReportKind, m: Metrics, numeric: Numeric,
                                 clock: Clock, now: int)
    requires Truthy(rec.image)
    ensures exists op ::
              && op in Page(rec, kind, false, m, numeric, clock, now)
              && op.Lines? && op.x + WrapWidth as real > PictureX as real
              && PictureY <= op.y <= PictureY + PictureSide
  {
    var details := Details(rec, false, m, numeric, clock, now);
    var desc := details.ops[|details.ops| - 1];
    assert desc == Lines(m.wrap(rec.itemDescription, WrapWidth), 80.0, 78);
    assert desc in Page(rec, kind, false, m, numeric, clock, now);
  }

  /** `Bill_<token number>_<date without slashes>.pdf`. */
  function FileName(rec: TokenData): (name: string)
    ensures |name| == 10 + |rec.tokenNumber| + |RemoveChar(rec.date, '/')|
    ensures StartsWith(name, "Bill_" + rec.tokenNumber + "_") && EndsWith(name, ".pdf")
    ensures name[6 + |rec.tokenNumber|..|name| - 4] == RemoveChar(rec.date, '/')
  {
    "Bill_" + rec.tokenNumber + "_" + RemoveChar(rec.date, '/') + ".pdf"
  }

  /** `s.replace(/c/g, '')` for a single character `c`. */
  function RemoveChar(s: string, c: char): (r: string)
    ensures c !in r
    ensures forall d :: d != c ==> Count(r, d) == Count(s, d)
    ensures r == Filter(s, (d: char) => d != c)
  {
    if |s| == 0 then ""
    else if s[0] == c then RemoveChar(s[1..], c)
    else [s[0]] + RemoveChar(s[1..], c)
  }
}
