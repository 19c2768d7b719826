/**
 * The record shapes of src/types/token.ts and the environment the app reads
 * (the device calendar and JavaScript's number parsing), the latter as
 * function-valued parameters so that no part of the model depends on a
 * particular time zone, locale or floating-point rounding.
 */
module Types {
  import opened Text

  datatype Option<T> = None | Some(value: T)

  /** JavaScript truthiness of an optional string field: present and non-empty. */
  predicate Truthy(o: Option<string>) {
    o.Some? && o.value != ""
  }

  /** `field || ''`: an absent or empty field reads as the empty string. */
  function OrEmpty(o: Option<string>): (s: string)
    ensures s != "" <==> Truthy(o)
    ensures Truthy(o) ==> s == o.value
  {
    match o
    case Some(v) => v
    case None => ""
  }

  /**
   * One intake record (`TokenData`). The first five and the last three fields
   * are required; the six in the middle are optional, and none of them depends
   * on another: in particular `percentage` and `element` may be present
   * independently of each other as far as this type is concerned.
   */
  datatype TokenData = TokenData(
    id: string,
    tokenNumber: string,
    customerName: string,
    itemDescription: string,
    itemWeight: string,            // stored as text, converted only for display and export
    phoneNumber: Option<string>,
    percentage: Option<string>,
    element: Option<string>,
    percentageInWords: Option<string>,
    remarks: Option<string>,
    image: Option<string>,
    date: string,
    time: string,
    timestamp: int)

  /** The summary shape (`HistoryItem`): no id, weight, image or analysis fields. */
  datatype HistoryItem = HistoryItem(
    tokenNumber: string,
    customerName: string,
    itemDescription: string,
    phoneNumber: Option<string>,
    date: string,
    time: string,
    timestamp: int)

  /** A record carries an analysis result when both `percentage` and `element` are truthy. */
  predicate HasAnalysis(t: TokenData) {
    Truthy(t.percentage) && Truthy(t.element)
  }

  /** A record that has not had any analysis field attached yet. */
  predicate IsFreshToken(t: TokenData) {
    t.percentage.None? && t.element.None? && t.percentageInWords.None? && t.remarks.None?
  }

  /**
   * The six-field summary written to the `tokenHistory` list. The phone number
   * is not copied although `HistoryItem` has room for it.
   */
  function Summarize(t: TokenData): (h: HistoryItem)
    ensures h.phoneNumber.None?
    ensures h.tokenNumber == t.tokenNumber && h.customerName == t.customerName
    ensures h.itemDescription == t.itemDescription && h.timestamp == t.timestamp
    ensures h.date == t.date && h.time == t.time
  {
    HistoryItem(t.tokenNumber, t.customerName, t.itemDescription, None, t.date, t.time, t.timestamp)
  }

  /** Two records whose copied fields agree have the same summary. */
  lemma SummaryIgnoresOtherFields(a: TokenData, b: TokenData)
    requires a.tokenNumber == b.tokenNumber && a.customerName == b.customerName
    requires a.itemDescription == b.itemDescription && a.date == b.date
    requires a.time == b.time && a.timestamp == b.timestamp
    ensures Summarize(a) == Summarize(b)
  {
  }

  /**
   * The device calendar, read through a JavaScript `Date`: `dayKey` stands for
   * `toDateString()` (equal keys iff the same local calendar day), `dayOfMonth`
   * for `getDate()`, `monthIndex` for `getMonth()` (0 for January), and the two
   * texts for the en-GB `toLocaleDateString` / `toLocaleTimeString`.
   */
  datatype Clock = Clock(
    dayKey: int -> int,
    dayOfMonth: int -> nat,
    monthIndex: int -> nat,
    dateText: int -> string,
    timeText: int -> string)

  /** A JavaScript number scaled to a fixed count of decimals, or `NaN`. */
  datatype JsNumber = Finite(scaled: int) | NaN

  /**
   * JavaScript's number parsing, already rounded the way `toFixed` rounds:
   * `percentHundredths(s)` is `parseFloat(s)` in hundredths, `weightThousandths(s)`
   * is `Number(s)` in thousandths, and `karatText(s)` is the text of
   * `(parseFloat(s) * 0.2402).toFixed(2)`.
   */
  datatype Numeric = Numeric(
    percentHundredths: string -> JsNumber,
    weightThousandths: string -> JsNumber,
    karatText: string -> string)

  /** `x.toFixed(places)` for a number already scaled by `10^places`. */
  function ToFixed(n: JsNumber, places: nat): (r: string)
    ensures n.NaN? <==> r == "NaN"
    ensures n.Finite? ==> |r| > places && (r[0] == '-' <==> n.scaled < 0)
    ensures n.Finite? && places >= 1 ==> r[|r| - places - 1] == '.'
  {
    match n
    case NaN => "NaN"
    case Finite(v) =>
      if v < 0 then
        var digits := FixedDigits(-v, places);
        assert ("-" + digits)[0] == '-' != "NaN"[0];
        "-" + digits
      else FixedDigits(v, places)
  }

  /**
   * The digits of `toFixed` for a non-negative scaled value: its decimal form,
   * zero-padded so that at least one digit precedes the point, with the point
   * inserted before the last `places` digits.
   */
  function FixedDigits(v: nat, places: nat): (r: string)
    ensures |r| > places && IsDigit(r[0])
    ensures places >= 1 ==> r[|r| - places - 1] == '.'
  {
    var (ip, fp) := FixedParts(v, places);
    if places == 0 then ip else ip + "." + fp
  }

  function FixedParts(v: nat, places: nat): (parts: (string, string))
    ensures AllDigits(parts.0) && AllDigits(parts.1)
    ensures |parts.0| >= 1 && |parts.1| == places
  {
    var digits := PadStart(NatToString(v), places + 1, '0');
    PadZerosValue(NatToString(v), places + 1);
    var k := |digits| - places;
    AllDigitsSlices(digits, k);
    (digits[..k], digits[k..])
  }

  /**
   * `toFixed` of a non-negative value splits at the point into the integer part
   * and exactly `places` digits, and those digits give the value back.
   */
  lemma ToFixedParts(v: nat, places: nat)
    requires places >= 1
    ensures var parts := Split(ToFixed(Finite(v), places), '.');
      && |parts| == 2
      && AllDigits(parts[0]) && AllDigits(parts[1]) && |parts[1]| == places
      && DigitsValue(parts[0]) * Pow10(places) + DigitsValue(parts[1]) == v
  {
    ToFixedSplit(v, places);
    FixedPartsValue(v, places);
  }

  lemma ToFixedSplit(v: nat, places: nat)
    requires places >= 1
    ensures Split(ToFixed(Finite(v), places), '.') == [FixedParts(v, places).0, FixedParts(v, places).1]
  {
    var parts := FixedParts(v, places);
    assert ToFixed(Finite(v), places) == Join([parts.0, parts.1], ".");
    SplitJoin([parts.0, parts.1], '.');
  }

  lemma FixedPartsValue(v: nat, places: nat)
    ensures DigitsValue(FixedParts(v, places).0) * Pow10(places) + DigitsValue(FixedParts(v, places).1) == v
  {
    var parts := FixedParts(v, places);
    var digits := PadStart(NatToString(v), places + 1, '0');
    PadZerosValue(NatToString(v), places + 1);
    AllDigitsSlices(digits, |digits| - places);
    DigitsConcatValue(parts.0, parts.1);
  }

  lemma NoDotInDigits(s: string)
    requires AllDigits(s)
    ensures '.' !in s
  {
  }

  /** `toFixed` writes only digits, the point, the minus sign and the letters of "NaN". */
  lemma ToFixedAlphabet(n: JsNumber, places: nat, c: char)
    requires !IsDigit(c) && c != '.' && c != '-' && c != 'N' && c != 'a'
    ensures c !in ToFixed(n, places)
  {
    if n.Finite? {
      var v := if n.scaled < 0 then -n.scaled else n.scaled;
      var (ip, fp) := FixedParts(v, places);
      assert c !in ip && c !in fp;
    }
  }

  /** Distinct non-negative values have distinct `toFixed` texts. */
  lemma ToFixedInjective(a: nat, b: nat, places: nat)
    requires places >= 1
    requires ToFixed(Finite(a), places) == ToFixed(Finite(b), places)
    ensures a == b
  {
    ToFixedParts(a, places);
    ToFixedParts(b, places);
  }
}
