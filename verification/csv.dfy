/**
 * The text shared by `exportToCSV` and `exportToExcel`: a fixed header line,
 * then one line per record with nine comma-separated fields, the lines joined
 * with "\n". The customer name and the item description are put between double
 * quotes as they are; nothing else is quoted and nothing is escaped.
 */
module Csv {
  import opened Text
  import opened Types
  import opened Seqs

  const HeaderNames: seq<string> := ["Token Number", "Customer Name", "Item Description", "Phone Number",
                                     "Weight (gms)", "Date", "Time", "Percentage", "Element"]

  const Header: string := Join(HeaderNames, ",")

  /** `"${s}"`: the text between two double quotes, unchanged. */
  function Quoted(s: string): string {
    "\"" + s + "\""
  }

  /**
   * The nine fields of a record's line. The weight is `Number(itemWeight)`
   * with three decimals; `itemWeight` is a required field, so its empty-field
   * branch is never taken.
   */
  function RowFields(item: TokenData, numeric: Numeric): seq<string> {
    [item.tokenNumber, Quoted(item.customerName), Quoted(item.itemDescription), OrEmpty(item.phoneNumber),
     ToFixed(numeric.weightThousandths(item.itemWeight), 3), item.date, item.time,
     OrEmpty(item.percentage), OrEmpty(item.element)]
  }

  function Row(item: TokenData, numeric: Numeric): string {
    Join(RowFields(item, numeric), ",")
  }

  /** The whole exported text. */
  function CsvText(data: seq<TokenData>, numeric: Numeric): (t: string)
    ensures StartsWith(t, Header)
    ensures data == [] <==> t == Header
    ensures data != [] ==> t[|Header|] == '\n'
  {
    var rows := Map(data, (t: TokenData) => Row(t, numeric));
    var lines := [Header] + rows;
    if rows == [] then
      assert lines == [Header];
      Join(lines, "\n")
    else
      assert lines[1..] == rows;
      var rest := Join(rows, "\n");
      assert Join(lines, "\n") == Header + ("\n" + rest);
      assert |Header + ("\n" + rest)| > |Header|;
      Join(lines, "\n")
  }

  /** The header names nine columns, none of them with a comma. */
  lemma HeaderColumns()
    ensures Split(Header, ',') == HeaderNames && |HeaderNames| == 9
    ensures '\n' !in Header
  {
    HeaderNamesPlain();
    SplitJoin(HeaderNames, ',');
    CountAllZero(HeaderNames, '\n');
    JoinCount(HeaderNames, ',', '\n');
    CountZero(Header, '\n');
  }

  lemma HeaderNamesPlain()
    ensures forall i :: 0 <= i < |HeaderNames| ==> ',' !in HeaderNames[i] && '\n' !in HeaderNames[i]
  {
    forall i | 0 <= i < |HeaderNames| ensures ',' !in HeaderNames[i] && '\n' !in HeaderNames[i] {
      var w := HeaderNames[i];
      assert forall j :: 0 <= j < |w| ==> 'A' <= w[j] <= 'z' || w[j] == ' ' || w[j] == '(' || w[j] == ')';
    }
  }

  /** The weight field never holds a comma, a newline or a double quote. */
  lemma WeightFieldPlain(item: TokenData, numeric: Numeric)
    ensures var w := ToFixed(numeric.weightThousandths(item.itemWeight), 3);
      ',' !in w && '\n' !in w && '"' !in w
  {
    var n := numeric.weightThousandths(item.itemWeight);
    ToFixedAlphabet(n, 3, ',');
    ToFixedAlphabet(n, 3, '\n');
    ToFixedAlphabet(n, 3, '"');
  }

  /** The separators of `c` a record's own texts contribute to its line. */
  function TextCount(item: TokenData, c: char): nat {
    Count(item.tokenNumber, c) + Count(item.customerName, c) + Count(item.itemDescription, c)
      + Count(OrEmpty(item.phoneNumber), c) + Count(item.date, c) + Count(item.time, c)
      + Count(OrEmpty(item.percentage), c) + Count(OrEmpty(item.element), c)
  }

  lemma FieldsCount(item: TokenData, numeric: Numeric, c: char)
    requires c == ',' || c == '\n'
    ensures CountAll(RowFields(item, numeric), c) == TextCount(item, c)
  {
    var f := RowFields(item, numeric);
    WeightFieldPlain(item, numeric);
    CountZero(f[4], c);
    QuotedCount(item.customerName, c);
    QuotedCount(item.itemDescription, c);
    CountAllNine(f, c);
  }

  lemma QuotedCount(s: string, c: char)
    requires c != '"'
    ensures Count(Quoted(s), c) == Count(s, c)
  {
    CountAppend("\"" + s, "\"", c);
    CountAppend("\"", s, c);
  }

  lemma CountAllNine(f: seq<string>, c: char)
    requires |f| == 9
    ensures CountAll(f, c) == Count(f[0], c) + Count(f[1], c) + Count(f[2], c) + Count(f[3], c)
      + Count(f[4], c) + Count(f[5], c) + Count(f[6], c) + Count(f[7], c) + Count(f[8], c)
  {
    assert f[0..] == f && f[9..] == [];
    CountAllFrom(f, 0, c); CountAllFrom(f, 1, c); CountAllFrom(f, 2, c);
    CountAllFrom(f, 3, c); CountAllFrom(f, 4, c); CountAllFrom(f, 5, c);
    CountAllFrom(f, 6, c); CountAllFrom(f, 7, c); CountAllFrom(f, 8, c);
  }

  /**
   * A line splits at its commas into nine pieces plus one for every comma the
   * record's texts hold: it has exactly nine fields iff none of them holds a comma.
   */
  lemma RowPieces(item: TokenData, numeric: Numeric)
    ensures |Split(Row(item, numeric), ',')| == 9 + TextCount(item, ',')
  {
    SplitCount(Row(item, numeric), ',');
    JoinCount(RowFields(item, numeric), ',', ',');
    FieldsCount(item, numeric, ',');
  }

  /** Without commas in its texts, a line reads back as the nine fields in the header's order. */
  lemma RowFieldOrder(item: TokenData, numeric: Numeric)
    requires TextCount(item, ',') == 0
    ensures Split(Row(item, numeric), ',') ==
      [item.tokenNumber, Quoted(item.customerName), Quoted(item.itemDescription), OrEmpty(item.phoneNumber),
       ToFixed(numeric.weightThousandths(item.itemWeight), 3), item.date, item.time,
       OrEmpty(item.percentage), OrEmpty(item.element)]
  {
    var f := RowFields(item, numeric);
    FieldsCount(item, numeric, ',');
    CountAllZero(f, ',');
    SplitJoin(f, ',');
  }

  /** The newlines of the records' texts, over all records. */
  function NewlinesIn(data: seq<TokenData>): nat {
    if |data| == 0 then 0 else TextCount(data[0], '\n') + NewlinesIn(data[1..])
  }

  lemma {:induction false} RowsNewlines(data: seq<TokenData>, numeric: Numeric)
    ensures CountAll(Map(data, (t: TokenData) => Row(t, numeric)), '\n') == NewlinesIn(data)
  {
    if |data| > 0 {
      var rows := Map(data, (t: TokenData) => Row(t, numeric));
      RowsNewlines(data[1..], numeric);
      assert rows[1..] == Map(data[1..], (t: TokenData) => Row(t, numeric));
      JoinCount(RowFields(data[0], numeric), ',', '\n');
      FieldsCount(data[0], numeric, '\n');
    }
  }

  /**
   * The text splits at its newlines into the header, one line per record, and
   * one more line for every newline inside a record's texts.
   */
  lemma CsvLines(data: seq<TokenData>, numeric: Numeric)
    ensures |Split(CsvText(data, numeric), '\n')| == |data| + 1 + NewlinesIn(data)
  {
    var lines := [Header] + Map(data, (t: TokenData) => Row(t, numeric));
    HeaderColumns();
    CountZero(Header, '\n');
    RowsNewlines(data, numeric);
    assert lines[1..] == Map(data, (t: TokenData) => Row(t, numeric));
    JoinCount(lines, '\n', '\n');
    SplitCount(CsvText(data, numeric), '\n');
  }

  /** Without newlines in the records, the lines are the header and the records' lines, in order. */
  lemma CsvLineOrder(data: seq<TokenData>, numeric: Numeric)
    requires NewlinesIn(data) == 0
    ensures Split(CsvText(data, numeric), '\n') == [Header] + Map(data, (t: TokenData) => Row(t, numeric))
  {
    var lines := [Header] + Map(data, (t: TokenData) => Row(t, numeric));
    HeaderColumns();
    CountZero(Header, '\n');
    RowsNewlines(data, numeric);
    assert lines[1..] == Map(data, (t: TokenData) => Row(t, numeric));
    assert CountAll(lines, '\n') == 0;
    CountAllZero(lines, '\n');
    SplitJoin(lines, '\n');
  }

  /**
   * The inside of a quoted field as RFC 4180 (section 2, rule 7) reads it: two
   * double quotes stand for one, and a lone double quote is malformed.
   */
  function Unescape(s: string): (r: Option<string>)
    decreases |s|
  {
    if |s| == 0 then Some("")
    else if s[0] == '"' then
      if |s| >= 2 && s[1] == '"' then
        match Unescape(s[2..])
        case Some(t) => Some(['"'] + t)
        case None => None
      else None
    else
      match Unescape(s[1..])
      case Some(t) => Some([s[0]] + t)
      case None => None
  }

  /** An RFC 4180 reader's value of a field written between double quotes. */
  function ReadQuoted(f: string): Option<string> {
    if |f| >= 2 && f[0] == '"' && f[|f| - 1] == '"' then Unescape(f[1..|f| - 1]) else None
  }

  /** Every double quote read back costs two characters, so text with one comes back shorter. */
  lemma {:induction false} UnescapeShrinks(s: string)
    requires Unescape(s).Some?
    ensures |Unescape(s).value| <= |s|
    ensures '"' in s ==> |Unescape(s).value| < |s|
  {
    if |s| > 0 {
      if s[0] == '"' {
        UnescapeShrinks(s[2..]);
      } else {
        UnescapeShrinks(s[1..]);
        assert s == [s[0]] + s[1..];
      }
    }
  }

  lemma {:induction false} UnescapePlain(s: string)
    requires '"' !in s
    ensures Unescape(s) == Some(s)
  {
    if |s| > 0 {
      assert '"' !in s[1..];
      UnescapePlain(s[1..]);
      assert [s[0]] + s[1..] == s;
    }
  }

  /**
   * The name and description fields are not escaped: an RFC 4180 reader gets
   * the original text back exactly when it holds no double quote.
   */
  lemma QuotedReadsBack(s: string)
    ensures ReadQuoted(Quoted(s)) == Some(s) <==> '"' !in s
  {
    var f := Quoted(s);
    assert f[1..|f| - 1] == s;
    if '"' in s {
      if Unescape(s).Some? {
        UnescapeShrinks(s);
      }
    } else {
      UnescapePlain(s);
    }
  }
}
