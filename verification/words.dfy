/**
 * `convertToWords`: the two-decimal text of a percentage, read out one digit
 * at a time ("91.6" becomes "NINE ONE / SIX ZERO"), and the decoder that turns
 * such a text back into the two-decimal string.
 */
module Words {
  import opened Text
  import opened Types
  import opened Seqs

  /** `digitToWord`: a decimal digit to its upper-case English name, anything else to "". */
  function DigitWord(c: char): string {
    match c
    case '0' => "ZERO"
    case '1' => "ONE"
    case '2' => "TWO"
    case '3' => "THREE"
    case '4' => "FOUR"
    case '5' => "FIVE"
    case '6' => "SIX"
    case '7' => "SEVEN"
    case '8' => "EIGHT"
    case '9' => "NINE"
    case _ => ""
  }

  /** `s.split('').map(digitToWord)`. */
  function WordsOf(s: string): seq<string> {
    Map(s, DigitWord)
  }

  /**
   * `convertToWords(num)`: format to two decimals, split at the point, name
   * each digit, join each group with single spaces and the groups with " / ".
   * The number arrives already as JavaScript would round it for `toFixed(2)`.
   */
  function ConvertToWords(num: JsNumber): (r: string)
    ensures num.NaN? ==> r == "  "
    ensures num.Finite? ==>
      var fp := FixedParts(Magnitude(num.scaled), 2).1;
      EndsWith(r, " / " + (DigitWord(fp[0]) + " " + DigitWord(fp[1])))
  {
    var fixed := ToFixed(num, 2);
    FixedGroups(num);
    var parts := Split(fixed, '.');
    var integerPart := parts[0];
    var decimalPart := if |parts| > 1 then parts[1] else "";
    var intWords := Join(WordsOf(integerPart), " ");
    var decWords := if decimalPart != "" then Join(WordsOf(decimalPart), " ") else "";
    EndsWithJoined(intWords, " / ", decWords);
    if decWords != "" then intWords + " / " + decWords else intWords
  }

  /** The words are never empty, so a report always has its words line. */
  lemma WordsNonEmpty(num: JsNumber)
    ensures ConvertToWords(num) != ""
  {
  }

  lemma EndsWithJoined(a: string, b: string, c: string)
    ensures EndsWith(a + b + c, b + c)
  {
    assert a + b + c == a + (b + c);
  }

  function Magnitude(v: int): nat {
    if v < 0 then -v else v
  }

  /**
   * The two-decimal text splits at the point into the integer digits (signed
   * when negative) and the two fraction digits, whose names join with one
   * space; "NaN" has no point and its three letters have no names.
   */
  lemma FixedGroups(num: JsNumber)
    ensures num.NaN? ==> Split(ToFixed(num, 2), '.') == ["NaN"] && Join(WordsOf("NaN"), " ") == "  "
    ensures num.Finite? ==>
      var fp := FixedParts(Magnitude(num.scaled), 2).1;
      var parts := Split(ToFixed(num, 2), '.');
      && |parts| == 2 && parts[1] == fp
      && Join(WordsOf(fp), " ") == DigitWord(fp[0]) + " " + DigitWord(fp[1]) != ""
  {
    if num.NaN? {
      SplitNoSeparator("NaN", '.');
      assert WordsOf("NaN") == ["", "", ""];
    } else {
      var v := Magnitude(num.scaled);
      FixedSplit(num);
      FractionWords(FixedParts(v, 2).1);
    }
  }

  lemma FixedSplit(num: JsNumber)
    requires num.Finite?
    ensures var parts := Split(ToFixed(num, 2), '.');
      |parts| == 2 && parts[1] == FixedParts(Magnitude(num.scaled), 2).1
  {
    var v := Magnitude(num.scaled);
    if num.scaled < 0 {
      NegativeSplit(v);
    } else {
      ToFixedSplit(v, 2);
    }
  }

  lemma FractionWords(fp: string)
    requires AllDigits(fp) && |fp| == 2
    ensures Join(WordsOf(fp), " ") == DigitWord(fp[0]) + " " + DigitWord(fp[1]) != ""
  {
    DigitWordInverse(fp[0]);
    assert WordsOf(fp) == [DigitWord(fp[0]), DigitWord(fp[1])];
  }

  /** A number's words are its integer group's words, " / ", and its two decimal digits' words. */
  lemma FiniteWords(num: JsNumber)
    requires num.Finite?
    ensures ConvertToWords(num) == Join(WordsOf(Split(ToFixed(num, 2), '.')[0]), " ") + " / "
                                   + Join(WordsOf(FixedParts(Magnitude(num.scaled), 2).1), " ")
  {
    FixedGroups(num);
  }

  /** The inverse of `DigitWord` on the ten digit names. */
  function WordDigit(w: string): (r: Option<char>)
    ensures r.Some? ==> IsDigit(r.value) && DigitWord(r.value) == w
  {
    match w
    case "ZERO" => Some('0')
    case "ONE" => Some('1')
    case "TWO" => Some('2')
    case "THREE" => Some('3')
    case "FOUR" => Some('4')
    case "FIVE" => Some('5')
    case "SIX" => Some('6')
    case "SEVEN" => Some('7')
    case "EIGHT" => Some('8')
    case "NINE" => Some('9')
    case _ => None
  }

  /** Reads a word list back: digit names become digits, "/" becomes the point. */
  function DecodeTokens(ts: seq<string>): Option<string> {
    if |ts| == 0 then Some("")
    else
      var head := if ts[0] == "/" then Some('.') else WordDigit(ts[0]);
      var tail := DecodeTokens(ts[1..]);
      if head.Some? && tail.Some? then Some([head.value] + tail.value) else None
  }

  /** Decodes a `convertToWords` text back into the two-decimal string. */
  function DecodeWords(w: string): Option<string> {
    DecodeTokens(Split(w, ' '))
  }

  lemma DigitWordInverse(c: char)
    requires IsDigit(c)
    ensures WordDigit(DigitWord(c)) == Some(c)
    ensures DigitWord(c) != "" && DigitWord(c) != "/" && ' ' !in DigitWord(c)
  {
  }

  lemma {:induction false} DecodeDigits(s: string)
    requires AllDigits(s)
    ensures DecodeTokens(WordsOf(s)) == Some(s)
  {
    if |s| > 0 {
      assert WordsOf(s)[1..] == WordsOf(s[1..]);
      DecodeDigits(s[1..]);
      DigitWordInverse(s[0]);
      assert [s[0]] + s[1..] == s;
    }
  }

  lemma {:induction false} DecodeAppend(a: seq<string>, b: seq<string>)
    ensures DecodeTokens(a + b) ==
      if DecodeTokens(a).Some? && DecodeTokens(b).Some?
      then Some(DecodeTokens(a).value + DecodeTokens(b).value) else None
  {
    if |a| == 0 {
      assert a + b == b;
      if DecodeTokens(b).Some? {
        assert "" + DecodeTokens(b).value == DecodeTokens(b).value;
      }
    } else {
      assert (a + b)[0] == a[0];
      assert (a + b)[1..] == a[1..] + b;
      DecodeAppend(a[1..], b);
      var head := if a[0] == "/" then Some('.') else WordDigit(a[0]);
      var ta, tb, tab := DecodeTokens(a[1..]), DecodeTokens(b), DecodeTokens(a[1..] + b);
      assert DecodeTokens(a) == if head.Some? && ta.Some? then Some([head.value] + ta.value) else None;
      assert DecodeTokens(a + b) == if head.Some? && tab.Some? then Some([head.value] + tab.value) else None;
      if head.Some? && ta.Some? && tb.Some? {
        assert [head.value] + (ta.value + tb.value) == [head.value] + ta.value + tb.value;
      }
    }
  }

  lemma WordsOfDigitsSpaceFree(s: string)
    requires AllDigits(s)
    ensures forall i :: 0 <= i < |WordsOf(s)| ==> ' ' !in WordsOf(s)[i] && WordsOf(s)[i] != ""
  {
    forall i | 0 <= i < |s| ensures ' ' !in WordsOf(s)[i] && WordsOf(s)[i] != "" {
      DigitWordInverse(s[i]);
    }
  }

  /** For a non-negative value both groups are present, so the text is one join of all the words. */
  lemma WordsText(v: nat)
    ensures var (ip, fp) := FixedParts(v, 2);
      ConvertToWords(Finite(v)) == Join(WordsOf(ip) + ["/"] + WordsOf(fp), " ")
  {
    var (ip, fp) := FixedParts(v, 2);
    WordsGroups(v);
    GroupsJoin(ip, fp);
  }

  /** A non-negative value's words are the two groups' words around " / ". */
  lemma WordsGroups(v: nat)
    ensures var (ip, fp) := FixedParts(v, 2);
      ConvertToWords(Finite(v)) == Join(WordsOf(ip), " ") + " / " + Join(WordsOf(fp), " ")
  {
    ToFixedSplit(v, 2);
    FiniteWords(Finite(v));
  }

  lemma GroupsJoin(ip: string, fp: string)
    requires |ip| >= 1 && |fp| >= 1
    ensures Join(WordsOf(ip) + ["/"] + WordsOf(fp), " ") == Join(WordsOf(ip), " ") + " / " + Join(WordsOf(fp), " ")
  {
    var intWords, decWords := Join(WordsOf(ip), " "), Join(WordsOf(fp), " ");
    JoinAppend(WordsOf(ip), ["/"], " ");
    JoinAppend(WordsOf(ip) + ["/"], WordsOf(fp), " ");
    assert intWords + " " + "/" + " " + decWords == intWords + " / " + decWords;
  }

  /**
   * The words of a non-negative value are the names of its integer digits,
   * then "/", then the names of exactly two fraction digits, all separated by
   * single spaces; the digits named are those of the two-decimal form.
   */
  lemma WordsShape(v: nat)
    ensures var (ip, fp) := FixedParts(v, 2);
      && Split(ConvertToWords(Finite(v)), ' ') == WordsOf(ip) + ["/"] + WordsOf(fp)
      && |fp| == 2
      && DigitsValue(ip) * 100 + DigitsValue(fp) == v
  {
    var (ip, fp) := FixedParts(v, 2);
    FixedPartsValue(v, 2);
    assert Pow10(2) == 100;
    WordsText(v);
    SpaceFreeWords(ip, fp);
    SplitJoin(WordsOf(ip) + ["/"] + WordsOf(fp), ' ');
  }

  lemma SpaceFreeWords(ip: string, fp: string)
    requires AllDigits(ip) && AllDigits(fp)
    ensures var ws := WordsOf(ip) + ["/"] + WordsOf(fp);
      forall i :: 0 <= i < |ws| ==> ' ' !in ws[i]
  {
    var ws := WordsOf(ip) + ["/"] + WordsOf(fp);
    WordsOfDigitsSpaceFree(ip);
    WordsOfDigitsSpaceFree(fp);
    forall i | 0 <= i < |ws| ensures ' ' !in ws[i] {
      if i < |WordsOf(ip)| {
        assert ws[i] == WordsOf(ip)[i];
      } else if i > |WordsOf(ip)| {
        assert ws[i] == WordsOf(fp)[i - |WordsOf(ip)| - 1];
      }
    }
  }

  /** Round trip: the words of a non-negative value decode to its two-decimal text. */
  lemma WordsRoundTrip(v: nat)
    ensures DecodeWords(ConvertToWords(Finite(v))) == Some(ToFixed(Finite(v), 2))
  {
    var (ip, fp) := FixedParts(v, 2);
    WordsShape(v);
    DecodeGroups(ip, fp);
    assert ToFixed(Finite(v), 2) == ip + "." + fp;
  }

  /** The two digit groups around "/" decode to the digits around the point. */
  lemma DecodeGroups(ip: string, fp: string)
    requires AllDigits(ip) && AllDigits(fp)
    ensures DecodeTokens(WordsOf(ip) + ["/"] + WordsOf(fp)) == Some(ip + "." + fp)
  {
    DecodeDigits(ip);
    DecodeDigits(fp);
    assert DecodeTokens(["/"][1..]) == Some("");
    assert ['.'] + "" == ".";
    assert DecodeTokens(["/"]) == Some(".");
    DecodeAppend(WordsOf(ip), ["/"]);
    DecodeAppend(WordsOf(ip) + ["/"], WordsOf(fp));
  }

  /** Distinct non-negative percentages are never read out the same way. */
  lemma WordsInjective(a: nat, b: nat)
    requires ConvertToWords(Finite(a)) == ConvertToWords(Finite(b))
    ensures a == b
  {
    WordsRoundTrip(a);
    WordsRoundTrip(b);
    ToFixedInjective(a, b, 2);
  }

  /** 91.6 is formatted "91.60" and read "NINE ONE / SIX ZERO". */
  lemma NinetyOnePointSixExample()
    ensures ConvertToWords(Finite(9160)) == "NINE ONE / SIX ZERO"
  {
    var w := ConvertToWords(Finite(9160));
    WordsGroups(9160);
    NinetyOnePointSixParts();
    assert w == Join(WordsOf("91"), " ") + " / " + Join(WordsOf("60"), " ");
    NinetyOnePointSixGroups();
    assert w == "NINE ONE" + " / " + "SIX ZERO";
    NinetyOnePointSixText();
  }

  lemma NinetyOnePointSixText()
    ensures "NINE ONE" + " / " + "SIX ZERO" == "NINE ONE / SIX ZERO"
  {
  }

  lemma NinetyOnePointSixGroups()
    ensures Join(WordsOf("91"), " ") == "NINE ONE" && Join(WordsOf("60"), " ") == "SIX ZERO"
  {
    assert WordsOf("91") == ["NINE", "ONE"];
    assert WordsOf("60") == ["SIX", "ZERO"];
    JoinCons("NINE", ["ONE"], " ");
    JoinCons("SIX", ["ZERO"], " ");
  }

  lemma JoinCons(w: string, rest: seq<string>, sep: string)
    requires |rest| >= 1
    ensures Join([w] + rest, sep) == w + sep + Join(rest, sep)
  {
    assert ([w] + rest)[1..] == rest;
  }

  lemma NinetyOnePointSixParts()
    ensures FixedParts(9160, 2) == ("91", "60")
  {
    assert NatToString(9) == "9";
    assert NatToString(91) == "91";
    assert NatToString(916) == "916";
    assert NatToString(9160) == "9160";
    assert PadStart("9160", 3, '0') == "9160";
    assert "9160"[..2] == "91" && "9160"[2..] == "60";
  }

  /**
   * A negative value's minus sign has no name: the word list starts with an
   * empty word, so the text starts with a space and does not decode.
   */
  lemma NegativeHasNamelessSign(v: nat)
    requires v > 0
    ensures var w := ConvertToWords(Finite(-(v as int))); |w| > 0 && w[0] == ' '
  {
    var fp := FixedParts(v, 2).1;
    var lead := NegativeLead(v);
    FiniteWords(Finite(-(v as int)));
    var rest := " / " + Join(WordsOf(fp), " ");
    assert ConvertToWords(Finite(-(v as int))) == lead + rest;
    assert (lead + rest)[0] == lead[0];
  }

  /** The integer group of a negative value opens with the sign's empty word. */
  lemma NegativeLead(v: nat) returns (lead: string)
    requires v > 0
    ensures lead == Join(WordsOf(Split(ToFixed(Finite(-(v as int)), 2), '.')[0]), " ")
    ensures |lead| > 0 && lead[0] == ' '
  {
    var ip := FixedParts(v, 2).0;
    NegativeSplit(v);
    lead := SignedLead(ip);
  }

  lemma SignedLead(ip: string) returns (lead: string)
    requires |ip| >= 1
    ensures lead == Join(WordsOf("-" + ip), " ")
    ensures |lead| > 0 && lead[0] == ' '
  {
    var iw := WordsOf("-" + ip);
    assert iw == [""] + WordsOf(ip);
    JoinCons("", WordsOf(ip), " ");
    lead := Join(iw, " ");
    assert lead == "" + " " + Join(WordsOf(ip), " ");
  }

  /** The text of a negative value splits into the signed integer digits and two fraction digits. */
  lemma NegativeSplit(v: nat)
    requires v > 0
    ensures var (ip, fp) := FixedParts(v, 2);
      Split(ToFixed(Finite(-(v as int)), 2), '.') == ["-" + ip, fp]
  {
    var (ip, fp) := FixedParts(v, 2);
    assert ToFixed(Finite(-(v as int)), 2) == "-" + (ip + "." + fp);
    NoDotInDigits(ip);
    NoDotInDigits(fp);
    assert "-" + (ip + "." + fp) == ("-" + ip) + ['.'] + fp;
    SplitCons("-" + ip, '.', fp);
    SplitNoSeparator(fp, '.');
  }
}
