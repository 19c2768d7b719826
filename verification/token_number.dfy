/**
 * Daily token numbering (`generateTokenNumber`): the day of the month and the
 * month, two digits each, followed by a three-digit sequence number that is one
 * more than the count of records stamped on the same local calendar day, taken
 * over the in-progress list and the completed list together.
 */
module TokenNumbering {
  import opened Text
  import opened Types
  import opened Seqs

  /** The records whose timestamp falls on the calendar day with key `day`. */
  function OnDay(clock: Clock, day: int): TokenData -> bool {
    (t: TokenData) => clock.dayKey(t.timestamp) == day
  }

  /** How many records of `s` are stamped on the same calendar day as `now`. */
  function SameDayCount(clock: Clock, now: int, s: seq<TokenData>): nat {
    |Filter(s, OnDay(clock, clock.dayKey(now)))|
  }

  /** The sequence number printed in the last part of the token number. */
  function SequenceNumber(clock: Clock, now: int, temp: seq<TokenData>, full: seq<TokenData>): nat {
    SameDayCount(clock, now, temp) + SameDayCount(clock, now, full) + 1
  }

  function GenerateTokenNumber(clock: Clock, now: int, temp: seq<TokenData>, full: seq<TokenData>): (r: string)
    ensures AllDigits(r) && |r| >= 7
  {
    var day := PadStart(NatToString(clock.dayOfMonth(now)), 2, '0');
    var month := PadStart(NatToString(clock.monthIndex(now) + 1), 2, '0');
    var sequence := PadStart(NatToString(SequenceNumber(clock, now, temp, full)), 3, '0');
    PadZerosValue(NatToString(clock.dayOfMonth(now)), 2);
    PadZerosValue(NatToString(clock.monthIndex(now) + 1), 2);
    PadZerosValue(NatToString(SequenceNumber(clock, now, temp, full)), 3);
    day + month + sequence
  }

  /** A number below `10^width` is padded to exactly `width` digits. */
  lemma PaddedWidth(n: nat, width: nat)
    requires width >= 1
    ensures n < Pow10(width) <==> |PadStart(NatToString(n), width, '0')| == width
  {
    var s := NatToString(n);
    NatToStringLength(n);
    if |s| > width {
      Pow10Monotone(width, |s| - 1);
    } else {
      Pow10Monotone(|s|, width);
    }
  }

  /**
   * The token number reads back as day, month and sequence number. The
   * sequence part is never truncated: it is three digits long exactly when the
   * sequence number is below 1000, and longer otherwise.
   */
  lemma TokenNumberFields(clock: Clock, now: int, temp: seq<TokenData>, full: seq<TokenData>)
    requires clock.dayOfMonth(now) < 100 && clock.monthIndex(now) + 1 < 100
    ensures var r := GenerateTokenNumber(clock, now, temp, full);
      var n := SequenceNumber(clock, now, temp, full);
      && |r| >= 7
      && DigitsValue(r[..2]) == clock.dayOfMonth(now)
      && DigitsValue(r[2..4]) == clock.monthIndex(now) + 1
      && DigitsValue(r[4..]) == n
      && (n < 1000 <==> |r| == 7)
  {
    var n := SequenceNumber(clock, now, temp, full);
    var day := PadStart(NatToString(clock.dayOfMonth(now)), 2, '0');
    var month := PadStart(NatToString(clock.monthIndex(now) + 1), 2, '0');
    var sequence := PadStart(NatToString(n), 3, '0');
    assert GenerateTokenNumber(clock, now, temp, full) == day + month + sequence;
    FieldsOf(clock.dayOfMonth(now), clock.monthIndex(now) + 1, n);
  }

  /** Day, month and sequence, padded and concatenated, read back field by field. */
  lemma FieldsOf(d: nat, m: nat, n: nat)
    requires d < 100 && m < 100
    ensures var day := PadStart(NatToString(d), 2, '0');
      var month := PadStart(NatToString(m), 2, '0');
      var sequence := PadStart(NatToString(n), 3, '0');
      var r := day + month + sequence;
      && |r| >= 7
      && DigitsValue(r[..2]) == d
      && DigitsValue(r[2..4]) == m
      && DigitsValue(r[4..]) == n
      && (n < 1000 <==> |r| == 7)
  {
    var day := PadStart(NatToString(d), 2, '0');
    var month := PadStart(NatToString(m), 2, '0');
    var sequence := PadStart(NatToString(n), 3, '0');
    assert Pow10(2) == 100 && Pow10(3) == 1000;
    PaddedField(d, 2);
    PaddedField(m, 2);
    PadZerosValue(NatToString(n), 3);
    PaddedWidth(n, 3);
    SliceThree(day, month, sequence);
  }

  lemma PaddedField(n: nat, width: nat)
    requires width >= 1 && n < Pow10(width)
    ensures var f := PadStart(NatToString(n), width, '0');
      |f| == width && AllDigits(f) && DigitsValue(f) == n
  {
    PaddedWidth(n, width);
    PadZerosValue(NatToString(n), width);
  }

  lemma SliceThree(a: string, b: string, c: string)
    requires |a| == 2 && |b| == 2
    ensures var r := a + b + c; r[..2] == a && r[2..4] == b && r[4..] == c
  {
  }

  /** A record stamped on another day never changes the token number. */
  lemma OtherDayIgnored(clock: Clock, now: int, a: seq<TokenData>, x: TokenData, b: seq<TokenData>,
                        other: seq<TokenData>)
    requires clock.dayKey(x.timestamp) != clock.dayKey(now)
    ensures GenerateTokenNumber(clock, now, a + [x] + b, other) == GenerateTokenNumber(clock, now, a + b, other)
    ensures GenerateTokenNumber(clock, now, other, a + [x] + b) == GenerateTokenNumber(clock, now, other, a + b)
  {
    var p := OnDay(clock, clock.dayKey(now));
    FilterAppend(a + [x], b, p);
    FilterAppend(a, [x], p);
    FilterAppend(a, b, p);
    assert Filter([x], p) == [];
    assert SameDayCount(clock, now, a + [x] + b) == SameDayCount(clock, now, a + b);
    assert SequenceNumber(clock, now, a + [x] + b, other) == SequenceNumber(clock, now, a + b, other);
    assert SequenceNumber(clock, now, other, a + [x] + b) == SequenceNumber(clock, now, other, a + b);
  }

  /** A record stamped on the same day, in either list, advances the sequence by one. */
  lemma SameDayCounted(clock: Clock, now: int, a: seq<TokenData>, x: TokenData, b: seq<TokenData>,
                       other: seq<TokenData>)
    requires clock.dayKey(x.timestamp) == clock.dayKey(now)
    ensures SequenceNumber(clock, now, a + [x] + b, other) == SequenceNumber(clock, now, a + b, other) + 1
    ensures SequenceNumber(clock, now, other, a + [x] + b) == SequenceNumber(clock, now, other, a + b) + 1
  {
    var p := OnDay(clock, clock.dayKey(now));
    FilterAppend(a + [x], b, p);
    FilterAppend(a, [x], p);
    FilterAppend(a, b, p);
  }

  /** 5 March with four records already stamped that day gives "0503005". */
  lemma FifthOfMarchExample(clock: Clock, now: int, temp: seq<TokenData>, full: seq<TokenData>)
    requires clock.dayOfMonth(now) == 5 && clock.monthIndex(now) == 2
    requires SameDayCount(clock, now, temp) + SameDayCount(clock, now, full) == 4
    ensures GenerateTokenNumber(clock, now, temp, full) == "0503005"
  {
    assert NatToString(5) == "5";
    assert NatToString(3) == "3";
  }
}
