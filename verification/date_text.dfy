/** The two date-label formatters: the first version's (helpers.js), "Mar 7",
    and the later one's (src/utils/format-date.js), "Mar 07". Both take the
    month index and the day of the month that `Date` decomposition yields
    (`getMonth()` in 0..11, `getDate()` in 1..31); the year plays no part. */
module DateText {

  const MonthNames: seq<string> :=
    ["Jan", "Feb", "Mar", "Apr", "May", "Jun", "Jul", "Aug", "Sep", "Oct", "Nov", "Dec"]

  predicate ValidDay(month: int, day: int) {
    0 <= month < 12 && 1 <= day <= 31
  }

  function DigitChar(d: nat): char
    requires d < 10
  {
    "0123456789"[d]
  }

  predicate IsDigit(c: char) {
    '0' <= c <= '9'
  }

  function DigitValue(c: char): nat
    requires IsDigit(c)
  {
    (c - '0') as nat
  }

  /** The decimal text of a number, as template interpolation writes it. */
  function NatText(n: nat): (s: string)
    ensures |s| > 0
    ensures forall i :: 0 <= i < |s| ==> IsDigit(s[i])
    ensures n < 10 <==> |s| == 1
    ensures 10 <= n < 100 ==> |s| == 2
  {
    if n < 10 then [DigitChar(n)] else NatText(n / 10) + [DigitChar(n % 10)]
  }

  /** Reading a string of digits back as a number. */
  function ParseDigits(s: string): nat
    requires forall i :: 0 <= i < |s| ==> IsDigit(s[i])
  {
    if |s| == 0 then 0
    else ParseDigits(s[..|s| - 1]) * 10 + DigitValue(s[|s| - 1])
  }

  lemma DigitRoundTrip(d: nat)
    requires d < 10
    ensures IsDigit(DigitChar(d)) && DigitValue(DigitChar(d)) == d
  {
  }

  /** The decimal text reads back as the number: the text is unambiguous. */
  lemma {:induction false} NatTextRoundTrip(n: nat)
    ensures ParseDigits(NatText(n)) == n
  {
    var s := NatText(n);
    if n < 10 {
      DigitRoundTrip(n);
      assert s[..0] == [];
    } else {
      NatTextRoundTrip(n / 10);
      DigitRoundTrip(n % 10);
      assert s[..|s| - 1] == NatText(n / 10);
    }
  }

  /** helpers.js formatDate: month abbreviation, a space, the unpadded day. */
  function FormatShort(month: nat, day: nat): (s: string)
    requires ValidDay(month, day)
    ensures |s| == 5 || |s| == 6
    ensures s[..4] == MonthNames[month] + " "
    ensures s[4..] == NatText(day)
  {
    MonthNames[month] + " " + NatText(day)
  }

  /** The day part of src/utils/format-date.js: days above 9 as they are,
      the others behind a `0`. */
  function PaddedDay(day: nat): (s: string)
    requires day <= 31
    ensures |s| == 2
    ensures forall i :: 0 <= i < |s| ==> IsDigit(s[i])
  {
    if day > 9 then NatText(day) else "0" + NatText(day)
  }

  /** src/utils/format-date.js formatDate: month abbreviation, a space, the
      day in two digits, six characters in all. */
  function FormatPadded(month: nat, day: nat): (s: string)
    requires ValidDay(month, day)
    ensures |s| == 6
    ensures s[..4] == MonthNames[month] + " "
    ensures forall i :: 4 <= i < 6 ==> IsDigit(s[i])
  {
    MonthNames[month] + " " + PaddedDay(day)
  }

  /** The padded day reads back as the day. */
  lemma PaddedDayRoundTrip(day: nat)
    requires day <= 31
    ensures ParseDigits(PaddedDay(day)) == day
  {
    NatTextRoundTrip(day);
    if day <= 9 {
      var s := PaddedDay(day);
      DigitRoundTrip(day);
      assert s[..1] == "0";
      assert s[..1][..0] == [];
    }
  }

  /** Reading a month abbreviation back as its index. */
  function MonthIndex(name: string): (r: int)
    ensures r == -1 || (0 <= r < 12 && MonthNames[r] == name)
  {
    if name == "Jan" then 0 else if name == "Feb" then 1 else if name == "Mar" then 2
    else if name == "Apr" then 3 else if name == "May" then 4 else if name == "Jun" then 5
    else if name == "Jul" then 6 else if name == "Aug" then 7 else if name == "Sep" then 8
    else if name == "Oct" then 9 else if name == "Nov" then 10 else if name == "Dec" then 11
    else -1
  }

  /** Reading a padded label back: the month from its first three
      characters, the day from its last two. */
  function ParsePadded(s: string): (r: ParsedDate)
    requires |s| == 6 && IsDigit(s[4]) && IsDigit(s[5])
  {
    var m := MonthIndex(s[..3]);
    if m < 0 then NoDate else Date(m, ParseDigits(s[4..]))
  }

  datatype ParsedDate = NoDate | Date(month: nat, day: nat)

  /** The padded label reads back as the month and day it was made from. */
  lemma PaddedRoundTrip(month: nat, day: nat)
    requires ValidDay(month, day)
    ensures var s := FormatPadded(month, day); ParsePadded(s) == Date(month, day)
  {
    var s := FormatPadded(month, day);
    assert s[..3] == MonthNames[month];
    assert s[4..] == PaddedDay(day);
    PaddedDayRoundTrip(day);
  }

  /** Distinct month and day pairs give distinct padded labels. */
  lemma PaddedInjective(m1: nat, d1: nat, m2: nat, d2: nat)
    requires ValidDay(m1, d1) && ValidDay(m2, d2)
    requires FormatPadded(m1, d1) == FormatPadded(m2, d2)
    ensures m1 == m2 && d1 == d2
  {
    PaddedRoundTrip(m1, d1);
    PaddedRoundTrip(m2, d2);
  }

  /** Distinct month and day pairs give distinct short labels too. */
  lemma ShortInjective(m1: nat, d1: nat, m2: nat, d2: nat)
    requires ValidDay(m1, d1) && ValidDay(m2, d2)
    requires FormatShort(m1, d1) == FormatShort(m2, d2)
    ensures m1 == m2 && d1 == d2
  {
    var s := FormatShort(m1, d1);
    assert MonthNames[m1] == s[..3] == MonthNames[m2];
    assert MonthIndex(MonthNames[m1]) == m1;
    assert MonthIndex(MonthNames[m2]) == m2;
    NatTextRoundTrip(d1);
    NatTextRoundTrip(d2);
  }
}
