/**
 * `datetime.strptime` for the two formats the bots use. Python compiles a
 * format into a regular expression (each blank in the format becomes `\s+`),
 * matches it at the start of the text, and raises `ValueError` when the match
 * fails, when text is left over after it, or when the fields do not form a
 * valid date. The directives used here match:
 *
 *   %d  `3[01]|[12]\d|0[1-9]|[1-9]| [1-9]`     %Y  `\d\d\d\d`
 *   %m  `1[0-2]|0[1-9]|[1-9]`                  %H  `2[0-3]|[0-1]\d|\d`
 *   %M  `[0-5]\d|\d`
 *
 * No directive's text contains `-`, `:` or whitespace (apart from the
 * leading blank `%d` allows), so each field is exactly the text up to the
 * next separator, and the last one must be all that is left; the parsers split
 * the text that way and test each field against its directive.
 */
module Strptime {
  import opened Wrappers
  import opened PyText
  import opened Calendar

  /** The first position of `c` in `s`. */
  function IndexOf(s: string, c: char): (r: Option<nat>)
    ensures r.Some? ==> r.value < |s| && s[r.value] == c && c !in s[..r.value]
    ensures r.None? ==> c !in s
  {
    if s == [] then None
    else if s[0] == c then Some(0)
    else match IndexOf(s[1..], c)
      case None => None
      case Some(i) => assert s[..i + 1] == [s[0]] + s[1..][..i]; Some(i + 1)
  }

  predicate InRange(c: char, lo: char, hi: char) {
    lo <= c <= hi
  }

  /** `%d` */
  predicate DayField(t: string) {
    || (|t| == 2 && t[0] == '3' && InRange(t[1], '0', '1'))
    || (|t| == 2 && InRange(t[0], '1', '2') && IsDigit(t[1]))
    || (|t| == 2 && t[0] == '0' && InRange(t[1], '1', '9'))
    || (|t| == 1 && InRange(t[0], '1', '9'))
    || (|t| == 2 && t[0] == ' ' && InRange(t[1], '1', '9'))
  }

  /** `%m` */
  predicate MonthField(t: string) {
    || (|t| == 2 && t[0] == '1' && InRange(t[1], '0', '2'))
    || (|t| == 2 && t[0] == '0' && InRange(t[1], '1', '9'))
    || (|t| == 1 && InRange(t[0], '1', '9'))
  }

  /** `%Y` */
  predicate YearField(t: string) {
    |t| == 4 && AllDigits(t)
  }

  /** `%H` */
  predicate HourField(t: string) {
    || (|t| == 2 && t[0] == '2' && InRange(t[1], '0', '3'))
    || (|t| == 2 && InRange(t[0], '0', '1') && IsDigit(t[1]))
    || (|t| == 1 && IsDigit(t[0]))
  }

  /** `%M` */
  predicate MinuteField(t: string) {
    || (|t| == 2 && InRange(t[0], '0', '5') && IsDigit(t[1]))
    || (|t| == 1 && IsDigit(t[0]))
  }

  predicate NumericField(t: string) {
    AllDigits(t) || (|t| > 0 && t[0] == ' ' && AllDigits(t[1..]))
  }

  /** `int(field)`, which ignores the blank `%d` may start with. */
  function FieldValue(t: string): nat
    requires NumericField(t)
  {
    if AllDigits(t) then DigitsValue(t) else DigitsValue(t[1..])
  }

  lemma OneDigit(t: string)
    requires |t| == 1 && AllDigits(t)
    ensures DigitsValue(t) == DigitValue(t[0])
  {
    assert t[..0] == [];
  }

  lemma TwoDigits(t: string)
    requires |t| == 2 && AllDigits(t)
    ensures DigitsValue(t) == DigitValue(t[0]) * 10 + DigitValue(t[1])
  {
    OneDigit(t[..1]);
  }

  lemma DayRange(t: string)
    requires DayField(t)
    ensures NumericField(t) && 1 <= FieldValue(t) <= 31
  {
    if |t| == 1 { OneDigit(t); }
    else if t[0] == ' ' { OneDigit(t[1..]); }
    else { TwoDigits(t); }
  }

  lemma MonthRange(t: string)
    requires MonthField(t)
    ensures NumericField(t) && 1 <= FieldValue(t) <= 12
  {
    if |t| == 1 { OneDigit(t); } else { TwoDigits(t); }
  }

  lemma HourRange(t: string)
    requires HourField(t)
    ensures NumericField(t) && FieldValue(t) <= 23
  {
    if |t| == 1 { OneDigit(t); } else { TwoDigits(t); }
  }

  lemma MinuteRange(t: string)
    requires MinuteField(t)
    ensures NumericField(t) && FieldValue(t) <= 59
  {
    if |t| == 1 { OneDigit(t); } else { TwoDigits(t); }
  }

  /**
   * The date the three fields name, or `None` where a field does not match
   * its directive or the `date` constructor rejects the day.
   */
  function FieldsDate(y: string, m: string, d: string): (r: Option<Date>)
    ensures r.Some? ==> ValidDate(r.value)
  {
    if YearField(y) && MonthField(m) && DayField(d) then
      MonthRange(m); DayRange(d);
      var date := Date(FieldValue(y), FieldValue(m), FieldValue(d));
      if ValidDate(date) then Some(date) else None
    else None
  }

  /** The hour and minute of `HH:MM` (`%H:%M` with nothing after it). */
  function ParseClock(clock: string): (r: Option<(int, int)>)
    ensures r.Some? ==> 0 <= r.value.0 < 24 && 0 <= r.value.1 < 60
  {
    match IndexOf(clock, ':')
    case None => None
    case Some(c) =>
      var (h, min) := (clock[..c], clock[c + 1..]);
      if HourField(h) && MinuteField(min) then
        HourRange(h); MinuteRange(min);
        Some((FieldValue(h), FieldValue(min)))
      else None
  }

  /**
   * `datetime.strptime(text, "%d-%m-%Y").date()`, `None` where it raises.
   * Every date it yields is a valid calendar date.
   */
  function ParseDayMonthYear(text: string): (r: Option<Date>)
    ensures r.Some? ==> ValidDate(r.value)
  {
    match IndexOf(text, '-')
    case None => None
    case Some(i) =>
      var rest := text[i + 1..];
      match IndexOf(rest, '-')
      case None => None
      case Some(j) => FieldsDate(rest[j + 1..], rest[..j], text[..i])
  }

  /**
   * Splits the text after the second `-` of `%Y-%m-%d %H:%M` into the day
   * field and what follows the run of whitespace after it. The day field is
   * one character, or two when the second is not whitespace.
   */
  function SplitAtBlank(s: string): (r: Option<(string, string)>)
    ensures r.Some? ==> |r.value.0| <= 2 && (r.value.1 == [] || !IsSpace(r.value.1[0]))
  {
    var k := if |s| >= 2 && IsSpace(s[1]) then 1 else 2;
    if |s| <= k || !IsSpace(s[k]) then None else Some((s[..k], TrimStart(StrWhitespace, s[k..])))
  }

  /**
   * `datetime.strptime(text, "%Y-%m-%d %H:%M")`, `None` where it raises.
   * Every instant it yields is valid and falls on a whole minute.
   */
  function ParseDateTime(text: string): (r: Option<DateTime>)
    ensures r.Some? ==> ValidDateTime(r.value) && r.value.second == 0 && r.value.microsecond == 0
  {
    if |text| < 5 || text[4] != '-' then None
    else
      var afterYear := text[5..];
      match IndexOf(afterYear, '-')
      case None => None
      case Some(j) =>
        match SplitAtBlank(afterYear[j + 1..])
        case None => None
        case Some(parts) =>
          match FieldsDate(text[..4], afterYear[..j], parts.0)
          case None => None
          case Some(date) =>
            match ParseClock(parts.1)
            case None => None
            case Some(hm) => Some(DateTime(date, hm.0, hm.1, 0, 0))
  }

  /** Two digits with a leading zero, as `%02d` writes `n`. */
  function Pad2(n: nat): (s: string)
    requires n < 100
    ensures |s| == 2 && AllDigits(s) && DigitsValue(s) == n
  {
    var s := [DigitChar(n / 10), DigitChar(n % 10)];
    TwoDigits(s);
    s
  }

  /** Four digits with leading zeros, as `%04d` writes `n`. */
  function Pad4(n: nat): (s: string)
    requires n < 10000
    ensures |s| == 4 && AllDigits(s) && DigitsValue(s) == n
  {
    var s := Pad2(n / 100) + Pad2(n % 100);
    assert s[..3] == Pad2(n / 100) + [s[2]];
    assert s[..3][..2] == Pad2(n / 100);
    s
  }

  /** A date written the way the birthday bot asks for it, `DD-MM-YYYY`. */
  function FormatDayMonthYear(d: Date): string
    requires ValidDate(d)
  {
    Pad2(d.day) + "-" + Pad2(d.month) + "-" + Pad4(d.year)
  }

  /** An instant written the way the reminder bot asks for it, `YYYY-MM-DD HH:MM`. */
  function FormatDateTime(t: DateTime): string
    requires ValidDateTime(t)
  {
    Pad4(t.date.year) + "-" + Pad2(t.date.month) + "-" + Pad2(t.date.day) + " " + Pad2(t.hour) + ":" + Pad2(t.minute)
  }

  lemma PaddedFields(d: Date)
    requires ValidDate(d)
    ensures DayField(Pad2(d.day)) && FieldValue(Pad2(d.day)) == d.day
    ensures MonthField(Pad2(d.month)) && FieldValue(Pad2(d.month)) == d.month
    ensures YearField(Pad4(d.year)) && FieldValue(Pad4(d.year)) == d.year
  {
  }

  lemma PaddedClock(h: nat, m: nat)
    requires h < 24 && m < 60
    ensures HourField(Pad2(h)) && FieldValue(Pad2(h)) == h
    ensures MinuteField(Pad2(m)) && FieldValue(Pad2(m)) == m
  {
  }

  lemma FieldsOfPaddedDate(d: Date)
    requires ValidDate(d)
    ensures FieldsDate(Pad4(d.year), Pad2(d.month), Pad2(d.day)) == Some(d)
  {
    PaddedFields(d);
  }

  lemma ClockOfPadded(h: nat, m: nat)
    requires h < 24 && m < 60
    ensures ParseClock(Pad2(h) + ":" + Pad2(m)) == Some((h, m))
  {
    var clock := Pad2(h) + ":" + Pad2(m);
    PaddedClock(h, m);
    assert IndexOf(clock, ':') == Some(2) by {
      assert clock[2] == ':' && clock[..2] == Pad2(h);
    }
    assert clock[..2] == Pad2(h) && clock[3..] == Pad2(m);
  }

  /** Every valid date, typed as `DD-MM-YYYY`, is read back as itself. */
  lemma ParseFormattedDate(d: Date)
    requires ValidDate(d)
    ensures ParseDayMonthYear(FormatDayMonthYear(d)) == Some(d)
  {
    var (ds, ms, ys) := (Pad2(d.day), Pad2(d.month), Pad4(d.year));
    var text := FormatDayMonthYear(d);
    FieldsOfPaddedDate(d);
    assert text == ds + "-" + (ms + "-" + ys);
    assert IndexOf(text, '-') == Some(2) by {
      assert text[2] == '-' && text[..2] == ds;
    }
    var rest := text[3..];
    assert rest == ms + "-" + ys;
    assert IndexOf(rest, '-') == Some(2) by {
      assert rest[2] == '-' && rest[..2] == ms;
    }
    assert text[..2] == ds && rest[..2] == ms && rest[3..] == ys;
  }

  lemma SplitAtBlankOfPadded(ds: string, clock: string)
    requires |ds| == 2 && !IsSpace(ds[1]) && (clock == [] || !IsSpace(clock[0]))
    ensures SplitAtBlank(ds + " " + clock) == Some((ds, clock))
  {
    var s := ds + " " + clock;
    assert s[1] == ds[1] && s[2] == ' ';
    assert s[..2] == ds && s[2..] == " " + clock;
    TrimStartOfPadded(StrWhitespace, " ", clock);
  }

  /** The first `c` is the one right after a prefix without any. */
  lemma IndexOfFirst(a: string, c: char, b: string)
    requires c !in a
    ensures IndexOf(a + [c] + b, c) == Some(|a|)
  {
    var s := a + [c] + b;
    assert s[|a|] == c && s[..|a|] == a;
  }

  /** Where `%Y-%m-%d %H:%M`'s parser finds the year, the month and the rest. */
  lemma SplitAfterYear(ys: string, ms: string, tail: string)
    requires |ys| == 4 && '-' !in ms
    ensures var text := ys + "-" + ms + "-" + tail;
      && |text| >= 5 && text[4] == '-' && text[..4] == ys
      && IndexOf(text[5..], '-') == Some(|ms|)
      && text[5..][..|ms|] == ms && text[5..][|ms| + 1..] == tail
  {
    var text := ys + "-" + ms + "-" + tail;
    assert text == ys + "-" + (ms + "-" + tail);
    assert text[5..] == ms + "-" + tail;
    IndexOfFirst(ms, '-', tail);
  }

  /** `%Y-%m-%d %H:%M` read field by field, whatever the fields' text. */
  lemma ParseDateTimeOfFields(ys: string, ms: string, ds: string, hs: string, mins: string, date: Date, hm: (int, int))
    requires |ys| == 4 && '-' !in ms
    requires SplitAtBlank(ds + " " + (hs + ":" + mins)) == Some((ds, hs + ":" + mins))
    requires FieldsDate(ys, ms, ds) == Some(date) && ParseClock(hs + ":" + mins) == Some(hm)
    ensures ParseDateTime(ys + "-" + ms + "-" + ds + " " + hs + ":" + mins) == Some(DateTime(date, hm.0, hm.1, 0, 0))
  {
    Reassociate(ys + "-" + ms + "-", ds, hs, mins);
    SplitAfterYear(ys, ms, ds + " " + (hs + ":" + mins));
  }

  lemma Reassociate(head: string, ds: string, hs: string, mins: string)
    ensures head + ds + " " + hs + ":" + mins == head + (ds + " " + (hs + ":" + mins))
  {
    var front := head + ds + " ";
    assert front + hs + ":" + mins == front + (hs + ":" + mins);
  }

  /** Every valid whole-minute instant, typed as `YYYY-MM-DD HH:MM`, is read back as itself. */
  lemma ParseFormattedDateTime(t: DateTime)
    requires ValidDateTime(t) && t.second == 0 && t.microsecond == 0
    ensures ParseDateTime(FormatDateTime(t)) == Some(t)
  {
    var d := t.date;
    var (ys, ms, ds) := (Pad4(d.year), Pad2(d.month), Pad2(d.day));
    var (hs, mins) := (Pad2(t.hour), Pad2(t.minute));
    FieldsOfPaddedDate(d);
    ClockOfPadded(t.hour, t.minute);
    SplitAtBlankOfPadded(ds, hs + ":" + mins);
    assert '-' !in ms;
    ParseDateTimeOfFields(ys, ms, ds, hs, mins, d, (t.hour, t.minute));
  }
}
