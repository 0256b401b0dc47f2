/** The natural-language date phrase shown by the popup (for "now") and by
    the options page (for every stored note), e.g.
    "Monday, January 1st, 2025 - 3:45 pm". Both pages carry the same
    formatter; it is defined once here. */
module NaturalDate {
  import opened Wrappers
  import opened JsText

  /** The local-time fields of a JavaScript Date, as `getDay()`,
      `getMonth()`, `getDate()`, `getFullYear()`, `getHours()` and
      `getMinutes()` return them. */
  datatype DateFields = DateFields(weekday: int, month: int, day: int, year: int, hour: int, minute: int) {
    predicate Valid() {
      && 0 <= weekday < 7
      && 0 <= month < 12
      && 1 <= day <= 31
      && 0 <= hour < 24
      && 0 <= minute < 60
    }
  }

  /** The fields of a valid Date (calendar consistency is the Date's business, not the formatter's). */
  type LocalDate = d: DateFields | d.Valid() witness DateFields(4, 0, 1, 1970, 0, 0)

  const Weekdays: seq<string> := ["Sunday", "Monday", "Tuesday", "Wednesday", "Thursday", "Friday", "Saturday"]
  const Months: seq<string> := ["January", "February", "March", "April", "May", "June",
                                "July", "August", "September", "October", "November", "December"]

  /** The suffix as the formatter's if-chain picks it. */
  function OrdinalSuffix(day: int): string {
    if day == 1 || day == 21 || day == 31 then "st"
    else if day == 2 || day == 22 then "nd"
    else if day == 3 || day == 23 then "rd"
    else "th"
  }

  /** The English rule for ordinals: the teens take "th"; otherwise the last digit decides. */
  function EnglishOrdinalSuffix(n: nat): string {
    if n % 100 / 10 == 1 then "th"
    else if n % 10 == 1 then "st"
    else if n % 10 == 2 then "nd"
    else if n % 10 == 3 then "rd"
    else "th"
  }

  /** On every day of a month, the if-chain agrees with the English rule (11, 12 and 13 included). */
  lemma OrdinalSuffixIsEnglish(day: int)
    requires 1 <= day <= 31
    ensures OrdinalSuffix(day) == EnglishOrdinalSuffix(day)
  {
    if day < 10 {
    } else if day < 20 {
      assert day % 100 / 10 == 1;
    } else if day < 30 {
      assert day % 100 / 10 == 2 && day % 10 == day - 20;
    } else {
      assert day % 100 / 10 == 3 && day % 10 == day - 30;
    }
  }

  /** `hours % 12 || 12`: the hour on a twelve-hour clock. */
  function Hour12(hour: int): (h: int)
    requires 0 <= hour < 24
    ensures 1 <= h <= 12
    ensures h % 12 == hour % 12
  {
    var h := hour % 12;
    if h == 0 then 12 else h
  }

  function Meridiem(hour: int): string {
    if hour >= 12 then "pm" else "am"
  }

  /** The twelve-hour conversion, hour by hour. */
  lemma ClockTable(hour: int)
    requires 0 <= hour < 24
    ensures hour == 0 || hour == 12 ==> Hour12(hour) == 12
    ensures 1 <= hour <= 11 ==> Hour12(hour) == hour
    ensures 13 <= hour <= 23 ==> Hour12(hour) == hour - 12
    ensures Meridiem(hour) == "pm" <==> hour >= 12
  {
  }

  /** Reads a twelve-hour clock reading back as an hour of the day. */
  function To24(h12: int, meridiem: string): int {
    if meridiem == "am" then (if h12 == 12 then 0 else h12)
    else (if h12 == 12 then 12 else h12 + 12)
  }

  /** The displayed hour together with am/pm determines the hour of the day. */
  lemma ClockRoundTrip(hour: int)
    requires 0 <= hour < 24
    ensures To24(Hour12(hour), Meridiem(hour)) == hour
  {
  }

  /** `String(minutes).padStart(2, '0')`. */
  function Minutes2(minute: nat): string {
    PadStart2(NatToString(minute))
  }

  /** `formatNaturalDate`:
      "<Weekday>, <Month> <Day><suffix>, <Year> - <h>:<mm> <am|pm>". */
  function FormatNaturalDate(d: LocalDate): string {
    Weekdays[d.weekday] + ", " + Months[d.month] + " "
      + NatToString(d.day) + OrdinalSuffix(d.day) + ", " + IntToString(d.year) + " - "
      + NatToString(Hour12(d.hour)) + ":" + Minutes2(d.minute) + " " + Meridiem(d.hour)
  }

  /** The prefix of `FormatNaturalDate(d)` before its ":" (the weekday
      through the hour); `FormatEnding` states how the phrase continues. */
  function FormatHead(d: LocalDate): string {
    Weekdays[d.weekday] + ", " + Months[d.month] + " "
      + NatToString(d.day) + OrdinalSuffix(d.day) + ", " + IntToString(d.year) + " - "
      + NatToString(Hour12(d.hour))
  }

  /** Generic half of `FormatEnding`: what the last six characters of
      p + ":" + mm + " " + a say. */
  lemma EndPieces(p: string, mm: string, a: string, minute: nat, hour: int)
    requires |mm| == 2 && AllDigits(mm) && DigitsValue(mm) == minute
    requires minute < 10 ==> mm[0] == '0'
    requires |a| == 2 && (a == "pm" <==> hour >= 12) && (a == "am" <==> hour < 12)
    ensures var r := p + ":" + mm + " " + a;
      && |r| >= 6 && r[|r| - 6] == ':' && r[|r| - 3] == ' '
      && AllDigits(r[|r| - 5..|r| - 3]) && DigitsValue(r[|r| - 5..|r| - 3]) == minute
      && (minute < 10 ==> r[|r| - 5] == '0')
      && (r[|r| - 2..] == "pm" <==> hour >= 12)
      && (r[|r| - 2..] == "am" <==> hour < 12)
  {
    var r := p + ":" + mm + " " + a;
    assert r[|r| - 5..|r| - 3] == mm;
    assert r[|r| - 5] == mm[0];
    assert r[|r| - 2..] == a;
  }

  /** The phrase ends in ":<mm> <am|pm>": the minutes as exactly two digits
      (a leading zero below ten) and "pm" exactly from noon on. */
  lemma FormatEnding(d: LocalDate)
    ensures var r := FormatNaturalDate(d);
      && |r| >= 6 && r[|r| - 6] == ':' && r[|r| - 3] == ' '
      && AllDigits(r[|r| - 5..|r| - 3]) && DigitsValue(r[|r| - 5..|r| - 3]) == d.minute
      && (d.minute < 10 ==> r[|r| - 5] == '0')
      && (r[|r| - 2..] == "pm" <==> d.hour >= 12)
      && (r[|r| - 2..] == "am" <==> d.hour < 12)
  {
    TwoDigits(d.minute);
    EndPieces(FormatHead(d), Minutes2(d.minute), Meridiem(d.hour), d.minute, d.hour);
    assert FormatNaturalDate(d) == FormatHead(d) + ":" + Minutes2(d.minute) + " " + Meridiem(d.hour);
  }

  // ---------------------------------------------------------------------
  // Reading a phrase back

  function IndexOf(names: seq<string>, name: string): (r: Option<nat>)
    ensures r.Some? ==> r.value < |names| && names[r.value] == name
  {
    if names == [] then None
    else if names[0] == name then Some(0)
    else
      var k :- IndexOf(names[1..], name);
      Some(k + 1)
  }

  /** Generic half of reading names back: a name that no earlier entry equals is found at its own index. */
  lemma {:induction false} IndexOfDistinct(names: seq<string>, i: nat)
    requires i < |names|
    requires forall j :: 0 <= j < i ==> names[j] != names[i]
    ensures IndexOf(names, names[i]) == Some(i)
  {
    if i > 0 {
      assert names[1..][i - 1] == names[i];
      IndexOfDistinct(names[1..], i - 1);
    }
  }

  /** No name contains c. */
  predicate NoneContains(names: seq<string>, c: char) {
    forall i :: 0 <= i < |names| ==> c !in names[i]
  }

  /** No name occurs twice. */
  predicate Distinct(names: seq<string>) {
    forall i, j :: 0 <= j < i < |names| ==> names[j] != names[i]
  }

  lemma WeekdayNames(i: nat)
    requires i < 7
    ensures IndexOf(Weekdays, Weekdays[i]) == Some(i)
    ensures ',' !in Weekdays[i]
  {
    assert Distinct(Weekdays);
    assert NoneContains(Weekdays, ',');
    IndexOfDistinct(Weekdays, i);
  }

  lemma MonthsDistinct()
    ensures Distinct(Months)
  {
  }

  lemma MonthsHaveNoSpace()
    ensures NoneContains(Months, ' ')
  {
  }

  lemma MonthNames(i: nat)
    requires i < 12
    ensures IndexOf(Months, Months[i]) == Some(i)
    ensures ' ' !in Months[i]
  {
    MonthsDistinct();
    MonthsHaveNoSpace();
    IndexOfDistinct(Months, i);
  }

  /** The inverse of the formatter: recovers the date fields from a phrase,
      or None for text that is not laid out as the formatter lays it out. */
  function ParseNaturalDate(s: string): Option<DateFields> {
    var p1 :- SplitAtFirst(s, ',');
    var weekday :- IndexOf(Weekdays, p1.before);
    var md :- ParseMonthDay(p1.after);
    var yr :- ParseYear(md.2);
    var hm :- ParseTime(yr.1);
    Some(DateFields(weekday, md.0, md.1, yr.0, hm.0, hm.1))
  }

  /** " <Month> <Day><suffix>," followed by the rest. */
  function ParseMonthDay(r1: string): Option<(int, int, string)> {
    if |r1| == 0 || r1[0] != ' ' then None else
    var p2 :- SplitAtFirst(r1[1..], ' ');
    var month :- IndexOf(Months, p2.before);
    var p3 :- SplitAtFirst(p2.after, ',');
    var daySuffix := p3.before;
    if |daySuffix| < 3 || !AllDigits(daySuffix[..|daySuffix| - 2]) then None else
    var day := DigitsValue(daySuffix[..|daySuffix| - 2]);
    if daySuffix[|daySuffix| - 2..] != OrdinalSuffix(day) then None else
    Some((month, day, p3.after))
  }

  /** " <Year> " followed by the rest. */
  function ParseYear(r3: string): Option<(int, string)> {
    if |r3| == 0 || r3[0] != ' ' then None else
    var p4 :- SplitAtFirst(r3[1..], ' ');
    var year :- ParseInt(p4.before);
    Some((year, p4.after))
  }

  /** "- <h>:<mm> <am|pm>". */
  function ParseTime(r4: string): Option<(int, int)> {
    if |r4| < 2 || r4[..2] != "- " then None else
    var p5 :- SplitAtFirst(r4[2..], ':');
    var hs, r5 := p5.before, p5.after;
    if |hs| == 0 || !AllDigits(hs) || |r5| != 5 || !AllDigits(r5[..2]) || r5[2] != ' ' then None else
    var meridiem := r5[3..];
    if meridiem != "am" && meridiem != "pm" then None else
    Some((To24(DigitsValue(hs), meridiem), DigitsValue(r5[..2])))
  }

  lemma ParseDaySuffix(day: int)
    requires 1 <= day <= 31
    ensures var ds := NatToString(day) + OrdinalSuffix(day);
      && |ds| >= 3 && ',' !in ds
      && AllDigits(ds[..|ds| - 2]) && DigitsValue(ds[..|ds| - 2]) == day
      && ds[|ds| - 2..] == OrdinalSuffix(day)
  {
    var dd, x := NatToString(day), OrdinalSuffix(day);
    var ds := dd + x;
    DigitsExclude(dd, ',');
    assert ',' !in x;
    assert ds[..|ds| - 2] == dd;
    assert ds[|ds| - 2..] == x;
    NatToStringRoundTrip(day);
  }

  lemma MonthDayPieces(m: string, dd: string, x: string, rest: string)
    ensures var r1 := " " + m + " " + dd + x + "," + rest;
      |r1| > 0 && r1[0] == ' ' && r1[1..] == m + [' '] + ((dd + x) + [','] + rest)
  {
  }

  lemma ParseMonthDayOf(d: LocalDate, rest: string)
    ensures var r1 := " " + Months[d.month] + " " + NatToString(d.day) + OrdinalSuffix(d.day) + "," + rest;
      ParseMonthDay(r1) == Some((d.month, d.day, rest))
  {
    var m, ds := Months[d.month], NatToString(d.day) + OrdinalSuffix(d.day);
    var r2 := ds + [','] + rest;
    var r1 := " " + Months[d.month] + " " + NatToString(d.day) + OrdinalSuffix(d.day) + "," + rest;
    MonthDayPieces(m, NatToString(d.day), OrdinalSuffix(d.day), rest);
    MonthNames(d.month);
    SplitAtFirstOf(m, ' ', r2);
    assert SplitAtFirst(r1[1..], ' ') == Some(Split(m, r2));
    ParseDaySuffix(d.day);
    SplitAtFirstOf(ds, ',', rest);
    assert SplitAtFirst(r2, ',') == Some(Split(ds, rest));
  }

  lemma ParseYearOf(year: int, rest: string)
    ensures ParseYear(" " + IntToString(year) + " " + rest) == Some((year, rest))
  {
    var y := IntToString(year);
    var r3 := " " + y + " " + rest;
    assert r3[1..] == y + [' '] + rest;
    assert ' ' !in y by {
      if year < 0 {
        DigitsExclude(y[1..], ' ');
        assert y == [y[0]] + y[1..];
      } else {
        DigitsExclude(y, ' ');
      }
    }
    SplitAtFirstOf(y, ' ', rest);
    IntToStringRoundTrip(year);
  }

  lemma TailPieces(mm: string, a: string)
    requires |mm| == 2 && |a| == 2
    ensures var r5 := mm + " " + a; |r5| == 5 && r5[..2] == mm && r5[2] == ' ' && r5[3..] == a
  {
    var r5 := mm + " " + a;
    assert r5[..2] == mm;
    assert r5[3..] == a;
  }

  /** The text after the colon: two digits of minutes, a space, am or pm. */
  lemma MinutesAndMeridiem(hour: int, minute: int)
    requires 0 <= minute < 60
    ensures var r5 := Minutes2(minute) + " " + Meridiem(hour);
      && |r5| == 5 && AllDigits(r5[..2]) && DigitsValue(r5[..2]) == minute
      && r5[2] == ' ' && r5[3..] == Meridiem(hour)
  {
    var mm, a := Minutes2(minute), Meridiem(hour);
    TwoDigits(minute);
    TailPieces(mm, a);
  }

  lemma ParseTimeOf(hour: int, minute: int)
    requires 0 <= hour < 24 && 0 <= minute < 60
    ensures ParseTime("- " + NatToString(Hour12(hour)) + ":" + Minutes2(minute) + " " + Meridiem(hour))
         == Some((hour, minute))
  {
    var h, a := NatToString(Hour12(hour)), Meridiem(hour);
    var r5 := Minutes2(minute) + " " + a;
    var r4 := "- " + h + ":" + Minutes2(minute) + " " + a;
    assert r4 == "- " + (h + [':'] + r5);
    assert r4[..2] == "- ";
    assert r4[2..] == h + [':'] + r5;
    DigitsExclude(h, ':');
    SplitAtFirstOf(h, ':', r5);
    NatToStringRoundTrip(Hour12(hour));
    MinutesAndMeridiem(hour, minute);
    ClockRoundTrip(hour);
    assert a == "am" || a == "pm";
  }

  /** The phrase is the weekday name, a comma, and the text the later stages read. */
  lemma FormatShape(d: LocalDate)
    ensures FormatNaturalDate(d) == Weekdays[d.weekday] + [','] + (" " + Months[d.month] + " "
      + NatToString(d.day) + OrdinalSuffix(d.day) + "," + (" " + IntToString(d.year) + " "
      + ("- " + NatToString(Hour12(d.hour)) + ":" + Minutes2(d.minute) + " " + Meridiem(d.hour))))
  {
    Regroup(Weekdays[d.weekday], Months[d.month], NatToString(d.day), OrdinalSuffix(d.day),
      IntToString(d.year), NatToString(Hour12(d.hour)), Minutes2(d.minute), Meridiem(d.hour));
  }

  lemma Regroup(w: string, m: string, dd: string, x: string, y: string, h: string, mm: string, a: string)
    ensures w + ", " + m + " " + dd + x + ", " + y + " - " + h + ":" + mm + " " + a
         == w + [','] + (" " + m + " " + dd + x + "," + (" " + y + " " + ("- " + h + ":" + mm + " " + a)))
  {
  }

  lemma FormatRoundTrip(d: LocalDate)
    ensures ParseNaturalDate(FormatNaturalDate(d)) == Some(d)
  {
    var w := Weekdays[d.weekday];
    var r4 := "- " + NatToString(Hour12(d.hour)) + ":" + Minutes2(d.minute) + " " + Meridiem(d.hour);
    var r3 := " " + IntToString(d.year) + " " + r4;
    var r1 := " " + Months[d.month] + " " + NatToString(d.day) + OrdinalSuffix(d.day) + "," + r3;
    FormatShape(d);
    WeekdayNames(d.weekday);
    SplitAtFirstOf(w, ',', r1);
    ParseMonthDayOf(d, r3);
    ParseYearOf(d.year, r4);
    ParseTimeOf(d.hour, d.minute);
  }
}
