/** Calendar dates as the FDF parser reads and writes them: Python's
    `datetime.strptime(s, '%b %d %Y')` in the English locale, and
    `strftime('%Y-%m-%d')`, the calendar-date form of ISO 8601:2004
    section 4.1.2.2 (extended format `YYYY-MM-DD`). */
module Dates {
  import opened PyStr
  import opened Results

  datatype Date = Date(year: int, month: int, day: int)

  /** The `%b` month names; `strptime` matches them ignoring case. */
  const MonthAbbrs: seq<string> :=
    ["Jan", "Feb", "Mar", "Apr", "May", "Jun", "Jul", "Aug", "Sep", "Oct", "Nov", "Dec"]

  predicate IsLeap(year: int) {
    (year % 4 == 0 && year % 100 != 0) || year % 400 == 0
  }

  function DaysIn(year: int, month: int): int {
    if month == 2 then (if IsLeap(year) then 29 else 28)
    else if month == 4 || month == 6 || month == 9 || month == 11 then 30
    else 31
  }

  /** What `datetime` accepts: years 1 to 9999 and a day that exists in
      its month. */
  predicate Valid(d: Date) {
    1 <= d.year <= 9999 && 1 <= d.month <= 12 && 1 <= d.day <= DaysIn(d.year, d.month)
  }

  function DigitValue(c: char): int { c as int - '0' as int }

  predicate AllDigits(s: string) {
    forall k :: 0 <= k < |s| ==> IsDigit(s[k])
  }

  /** The number a string of decimal digits spells. */
  function DigitsValue(s: string): (n: nat)
    requires AllDigits(s)
  {
    if s == [] then 0
    else DigitsValue(s[..|s| - 1]) * 10 + DigitValue(s[|s| - 1])
  }

  function DigitChar(n: int): char
    requires 0 <= n < 10
  {
    ('0' as int + n) as char
  }

  /** `n` as two digits, zero-padded (`%m`, `%d`). */
  function Pad2(n: int): (s: string)
    requires 0 <= n < 100
    ensures |s| == 2 && AllDigits(s)
  {
    [DigitChar(n / 10), DigitChar(n % 10)]
  }

  /** `n` as four digits, zero-padded (`%Y`). */
  function Pad4(n: int): (s: string)
    requires 0 <= n < 10000
    ensures |s| == 4 && AllDigits(s)
  {
    Pad2(n / 100) + Pad2(n % 100)
  }

  lemma Pad2Value(n: int)
    requires 0 <= n < 100
    ensures DigitsValue(Pad2(n)) == n
  {
    var s := Pad2(n);
    assert DigitValue(s[0]) == n / 10 && DigitValue(s[1]) == n % 10;
    assert s[..1] == [s[0]] && s[..1][..0] == [];
    assert DigitsValue(s[..1]) == n / 10;
  }

  lemma Pad4Value(n: int)
    requires 0 <= n < 10000
    ensures DigitsValue(Pad4(n)) == n
  {
    var s := Pad4(n);
    var hi, lo := Pad2(n / 100), Pad2(n % 100);
    Pad2Value(n / 100);
    assert s[..3] == hi + [lo[0]];
    assert s[..3][..2] == hi;
    assert DigitsValue(s[..3]) == DigitsValue(hi) * 10 + DigitValue(lo[0]);
    assert lo[..1] == [lo[0]] && lo[..1][..0] == [];
    assert DigitsValue(lo) == DigitValue(lo[0]) * 10 + DigitValue(lo[1]);
    Pad2Value(n % 100);
  }

  /** The month number (1 to 12) whose abbreviation is `m`, ignoring case. */
  function MonthNumber(m: string): (r: Option<int>)
    ensures r.Some? ==> 1 <= r.value <= 12 && Lower(MonthAbbrs[r.value - 1]) == Lower(m)
    ensures r.None? ==> forall k :: 0 <= k < 12 ==> Lower(MonthAbbrs[k]) != Lower(m)
  {
    MonthFrom(Lower(m), 0)
  }

  function MonthFrom(lm: string, k: nat): (r: Option<int>)
    requires k <= 12
    ensures r.Some? ==> k < r.value <= 12 && Lower(MonthAbbrs[r.value - 1]) == lm
    ensures r.None? ==> forall j :: k <= j < 12 ==> Lower(MonthAbbrs[j]) != lm
    decreases 12 - k
  {
    if k == 12 then None
    else if Lower(MonthAbbrs[k]) == lm then Some(k + 1)
    else MonthFrom(lm, k + 1)
  }

  /** The `%d` directive followed by the whitespace before the year: the
      pattern `3[01]|[12]\d|0[1-9]|[1-9]` tried in that order, so a day is
      one non-zero digit or two digits between 01 and 31. Gives the day and
      the text after it. */
  function ParseDay(s: string): (r: Option<(int, string)>)
    ensures r.Some? ==> 1 <= r.value.0 <= 31 && |r.value.1| < |s|
  {
    if |s| >= 2 && IsDigit(s[0]) && IsDigit(s[1]) then
      var v := DigitsValue(s[..2]);
      if 1 <= v <= 31 then Some((v, s[2..])) else None
    else if |s| >= 1 && '1' <= s[0] <= '9' then
      Some((DigitValue(s[0]), s[1..]))
    else None
  }

  /** `datetime.strptime(s, '%b %d %Y')`: a month abbreviation in any case,
      one or more whitespace characters (a space in the format matches
      `\s+`), the day, whitespace again, exactly four digits for the year,
      and nothing after them; the date must exist (year 0 and February 30
      raise `ValueError`, which is `None` here). */
  function ParseDate(s: string): (r: Option<Date>)
    ensures r.Some? ==> Valid(r.value)
  {
    if |s| < 3 then None
    else
      match MonthNumber(s[..3])
      case None => None
      case Some(month) =>
        var afterMonth := s[3..];
        var dayPart := LStrip(afterMonth);
        if |dayPart| == |afterMonth| then None
        else
          match ParseDay(dayPart)
          case None => None
          case Some((day, afterDay)) =>
            var yearPart := LStrip(afterDay);
            if |yearPart| == |afterDay| || |yearPart| != 4 || !AllDigits(yearPart) then None
            else
              var d := Date(DigitsValue(yearPart), month, day);
              if Valid(d) then Some(d) else None
  }

  /** `date.strftime('%Y-%m-%d')`. */
  function Iso(d: Date): (s: string)
    requires Valid(d)
    ensures |s| == 10 && s[4] == '-' && s[7] == '-'
    ensures AllDigits(s[..4]) && AllDigits(s[5..7]) && AllDigits(s[8..])
  {
    Pad4(d.year) + "-" + Pad2(d.month) + "-" + Pad2(d.day)
  }

  /** The year, month and day can be read back from the ISO form. */
  lemma IsoFields(d: Date)
    requires Valid(d)
    ensures var s := Iso(d);
      DigitsValue(s[..4]) == d.year && DigitsValue(s[5..7]) == d.month
      && DigitsValue(s[8..]) == d.day
  {
    var s := Iso(d);
    assert s[..4] == Pad4(d.year);
    assert s[5..7] == Pad2(d.month);
    assert s[8..] == Pad2(d.day);
    Pad4Value(d.year);
    Pad2Value(d.month);
    Pad2Value(d.day);
  }

  /** The day as the export writes it: no leading zero. */
  function DayText(day: int): string
    requires 1 <= day <= 31
  {
    if day < 10 then [DigitChar(day)] else Pad2(day)
  }

  /** A date in the English export form `Mon D YYYY`, the day unpadded. */
  function Render(d: Date): string
    requires Valid(d)
  {
    MonthAbbrs[d.month - 1] + " " + DayText(d.day) + " " + Pad4(d.year)
  }

  lemma ParseDayText(day: int, rest: string)
    requires 1 <= day <= 31 && |rest| > 0 && rest[0] == ' '
    ensures ParseDay(DayText(day) + rest) == Some((day, rest))
  {
    var t := DayText(day) + rest;
    Pad2Value(day);
    if day < 10 {
      assert t[1..] == rest;
    } else {
      assert t[..2] == Pad2(day);
      assert t[2..] == rest;
    }
  }

  /** Reading a rendered date gives the date back. */
  lemma ParseRender(d: Date)
    requires Valid(d)
    ensures ParseDate(Render(d)) == Some(d)
  {
    var s := Render(d);
    var name := MonthAbbrs[d.month - 1];
    var yearText := Pad4(d.year);
    var afterDay := [' '] + yearText;
    var afterMonth := DayText(d.day) + afterDay;
    assert s == name + ([' '] + afterMonth);
    assert s[..3] == name;
    MonthIsFirst(d.month);
    assert s[3..] == [' '] + afterMonth;
    LStripSpace(afterMonth);
    ParseDayText(d.day, afterDay);
    LStripSpace(yearText);
    Pad4Value(d.year);
  }

  /** Stripping one leading space from text that starts with a digit. */
  lemma LStripSpace(t: string)
    requires |t| > 0 && IsDigit(t[0])
    ensures LStrip([' '] + t) == t
  {
    assert ([' '] + t)[1..] == t;
  }

  /** Each month name is read as its own number. */
  lemma MonthIsFirst(month: int)
    requires 1 <= month <= 12
    ensures MonthNumber(MonthAbbrs[month - 1]) == Some(month)
  {
    var lm := Lower(MonthAbbrs[month - 1]);
    forall j | 0 <= j < month - 1
      ensures Lower(MonthAbbrs[j]) != lm
    {
      assert Lower(MonthAbbrs[j])[0] != lm[0] || Lower(MonthAbbrs[j])[1] != lm[1]
        || Lower(MonthAbbrs[j])[2] != lm[2];
    }
    MonthFromSkips(lm, 0, month - 1);
  }

  lemma {:induction false} MonthFromSkips(lm: string, k: nat, target: nat)
    requires k <= target < 12
    requires Lower(MonthAbbrs[target]) == lm
    requires forall j :: k <= j < target ==> Lower(MonthAbbrs[j]) != lm
    ensures MonthFrom(lm, k) == Some(target + 1)
    decreases target - k
  {
    if k < target {
      assert Lower(MonthAbbrs[k]) != lm;
      MonthFromSkips(lm, k + 1, target);
      assert MonthFrom(lm, k) == MonthFrom(lm, k + 1);
    } else {
      assert Lower(MonthAbbrs[k]) == lm;
    }
  }

  /** An ISO date is not itself a `%b %d %Y` date: it starts with a digit,
      which no month name does. */
  lemma ParseIsoNone(d: Date)
    requires Valid(d)
    ensures ParseDate(Iso(d)) == None
  {
    var s := Iso(d);
    assert IsDigit(s[..4][0]);
    assert IsDigit(Lower(s[..3])[0]);
  }

  /** The date in the repository's test: `Oct 7 1991` reads as 7 October
      1991 and is written `1991-10-07`. */
  lemma ExampleOct7(s: string)
    requires s == "Oct 7 1991"
    ensures ParseDate(s) == Some(Date(1991, 10, 7))
    ensures Iso(Date(1991, 10, 7)) == "1991-10-07"
  {
    var d := Date(1991, 10, 7);
    assert Pad4(1991) == "1991" by {
      assert Pad2(19) == "19" && Pad2(91) == "91";
    }
    assert Iso(d) == "1991-10-07" by {
      assert Pad2(10) == "10" && Pad2(7) == "07";
      assert Iso(d) == "1991" + "-" + "10" + "-" + "07";
    }
    assert Render(d) == s by {
      assert DayText(7) == "7";
      assert MonthAbbrs[9] == "Oct";
      assert Render(d) == "Oct" + " " + "7" + " " + "1991";
    }
    ParseRender(d);
  }

  /** The other date in the repository's test: `Jan 24 2019` reads as
      24 January 2019 and is written `2019-01-24`. */
  lemma ExampleJan24(s: string)
    requires s == "Jan 24 2019"
    ensures ParseDate(s) == Some(Date(2019, 1, 24))
    ensures Iso(Date(2019, 1, 24)) == "2019-01-24"
  {
    var d := Date(2019, 1, 24);
    assert Pad4(2019) == "2019" by {
      assert Pad2(20) == "20" && Pad2(19) == "19";
    }
    assert Iso(d) == "2019-01-24" by {
      assert Pad2(1) == "01" && Pad2(24) == "24";
      assert Iso(d) == "2019" + "-" + "01" + "-" + "24";
    }
    assert Render(d) == s by {
      assert DayText(24) == "24";
      assert MonthAbbrs[0] == "Jan";
      assert Render(d) == "Jan" + " " + "24" + " " + "2019";
    }
    ParseRender(d);
  }
}
