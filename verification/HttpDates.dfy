/**
 Dates as text: the printer and parser of src/cli.rs (`epoch_to_httpdate`,
 `httpdate_to_epoch`) and the lenient cookie-date parser of src/cookie.rs
 (`parse_http_date`).
 */
module HttpDates {
  import opened Basics
  import opened Text
  import opened Dates

  const WEEKDAYS: seq<string> := ["Sun", "Mon", "Tue", "Wed", "Thu", "Fri", "Sat"]
  const MONTHS: seq<string> := ["Jan", "Feb", "Mar", "Apr", "May", "Jun", "Jul", "Aug", "Sep", "Oct", "Nov", "Dec"]

  // ---- printing ---------------------------------------------------------------------------

  function Clock(hh: nat, mm: nat, ss: nat): string {
    Pad(hh, 2) + ":" + (Pad(mm, 2) + ":" + Pad(ss, 2))
  }

  function DateTail(d: nat, month: string, y: nat, clock: string): string {
    Pad(d, 2) + (" " + (month + (" " + (Pad(y, 4) + (" " + (clock + (" " + "GMT")))))))
  }

  /** An IMF-fixdate. */
  function FormatDate(weekday: string, d: nat, month: string, y: nat, clock: string): string {
    weekday + (", " + DateTail(d, month, y, clock))
  }

  /** epoch_to_httpdate */
  function EpochToHttpDate(secs: nat): string {
    var days, rem := secs / 86400, secs % 86400;
    CivilFromDaysCorrect(days);
    var c := CivilFromDays(days);
    FormatDate(WEEKDAYS[(days % 7 + 4) % 7], c.d, MONTHS[c.m - 1], c.y, Clock(rem / 3600, rem % 3600 / 60, rem % 60))
  }

  // ---- the parser of the command line ---------------------------------------------------------

  /** What follows the first ", ". */
  function AfterComma(s: string): Option<string> {
    if s == [] then None
    else if |s| >= 2 && s[0] == ',' && s[1] == ' ' then Some(s[2..])
    else AfterComma(s[1..])
  }

  function MonthNumber(s: string): Option<nat> {
    if s == "Jan" then Some(1) else if s == "Feb" then Some(2) else if s == "Mar" then Some(3)
    else if s == "Apr" then Some(4) else if s == "May" then Some(5) else if s == "Jun" then Some(6)
    else if s == "Jul" then Some(7) else if s == "Aug" then Some(8) else if s == "Sep" then Some(9)
    else if s == "Oct" then Some(10) else if s == "Nov" then Some(11) else if s == "Dec" then Some(12)
    else None
  }

  function ParseClock(s: string): Option<(int, int, int)> {
    var parts := Split(s, ':');
    if |parts| < 3 then None
    else
      var hh :- ParseI64(parts[0]);
      var mm :- ParseI64(parts[1]);
      var ss :- ParseI64(parts[2]);
      Some((hh, mm, ss))
  }

  /** The numbers of a date; a result outside the non-negative i64 range is refused. */
  function SecondsOf(day: int, month: int, year: int, hh: int, mm: int, ss: int): Option<nat> {
    var secs := DaysFromCivil(year, month, day) * 86400 + hh * 3600 + mm * 60 + ss;
    if 0 <= secs < I64_LIMIT then Some(secs) else None
  }

  /** httpdate_to_epoch */
  function HttpDateToEpoch(s: string): Option<nat> {
    var t := Trim(s);
    var words := Tokens(AfterComma(t).GetOr(t), IsWhitespace);
    if |words| < 4 then None
    else
      var day :- ParseI64(words[0]);
      var month :- MonthNumber(words[1]);
      var year :- ParseI64(words[2]);
      var (hh, mm, ss) :- ParseClock(words[3]);
      SecondsOf(day, month, year, hh, mm, ss)
  }

  // ---- the cookie-date parser -----------------------------------------------------------------

  /** The delimiters of section 5.1.1 of RFC 6265. */
  predicate IsDelimiter(c: char) {
    || c == '\t' || ' ' <= c <= '/' || ';' <= c <= '@' || '[' <= c <= '`' || '{' <= c <= '~'
  }

  function DigitRun(s: string): (n: nat)
    ensures n <= |s|
  {
    RunLength(s, c => !IsDigit(c))
  }

  lemma {:induction false} DigitRunIsDigits(s: string)
    ensures AllDigits(s[..DigitRun(s)])
  {
    if s != [] && IsDigit(s[0]) {
      DigitRunIsDigits(s[1..]);
      assert s[..DigitRun(s)] == [s[0]] + s[1..][..DigitRun(s[1..])];
    }
  }

  function LeadingValue(s: string): nat {
    DigitRunIsDigits(s);
    DigitsValue(s[..DigitRun(s)])
  }

  /** leading_digits */
  function LeadingDigits(token: string, min: nat, max: nat): Option<nat> {
    if min <= DigitRun(token) <= max then Some(LeadingValue(token)) else None
  }

  /** cookie_date_time */
  function CookieClock(token: string): Option<(nat, nat, nat)> {
    var hh :- LeadingDigits(token, 1, 2);
    var rest := token[DigitRun(token)..];
    if rest == [] || rest[0] != ':' then None
    else
      var mm :- LeadingDigits(rest[1..], 1, 2);
      var last := rest[1..][DigitRun(rest[1..])..];
      if last == [] || last[0] != ':' then None
      else
        var ss :- LeadingDigits(last[1..], 1, 2);
        Some((hh, mm, ss))
  }

  /** parse_month: the first three characters, ignoring case. */
  function CookieMonth(token: string): Option<nat> {
    if |token| < 3 then None else MonthIgnoringCase(token[..3], 0)
  }

  function MonthIgnoringCase(prefix: string, i: nat): Option<nat>
    decreases 12 - i
  {
    if i >= 12 then None
    else if EqIgnoreCase(MONTHS[i], prefix) then Some(i + 1)
    else MonthIgnoringCase(prefix, i + 1)
  }

  datatype Found = Found(clock: Option<(nat, nat, nat)>, day: Option<nat>, month: Option<nat>, year: Option<nat>)

  /** One token fills the first empty field it fits. */
  function Consume(f: Found, token: string): Found {
    if f.clock.None? && CookieClock(token).Some? then f.(clock := CookieClock(token))
    else if f.day.None? && LeadingDigits(token, 1, 2).Some? then f.(day := LeadingDigits(token, 1, 2))
    else if f.month.None? && CookieMonth(token).Some? then f.(month := CookieMonth(token))
    else if f.year.None? && LeadingDigits(token, 2, 4).Some? then f.(year := LeadingDigits(token, 2, 4))
    else f
  }

  function ConsumeAll(f: Found, tokens: seq<string>): Found
    decreases |tokens|
  {
    if tokens == [] then f else ConsumeAll(Consume(f, tokens[0]), tokens[1..])
  }

  /** epoch_from_ymd_hms: refuses an impossible date, clamps one before 1970 to 0. */
  function EpochFromYmdHms(y: int, m: int, d: int, hh: nat, mm: nat, ss: nat): Option<nat> {
    if !(1 <= m <= 12) || !(1 <= d <= 31) || hh > 23 || mm > 59 || ss > 60 then None
    else if d > MonthLength(y, m) then None
    else
      var days := DaysFromCivil(y, m, d);
      if days < 0 then Some(0) else Some(days * 86400 + hh * 3600 + mm * 60 + ss)
  }

  function FullYear(y: nat): nat {
    if 70 <= y <= 99 then y + 1900 else if y <= 69 then y + 2000 else y
  }

  function Assemble(f: Found): Option<nat> {
    var (hh, mm, ss) :- f.clock;
    var d :- f.day;
    var m :- f.month;
    var y :- f.year;
    if FullYear(y) < 1601 || hh > 23 || mm > 59 || ss > 59 then None
    else EpochFromYmdHms(FullYear(y), m, d, hh, mm, ss)
  }

  function ParseCookieDate(s: string): Option<nat> {
    Assemble(ConsumeAll(Found(None, None, None, None), Tokens(s, IsDelimiter)))
  }

  /** parse_http_date as the source runs it: a loop over the tokens filling four locals. */
  method ParseHttpDate(s: string) returns (r: Option<nat>)
    ensures r == ParseCookieDate(s)
  {
    var tokens := Tokens(s, IsDelimiter);
    var f := Found(None, None, None, None);
    var i := 0;
    while i < |tokens|
      invariant i <= |tokens|
      invariant ConsumeAll(f, tokens[i..]) == ConsumeAll(Found(None, None, None, None), tokens)
    {
      assert tokens[i..][0] == tokens[i] && tokens[i..][1..] == tokens[i + 1..];
      var token := tokens[i];
      i := i + 1;
      if f.clock.None? {
        var t := CookieClock(token);
        if t.Some? {
          f := f.(clock := t);
          continue;
        }
      }
      if f.day.None? {
        var d := LeadingDigits(token, 1, 2);
        if d.Some? {
          f := f.(day := d);
          continue;
        }
      }
      if f.month.None? {
        var m := CookieMonth(token);
        if m.Some? {
          f := f.(month := m);
          continue;
        }
      }
      if f.year.None? {
        var y := LeadingDigits(token, 2, 4);
        if y.Some? {
          f := f.(year := y);
          continue;
        }
      }
    }
    r := Assemble(f);
  }

  // ---- the day count behind a cookie's expiry ---------------------------------------------------

  /** The expiry is refused exactly for impossible dates, and is the naive count of seconds, clamped at 1970. */
  lemma EpochIsNaive(y: nat, m: nat, d: nat, hh: nat, mm: nat, ss: nat)
    ensures EpochFromYmdHms(y, m, d, hh, mm, ss) ==
            if !(ValidDate(y, m, d) && hh <= 23 && mm <= 59 && ss <= 60) then None
            else if NaiveDays(y, m, d) < 0 then Some(0)
            else Some(NaiveDays(y, m, d) * 86400 + hh * 3600 + mm * 60 + ss)
  {
    hide DaysFromCivil, NaiveDays;
    if ValidDate(y, m, d) {
      CivilIsNaive(y, m, d);
    }
  }

  // ---- reading back what was printed ----------------------------------------------------------------

  /** The characters of the fields of a printed date. */
  predicate Plain(c: char) {
    IsDigit(c) || 'A' <= c <= 'Z' || 'a' <= c <= 'z' || c == ':'
  }

  predicate PlainWord(s: string) {
    s != [] && forall c :: c in s ==> Plain(c)
  }

  lemma PadIsPlain(n: nat, w: nat)
    ensures PlainWord(Pad(n, w))
  {
    PadValue(n, w);
  }

  lemma ClockIsPlain(hh: nat, mm: nat, ss: nat)
    ensures PlainWord(Clock(hh, mm, ss))
  {
    PadIsPlain(hh, 2);
    PadIsPlain(mm, 2);
    PadIsPlain(ss, 2);
  }

  lemma NextWord(w: string, rest: string, sep: char -> bool)
    requires PlainWord(w) && sep(' ') && forall c :: Plain(c) ==> !sep(c)
    ensures Tokens(w + (" " + rest), sep) == [w] + Tokens(rest, sep)
  {
    TokensWord(w, " " + rest, sep);
    assert (" " + rest)[1..] == rest;
  }

  lemma LastWord(w: string, sep: char -> bool)
    requires PlainWord(w) && forall c :: Plain(c) ==> !sep(c)
    ensures Tokens(w, sep) == [w]
  {
    TokensWord(w, [], sep);
    assert w + [] == w;
  }

  lemma GmtIsPlain()
    ensures PlainWord("GMT")
  {
  }

  /** The words after the weekday, whichever separators split them. */
  lemma TailWords(d: nat, month: string, y: nat, clock: string, sep: char -> bool)
    requires PlainWord(month) && PlainWord(clock) && sep(' ') && forall c :: Plain(c) ==> !sep(c)
    ensures Tokens(DateTail(d, month, y, clock), sep) == [Pad(d, 2), month, Pad(y, 4), clock, "GMT"]
  {
    hide Tokens, Pad, Plain;
    PadIsPlain(d, 2);
    PadIsPlain(y, 4);
    GmtIsPlain();
    var t3 := clock + (" " + "GMT");
    var t2 := Pad(y, 4) + (" " + t3);
    var t1 := month + (" " + t2);
    LastWord("GMT", sep);
    NextWord(clock, "GMT", sep);
    NextWord(Pad(y, 4), t3, sep);
    NextWord(month, t2, sep);
    NextWord(Pad(d, 2), t1, sep);
  }

  lemma {:induction false} AfterCommaAt(before: string, after: string)
    requires ',' !in before
    ensures AfterComma(before + (", " + after)) == Some(after)
  {
    var s := before + (", " + after);
    if before == [] {
      assert s == ", " + after;
      assert s[2..] == after;
    } else {
      assert s[0] == before[0] && s[0] in before;
      assert s[1..] == before[1..] + (", " + after);
      AfterCommaAt(before[1..], after);
    }
  }

  lemma MonthsRead(m: nat)
    requires 1 <= m <= 12
    ensures MonthNumber(MONTHS[m - 1]) == Some(m) && PlainWord(MONTHS[m - 1])
  {
  }

  lemma ClockReads(hh: nat, mm: nat, ss: nat)
    requires hh < I64_LIMIT && mm < I64_LIMIT && ss < I64_LIMIT
    ensures ParseClock(Clock(hh, mm, ss)) == Some((hh, mm, ss))
  {
    PadValue(hh, 2);
    PadValue(mm, 2);
    PadValue(ss, 2);
    var tail := Pad(mm, 2) + ":" + Pad(ss, 2);
    assert Clock(hh, mm, ss) == Pad(hh, 2) + ":" + tail;
    SplitAt(Pad(hh, 2), ':', tail);
    SplitAt(Pad(mm, 2), ':', Pad(ss, 2));
    SplitNone(Pad(ss, 2), ':');
    ParseDigits(Pad(hh, 2));
    ParseDigits(Pad(mm, 2));
    ParseDigits(Pad(ss, 2));
  }

  lemma TailEnds(d: nat, month: string, y: nat, clock: string)
    ensures var t := DateTail(d, month, y, clock); |t| > 0 && t[|t| - 1] == 'T'
  {
  }

  lemma PrintedTrims(weekday: string, d: nat, month: string, y: nat, clock: string)
    requires PlainWord(weekday)
    ensures Trim(FormatDate(weekday, d, month, y, clock)) == FormatDate(weekday, d, month, y, clock)
  {
    var s := FormatDate(weekday, d, month, y, clock);
    TailEnds(d, month, y, clock);
    assert s[0] == weekday[0] && weekday[0] in weekday;
    TrimNothing(s);
  }

  /** The command line's parser reads the fields of a printed date back. */
  lemma FieldsRead(weekday: string, d: nat, m: nat, y: nat, hh: nat, mm: nat, ss: nat)
    requires PlainWord(weekday) && 1 <= m <= 12 && hh < 24 && mm < 60 && ss < 60 && d < 100 && y < I64_LIMIT
    ensures HttpDateToEpoch(FormatDate(weekday, d, MONTHS[m - 1], y, Clock(hh, mm, ss)))
            == SecondsOf(d, m, y, hh, mm, ss)
  {
    hide FormatDate, DateTail, Clock, SecondsOf, MonthNumber, Pad, Tokens, ParseClock, Trim, ParseI64, DigitsValue;
    var month, clock := MONTHS[m - 1], Clock(hh, mm, ss);
    var s := FormatDate(weekday, d, month, y, clock);
    MonthsRead(m);
    ClockIsPlain(hh, mm, ss);
    PrintedTrims(weekday, d, month, y, clock);
    FormatSplits(weekday, d, month, y, clock);
    TailWords(d, month, y, clock, IsWhitespace);
    PadValue(d, 2);
    PadValue(y, 4);
    ParseDigits(Pad(d, 2));
    ParseDigits(Pad(y, 4));
    ClockReads(hh, mm, ss);
  }

  lemma FormatSplits(weekday: string, d: nat, month: string, y: nat, clock: string)
    requires PlainWord(weekday)
    ensures AfterComma(FormatDate(weekday, d, month, y, clock)) == Some(DateTail(d, month, y, clock))
  {
    AfterCommaAt(weekday, DateTail(d, month, y, clock));
  }

  /** A date's year is small enough, and has four digits exactly up to 9999-12-31. */
  lemma YearOfDay(days: nat)
    ensures
      var y := CivilFromDays(days).y;
      && 0 <= y <= days / 365 + 1972
      && (y <= 9999 <==> days <= 2932896)
      && y >= 1970
  {
    hide CivilFromDays, DaysFromCivil, DaysBeforeYear;
    CivilFromDaysCorrect(days);
    var c := CivilFromDays(days);
    DaysBeforeYearClosed(c.y);
    DaysBeforeMonthClosed(c.y, c.m);
  }

  lemma WeekdayIsPlain(i: nat)
    requires i < 7
    ensures PlainWord(WEEKDAYS[i])
  {
  }

  lemma ClockOfSeconds(secs: nat)
    ensures
      var days, rem := secs / 86400, secs % 86400;
      var hh, mm, ss := rem / 3600, rem % 3600 / 60, rem % 60;
      hh < 24 && mm < 60 && ss < 60 && days * 86400 + hh * 3600 + mm * 60 + ss == secs
  {
  }

  /** Printing an epoch and reading it back gives the epoch exactly when it fits an i64. */
  lemma HttpDateRoundTrip(secs: nat)
    requires secs < U64_LIMIT
    ensures HttpDateToEpoch(EpochToHttpDate(secs)) == if secs < I64_LIMIT then Some(secs) else None
  {
    hide CivilFromDays, DaysFromCivil, HttpDateToEpoch, FormatDate, Clock, PlainWord, NaiveDays;
    var days, rem := secs / 86400, secs % 86400;
    CivilFromDaysCorrect(days);
    YearOfDay(days);
    ClockOfSeconds(secs);
    WeekdayIsPlain((days % 7 + 4) % 7);
    var c := CivilFromDays(days);
    FieldsRead(WEEKDAYS[(days % 7 + 4) % 7], c.d, c.m, c.y, rem / 3600, rem % 3600 / 60, rem % 60);
  }

  // ---- and by the cookie-date parser ----------------------------------------------------------------

  lemma PadLength(n: nat, w: nat)
    requires w > 0
    ensures |Pad(n, w)| == w <==> n < Pow10(w)
  {
    DecimalLength(n, w);
  }

  /** The digits in front of anything that is not a digit. */
  lemma LeadingDigitsOf(digits: string, rest: string)
    requires AllDigits(digits) && (rest != [] ==> !IsDigit(rest[0]))
    ensures DigitRun(digits + rest) == |digits| && LeadingValue(digits + rest) == DigitsValue(digits)
    ensures (digits + rest)[|digits|..] == rest
  {
    RunLengthOf(digits, rest, c => !IsDigit(c));
    assert (digits + rest)[..|digits|] == digits;
  }

  lemma TwoDigits(n: nat, rest: string)
    requires n < 100 && (rest != [] ==> !IsDigit(rest[0]))
    ensures LeadingDigits(Pad(n, 2) + rest, 1, 2) == Some(n) && DigitRun(Pad(n, 2) + rest) == 2
    ensures (Pad(n, 2) + rest)[2..] == rest
  {
    PadValue(n, 2);
    assert Pow10(2) == 100;
    PadLength(n, 2);
    LeadingDigitsOf(Pad(n, 2), rest);
  }

  lemma CookieClockReads(hh: nat, mm: nat, ss: nat)
    requires hh < 100 && mm < 100 && ss < 100
    ensures CookieClock(Clock(hh, mm, ss)) == Some((hh, mm, ss))
  {
    hide Pad, LeadingDigits, DigitRun;
    var t2 := ":" + Pad(ss, 2);
    var t1 := ":" + (Pad(mm, 2) + t2);
    assert Clock(hh, mm, ss) == Pad(hh, 2) + t1;
    TwoDigits(hh, t1);
    assert t1[1..] == Pad(mm, 2) + t2;
    TwoDigits(mm, t2);
    assert t2[1..] == Pad(ss, 2) == Pad(ss, 2) + [];
    TwoDigits(ss, []);
  }

  /** A word starting with a letter is neither a clock, a day nor a year. */
  lemma LetterWord(w: string)
    requires w != [] && !IsDigit(w[0])
    ensures CookieClock(w) == None && LeadingDigits(w, 1, 2) == None && LeadingDigits(w, 2, 4) == None
  {
  }

  lemma WeekdayNotMonth(i: nat)
    requires i < 7
    ensures CookieMonth(WEEKDAYS[i]) == None
  {
    var w := WEEKDAYS[i];
    assert w[..3] == w;
    assert Lower(w)[0] == LowerChar(w[0]) && Lower(w)[1] == LowerChar(w[1]) && Lower(w)[2] == LowerChar(w[2]);
    NoMonthFrom(w, 0);
  }

  lemma {:induction false} NoMonthFrom(w: string, i: nat)
    requires |w| == 3 && i <= 12
    requires forall j :: i <= j < 12 ==> Lower(MONTHS[j]) != Lower(w)
    ensures MonthIgnoringCase(w, i) == None
    decreases 12 - i
  {
    if i < 12 {
      NoMonthFrom(w, i + 1);
    }
  }

  lemma {:induction false} MonthFrom(m: nat, i: nat)
    requires i <= m < 12
    requires forall j :: i <= j < m ==> Lower(MONTHS[j]) != Lower(MONTHS[m])
    ensures MonthIgnoringCase(MONTHS[m], i) == Some(m + 1)
    decreases 12 - i
  {
    if i < m {
      MonthFrom(m, i + 1);
    }
  }

  lemma MonthIsMonth(m: nat)
    requires 1 <= m <= 12
    ensures CookieMonth(MONTHS[m - 1]) == Some(m)
  {
    var w := MONTHS[m - 1];
    assert |w| == 3 && w[..3] == w;
    forall j | 0 <= j < m - 1
      ensures Lower(MONTHS[j]) != Lower(w)
    {
      var v := MONTHS[j];
      assert Lower(v)[0] == LowerChar(v[0]) && Lower(v)[1] == LowerChar(v[1]) && Lower(v)[2] == LowerChar(v[2]);
      assert Lower(w)[0] == LowerChar(w[0]) && Lower(w)[1] == LowerChar(w[1]) && Lower(w)[2] == LowerChar(w[2]);
      MonthsDiffer(j, m - 1);
    }
    MonthFrom(m - 1, 0);
  }

  lemma MonthsDiffer(i: nat, j: nat)
    requires i < j < 12
    ensures
      var v, w := MONTHS[i], MONTHS[j];
      |v| == |w| == 3 &&
      (LowerChar(v[0]) != LowerChar(w[0]) || LowerChar(v[1]) != LowerChar(w[1]) || LowerChar(v[2]) != LowerChar(w[2]))
  {
  }

  /** A word of digits alone: never a clock, a day or a year by its length. */
  lemma NumberWord(n: nat, w: nat)
    requires w > 0
    ensures
      var t := Pad(n, w);
      && CookieClock(t) == None
      && (forall min: nat, max: nat :: LeadingDigits(t, min, max) == if min <= |t| <= max then Some(n) else None)
  {
    PadValue(n, w);
    var t := Pad(n, w);
    LeadingDigitsOf(t, []);
    assert t + [] == t;
  }

  /** Whatever the tokens of a printed date are, each fills its own field. */
  lemma TokensFill(i: nat, d: nat, m: nat, y: nat, hh: nat, mm: nat, ss: nat)
    requires i < 7 && d < 100 && 1 <= m <= 12 && hh < 100 && mm < 100 && ss < 100
    ensures ConsumeAll(Found(None, None, None, None),
                       [WEEKDAYS[i], Pad(d, 2), MONTHS[m - 1], Pad(y, 4), Clock(hh, mm, ss), "GMT"])
            == Found(Some((hh, mm, ss)), Some(d), Some(m), if y < 10000 then Some(y) else None)
  {
    hide CookieClock, LeadingDigits, CookieMonth, Pad, Clock;
    var f0 := Found(None, None, None, None);
    var f2 := f0.(day := Some(d));
    var f3 := f2.(month := Some(m));
    var f4 := f3.(year := if y < 10000 then Some(y) else None);
    var f5 := f4.(clock := Some((hh, mm, ss)));
    assert Consume(f0, WEEKDAYS[i]) == f0 by {
      LetterWord(WEEKDAYS[i]);
      WeekdayNotMonth(i);
    }
    assert Consume(f0, Pad(d, 2)) == f2 by {
      NumberWord(d, 2);
      assert Pow10(2) == 100;
      PadLength(d, 2);
    }
    assert Consume(f2, MONTHS[m - 1]) == f3 by {
      LetterWord(MONTHS[m - 1]);
      MonthIsMonth(m);
    }
    assert Consume(f3, Pad(y, 4)) == f4 by {
      NumberWord(y, 4);
      assert Pow10(2) == 100;
      assert Pow10(4) == 10000;
      PadLength(y, 4);
      PadValue(y, 4);
    }
    assert Consume(f4, Clock(hh, mm, ss)) == f5 by {
      CookieClockReads(hh, mm, ss);
    }
    assert Consume(f5, "GMT") == f5 by {
      LetterWord("GMT");
    }
    SixSteps(f0, WEEKDAYS[i], Pad(d, 2), MONTHS[m - 1], Pad(y, 4), Clock(hh, mm, ss), "GMT");
  }

  lemma SixSteps(f: Found, a: string, b: string, c: string, d: string, e: string, g: string)
    ensures ConsumeAll(f, [a, b, c, d, e, g]) == Consume(Consume(Consume(Consume(Consume(Consume(f, a), b), c), d), e), g)
  {
    hide Consume, ConsumeAll;
    var f1 := Consume(f, a);
    var f2 := Consume(f1, b);
    var f3 := Consume(f2, c);
    var f4 := Consume(f3, d);
    var f5 := Consume(f4, e);
    assert [a, b, c, d, e, g] == [a] + [b, c, d, e, g] && [b, c, d, e, g] == [b] + [c, d, e, g];
    assert [c, d, e, g] == [c] + [d, e, g] && [d, e, g] == [d] + [e, g] && [e, g] == [e] + [g] && [g] == [g] + [];
    OneStep(f, a, [b, c, d, e, g]);
    OneStep(f1, b, [c, d, e, g]);
    OneStep(f2, c, [d, e, g]);
    OneStep(f3, d, [e, g]);
    OneStep(f4, e, [g]);
    OneStep(f5, g, []);
    NoStep(Consume(f5, g));
  }

  lemma OneStep(f: Found, a: string, rest: seq<string>)
    ensures ConsumeAll(f, [a] + rest) == ConsumeAll(Consume(f, a), rest)
  {
    hide Consume;
    assert ([a] + rest)[1..] == rest;
  }

  lemma NoStep(f: Found)
    ensures ConsumeAll(f, []) == f
  {
  }

  lemma PrintedTokens(i: nat, d: nat, month: string, y: nat, clock: string)
    requires i < 7 && PlainWord(month) && PlainWord(clock)
    ensures Tokens(FormatDate(WEEKDAYS[i], d, month, y, clock), IsDelimiter)
            == [WEEKDAYS[i], Pad(d, 2), month, Pad(y, 4), clock, "GMT"]
  {
    hide DateTail, Pad;
    var tail := DateTail(d, month, y, clock);
    WeekdayIsPlain(i);
    TokensWord(WEEKDAYS[i], ", " + tail, IsDelimiter);
    assert (", " + tail)[1..] == " " + tail && (" " + tail)[1..] == tail;
    TailWords(d, month, y, clock, IsDelimiter);
  }

  const LAST_FOUR_DIGIT_SECOND: nat := 253402300799

  /** The cookie-date parser reads a printed epoch back exactly up to the end of year 9999, and refuses later ones. */
  lemma CookieDateReadsPrinted(secs: nat)
    ensures ParseCookieDate(EpochToHttpDate(secs)) == if secs <= LAST_FOUR_DIGIT_SECOND then Some(secs) else None
  {
    hide CivilFromDays, DaysFromCivil, FormatDate, Clock, PlainWord, NaiveDays, Consume, ConsumeAll, Tokens, Pad;
    var days, rem := secs / 86400, secs % 86400;
    var hh, mm, ss := rem / 3600, rem % 3600 / 60, rem % 60;
    var i := (days % 7 + 4) % 7;
    CivilFromDaysCorrect(days);
    YearOfDay(days);
    ClockOfSeconds(secs);
    var c := CivilFromDays(days);
    MonthsRead(c.m);
    ClockIsPlain(hh, mm, ss);
    PrintedTokens(i, c.d, MONTHS[c.m - 1], c.y, Clock(hh, mm, ss));
    TokensFill(i, c.d, c.m, c.y, hh, mm, ss);
    assert secs <= LAST_FOUR_DIGIT_SECOND <==> c.y <= 9999;
    var f := Found(Some((hh, mm, ss)), Some(c.d), Some(c.m), if c.y < 10000 then Some(c.y) else None);
    assert ParseCookieDate(EpochToHttpDate(secs)) == Assemble(f);
    if c.y <= 9999 {
      EpochIsNaive(c.y, c.m, c.d, hh, mm, ss);
      assert Assemble(f) == EpochFromYmdHms(c.y, c.m, c.d, hh, mm, ss);
    }
  }

  // ---- weekdays and short years ---------------------------------------------------------------------

  function DayAfter(weekday: string): string {
    if weekday == "Thu" then "Fri" else if weekday == "Fri" then "Sat" else if weekday == "Sat" then "Sun"
    else if weekday == "Sun" then "Mon" else if weekday == "Mon" then "Tue" else if weekday == "Tue" then "Wed"
    else "Thu"
  }

  /** The first of January 1970 was a Thursday. */
  function WeekdayOf(days: nat): string {
    if days == 0 then "Thu" else DayAfter(WeekdayOf(days - 1))
  }

  lemma {:induction false} WeekdayIsNaive(days: nat)
    ensures WEEKDAYS[(days % 7 + 4) % 7] == WeekdayOf(days)
  {
    hide WEEKDAYS, DayAfter;
    if days == 0 {
      FirstWeekday();
    } else {
      WeekdayIsNaive(days - 1);
      var r := (days - 1) % 7;
      assert days % 7 == (r + 1) % 7;
      NextWeekday(r);
    }
  }

  lemma FirstWeekday()
    ensures WEEKDAYS[4] == "Thu" && |WEEKDAYS| == 7
  {
  }

  lemma NextWeekday(r: nat)
    requires r < 7
    ensures DayAfter(WEEKDAYS[(r + 4) % 7]) == WEEKDAYS[((r + 1) % 7 + 4) % 7]
  {
  }

  /** A printed date starts with the weekday found by counting days from the epoch. */
  lemma PrintedWeekday(secs: nat)
    ensures WeekdayOf(secs / 86400) + ", " <= EpochToHttpDate(secs)
  {
    hide WeekdayOf, DateTail, Clock, CivilFromDays;
    var days := secs / 86400;
    WeekdayIsNaive(days);
    CivilFromDaysCorrect(days);
    var c := CivilFromDays(days);
    var tail := DateTail(c.d, MONTHS[c.m - 1], c.y, Clock(secs % 86400 / 3600, secs % 86400 % 3600 / 60, secs % 86400 % 60));
    assert EpochToHttpDate(secs) == (WeekdayOf(days) + ", ") + tail;
  }

  /** A date as older servers write it, with dashes and two digits for the year. */
  function ShortDate(i: nat, d: nat, month: string, yy: nat, clock: string): string
    requires i < 7
  {
    WEEKDAYS[i] + (", " + (Pad(d, 2) + ("-" + (month + ("-" + (Pad(yy, 2) + (" " + (clock + (" " + "GMT")))))))))
  }

  lemma WordBefore(w: string, c: char, rest: string)
    requires PlainWord(w) && IsDelimiter(c)
    ensures Tokens(w + ([c] + rest), IsDelimiter) == [w] + Tokens(rest, IsDelimiter)
  {
    TokensWord(w, [c] + rest, IsDelimiter);
    assert ([c] + rest)[1..] == rest;
  }

  lemma ShortTokens(i: nat, d: nat, month: string, yy: nat, clock: string)
    requires i < 7 && PlainWord(month) && PlainWord(clock)
    ensures Tokens(ShortDate(i, d, month, yy, clock), IsDelimiter) == [WEEKDAYS[i], Pad(d, 2), month, Pad(yy, 2), clock, "GMT"]
  {
    hide Tokens, Pad, PlainWord;
    WeekdayIsPlain(i);
    PadIsPlain(d, 2);
    PadIsPlain(yy, 2);
    GmtIsPlain();
    var t5 := "GMT";
    var t4 := clock + ([' '] + t5);
    var t3 := Pad(yy, 2) + ([' '] + t4);
    var t2 := month + (['-'] + t3);
    var t1 := Pad(d, 2) + (['-'] + t2);
    LastWord(t5, IsDelimiter);
    WordBefore(clock, ' ', t5);
    WordBefore(Pad(yy, 2), ' ', t4);
    WordBefore(month, '-', t3);
    WordBefore(Pad(d, 2), '-', t2);
    BlankSkipped(t1);
    assert ", " == [','] + [' '];
    assert ShortDate(i, d, month, yy, clock) == WEEKDAYS[i] + ([','] + ([' '] + t1));
    WordBefore(WEEKDAYS[i], ',', [' '] + t1);
  }

  lemma BlankSkipped(t: string)
    ensures Tokens([' '] + t, IsDelimiter) == Tokens(t, IsDelimiter)
  {
    assert ([' '] + t)[1..] == t;
  }

  lemma ShortTokensFill(i: nat, d: nat, m: nat, yy: nat, hh: nat, mm: nat, ss: nat)
    requires i < 7 && d < 100 && 1 <= m <= 12 && yy < 100 && hh < 100 && mm < 100 && ss < 100
    ensures ConsumeAll(Found(None, None, None, None), [WEEKDAYS[i], Pad(d, 2), MONTHS[m - 1], Pad(yy, 2), Clock(hh, mm, ss), "GMT"])
         == Found(Some((hh, mm, ss)), Some(d), Some(m), Some(yy))
  {
    hide CookieClock, LeadingDigits, CookieMonth, Pad, Clock;
    var f0 := Found(None, None, None, None);
    var f2 := f0.(day := Some(d));
    var f3 := f2.(month := Some(m));
    var f4 := f3.(year := Some(yy));
    var f5 := f4.(clock := Some((hh, mm, ss)));
    assert Pow10(2) == 100;
    PadLength(d, 2);
    PadLength(yy, 2);
    NumberWord(d, 2);
    NumberWord(yy, 2);
    assert Consume(f0, WEEKDAYS[i]) == f0 by {
      LetterWord(WEEKDAYS[i]);
      WeekdayNotMonth(i);
    }
    assert Consume(f0, Pad(d, 2)) == f2;
    assert Consume(f2, MONTHS[m - 1]) == f3 by {
      LetterWord(MONTHS[m - 1]);
      MonthIsMonth(m);
    }
    assert Consume(f3, Pad(yy, 2)) == f4;
    assert Consume(f4, Clock(hh, mm, ss)) == f5 by {
      CookieClockReads(hh, mm, ss);
    }
    assert Consume(f5, "GMT") == f5 by {
      LetterWord("GMT");
    }
    SixSteps(f0, WEEKDAYS[i], Pad(d, 2), MONTHS[m - 1], Pad(yy, 2), Clock(hh, mm, ss), "GMT");
  }

  /** Two digits stand for the years from 1970 to 2069. */
  lemma ShortYearReads(i: nat, y: nat, m: nat, d: nat, hh: nat, mm: nat, ss: nat)
    requires i < 7 && 1970 <= y < 2070 && ValidDate(y, m, d) && hh < 24 && mm < 60 && ss < 60
    ensures ParseCookieDate(ShortDate(i, d, MONTHS[m - 1], y % 100, Clock(hh, mm, ss)))
         == Some(NaiveDays(y, m, d) * 86400 + hh * 3600 + mm * 60 + ss)
  {
    hide Tokens, Consume, ConsumeAll, ShortDate, Clock, Pad, PlainWord, NaiveDays, DaysFromCivil;
    ClockIsPlain(hh, mm, ss);
    MonthsRead(m);
    ShortTokens(i, d, MONTHS[m - 1], y % 100, Clock(hh, mm, ss));
    ShortTokensFill(i, d, m, y % 100, hh, mm, ss);
    assert FullYear(y % 100) == y;
    EpochIsNaive(y, m, d, hh, mm, ss);
    NaiveDaysFromEpoch(y, m, d);
  }

  lemma NaiveDaysFromEpoch(y: nat, m: nat, d: nat)
    requires y >= 1970 && ValidDate(y, m, d)
    ensures NaiveDays(y, m, d) >= 0
  {
    DaysBeforeYearClosed(1970);
    YearsMonotone(1970, y);
  }

  lemma {:induction false} YearsMonotone(a: nat, b: nat)
    requires a <= b
    ensures DaysBeforeYear(a) <= DaysBeforeYear(b)
    decreases b
  {
    if a < b {
      YearsMonotone(a, b - 1);
    }
  }
}
