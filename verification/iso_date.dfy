/**
 * The `%Y-%m-%d` date format, both ways: `date.strftime("%Y-%m-%d")` and
 * `datetime.strptime(text, "%Y-%m-%d").date()`.
 *
 * The parser follows the patterns CPython's `_strptime` compiles for this format:
 * `%Y` is exactly four digits, `%m` is `1[0-2]|0[1-9]|[1-9]`, `%d` is
 * `3[01]|[12]\d|0[1-9]|[1-9]| [1-9]`, nothing may follow the day, and the
 * resulting (year, month, day) must be a valid date, otherwise ValueError.
 * So "2024-5-7" and "2024-05- 7" are accepted as well as "2024-05-07".
 */
module IsoDate {
  import opened Wrappers
  import opened Digits
  import opened Calendar

  /**
   * `d.strftime("%Y-%m-%d")`: ten characters, dashes at 4 and 7, and ASCII digits
   * elsewhere spelling the year, month and day with leading zeros.
   */
  function Format(d: Date): (s: string)
    requires Valid(d)
    ensures |s| == 10 && s[4] == '-' && s[7] == '-'
    ensures forall i :: 0 <= i < 10 && i != 4 && i != 7 ==> IsDigit(s[i])
    ensures 1000 * DigitValue(s[0]) + 100 * DigitValue(s[1]) + 10 * DigitValue(s[2]) + DigitValue(s[3]) == d.year
    ensures 10 * DigitValue(s[5]) + DigitValue(s[6]) == d.month
    ensures 10 * DigitValue(s[8]) + DigitValue(s[9]) == d.day
  {
    var year := Pad4(d.year);
    var month := Pad2(d.month);
    var day := Pad2(d.day);
    var s := year + "-" + month + "-" + day;
    assert s[..4] == year && s[5..7] == month && s[8..] == day;
    s
  }

  /** `%Y`: four ASCII digits. */
  function YearToken(t: string): (r: Option<int>)
    ensures r.Some? ==> 0 <= r.value <= 9999
  {
    if |t| == 4 && IsDigit(t[0]) && IsDigit(t[1]) && IsDigit(t[2]) && IsDigit(t[3])
    then Some(1000 * DigitValue(t[0]) + 100 * DigitValue(t[1]) + 10 * DigitValue(t[2]) + DigitValue(t[3]))
    else None
  }

  /** `%m`: `1[0-2]`, `0[1-9]` or `[1-9]`. */
  function MonthToken(t: string): (r: Option<int>)
    ensures r.Some? ==> 1 <= r.value <= 12
  {
    if |t| == 2 && t[0] == '1' && '0' <= t[1] <= '2' then Some(10 + DigitValue(t[1]))
    else if |t| == 2 && t[0] == '0' && '1' <= t[1] <= '9' then Some(DigitValue(t[1]))
    else if |t| == 1 && '1' <= t[0] <= '9' then Some(DigitValue(t[0]))
    else None
  }

  /** `%d`: `3[01]`, `[12]\d`, `0[1-9]`, `[1-9]` or a space then `[1-9]`. */
  function DayToken(t: string): (r: Option<int>)
    ensures r.Some? ==> 1 <= r.value <= 31
  {
    if |t| == 2 && t[0] == '3' && '0' <= t[1] <= '1' then Some(30 + DigitValue(t[1]))
    else if |t| == 2 && '1' <= t[0] <= '2' && IsDigit(t[1]) then Some(10 * DigitValue(t[0]) + DigitValue(t[1]))
    else if |t| == 2 && (t[0] == '0' || t[0] == ' ') && '1' <= t[1] <= '9' then Some(DigitValue(t[1]))
    else if |t| == 1 && '1' <= t[0] <= '9' then Some(DigitValue(t[0]))
    else None
  }

  function Assemble(yearText: string, monthText: string, dayText: string): (r: Option<Date>)
    ensures r.Some? ==> Valid(r.value)
  {
    match (YearToken(yearText), MonthToken(monthText), DayToken(dayText))
    case (Some(y), Some(m), Some(d)) =>
      if Valid(Date(y, m, d)) then Some(Date(y, m, d)) else None
    case _ => None
  }

  /**
   * `datetime.strptime(s, "%Y-%m-%d").date()`; None where it raises ValueError.
   * A month token cannot contain '-', so the position of the second '-' decides
   * whether the month has one digit or two.
   */
  function Parse(s: string): (r: Option<Date>)
    ensures r.Some? ==> Valid(r.value) && 8 <= |s| <= 10
  {
    if |s| < 8 || s[4] != '-' then None
    else if s[6] == '-' then Assemble(s[..4], s[5..6], s[7..])
    else if s[7] == '-' then Assemble(s[..4], s[5..7], s[8..])
    else None
  }

  /** Parsing undoes formatting for every date the standard library can hold. */
  lemma ParseFormat(d: Date)
    requires Valid(d)
    ensures Parse(Format(d)) == Some(d)
  {
    SpellingParses(d, Pad2(d.month), Pad2(d.day));
  }

  /** The texts `%m` reads as month `m`: two digits with a leading zero, or one digit below 10. */
  function MonthSpellings(m: int): set<string>
    requires 1 <= m <= 12
  {
    {Pad2(m)} + (if m < 10 then {[DigitChar(m)]} else {})
  }

  /** The texts `%d` reads as day `n`: two digits, or below 10 one digit alone or after a space. */
  function DaySpellings(n: int): set<string>
    requires 1 <= n <= 31
  {
    {Pad2(n)} + (if n < 10 then {[DigitChar(n)], [' ', DigitChar(n)]} else {})
  }

  /** `s` writes `d` as `%Y-%m-%d` reads it: the four year digits, then any spelling of month and day. */
  predicate Spells(s: string, d: Date)
    requires Valid(d)
  {
    exists mt, dt :: mt in MonthSpellings(d.month) && dt in DaySpellings(d.day) && s == Pad4(d.year) + "-" + mt + "-" + dt
  }

  /** Two ASCII digits are the zero-padded spelling of the number they read as. */
  lemma TwoDigitsArePad2(t: string, n: int)
    requires |t| == 2 && IsDigit(t[0]) && IsDigit(t[1])
    requires 10 * DigitValue(t[0]) + DigitValue(t[1]) == n
    ensures t == Pad2(n)
  {
    var p := Pad2(n);
    assert DigitValue(t[0]) == DigitValue(p[0]) && DigitValue(t[1]) == DigitValue(p[1]);
  }

  /** Four digits fix the year text: `%Y` reads `y` only from `Pad4(y)`. */
  lemma YearTokenText(t: string, y: int)
    requires YearToken(t) == Some(y)
    ensures t == Pad4(y)
  {
    var hi := 10 * DigitValue(t[0]) + DigitValue(t[1]);
    var lo := 10 * DigitValue(t[2]) + DigitValue(t[3]);
    assert y / 100 == hi && y % 100 == lo;
    TwoDigitsArePad2(t[..2], hi);
    TwoDigitsArePad2(t[2..], lo);
    assert t == t[..2] + t[2..];
  }

  lemma MonthTokenText(t: string, m: int)
    requires MonthToken(t) == Some(m)
    ensures t in MonthSpellings(m)
  {
    if |t| == 2 {
      TwoDigitsArePad2(t, m);
    } else {
      assert t == [DigitChar(m)];
    }
  }

  lemma DayTokenText(t: string, n: int)
    requires DayToken(t) == Some(n)
    ensures t in DaySpellings(n)
  {
    if |t| == 2 && t[0] == ' ' {
      assert t == [' ', DigitChar(n)];
    } else if |t| == 2 {
      TwoDigitsArePad2(t, n);
    } else {
      assert t == [DigitChar(n)];
    }
  }

  lemma MonthSpellingToken(t: string, m: int)
    requires 1 <= m <= 12 && t in MonthSpellings(m)
    ensures MonthToken(t) == Some(m)
  {
    if t == Pad2(m) {
      assert m < 10 ==> t[0] == '0';
      assert m >= 10 ==> t[0] == '1';
    }
  }

  lemma DaySpellingToken(t: string, n: int)
    requires 1 <= n <= 31 && t in DaySpellings(n)
    ensures DayToken(t) == Some(n)
  {
    if t == Pad2(n) {
      assert n < 10 ==> t[0] == '0';
    }
  }

  /** Whatever `strptime` accepts is a spelling of the valid date it returns. */
  lemma ParseOnlySpellings(s: string, d: Date)
    requires Parse(s) == Some(d)
    ensures Valid(d) && Spells(s, d)
  {
    var split := if s[6] == '-' then 6 else 7;
    var mt, dt := s[5..split], s[split + 1..];
    YearTokenText(s[..4], d.year);
    MonthTokenText(mt, d.month);
    DayTokenText(dt, d.day);
    assert s == s[..4] + "-" + mt + "-" + dt;
  }

  /** Where the parts of `year-month-day` sit once joined. */
  lemma JoinedParts(year: string, mt: string, dt: string)
    requires |year| == 4 && 1 <= |mt| <= 2 && 1 <= |dt|
    ensures var s := year + "-" + mt + "-" + dt;
      && var split := 5 + |mt|;
      && s[4] == '-' && s[split] == '-' && s[5] == mt[0] && s[6] == (if split == 6 then '-' else mt[1])
      && s[..4] == year && s[5..split] == mt && s[split + 1..] == dt
  {
    var s := year + "-" + mt + "-" + dt;
    var split := 5 + |mt|;
    assert s[..4] == year;
    assert s[5..split] == mt;
    assert s[split + 1..] == dt;
  }

  /** One spelling of a valid date, given by its month and day texts, parses to that date. */
  lemma SpellingParses(d: Date, mt: string, dt: string)
    requires Valid(d) && mt in MonthSpellings(d.month) && dt in DaySpellings(d.day)
    ensures Parse(Pad4(d.year) + "-" + mt + "-" + dt) == Some(d)
  {
    MonthSpellingToken(mt, d.month);
    DaySpellingToken(dt, d.day);
    JoinedParts(Pad4(d.year), mt, dt);
  }

  /** Every spelling of a valid date is accepted and read as that date. */
  lemma SpellingsParse(s: string, d: Date)
    requires Valid(d) && Spells(s, d)
    ensures Parse(s) == Some(d)
  {
    var mt, dt :| mt in MonthSpellings(d.month) && dt in DaySpellings(d.day) && s == Pad4(d.year) + "-" + mt + "-" + dt;
    SpellingParses(d, mt, dt);
  }

  /** `strptime` accepts exactly the spellings of valid dates, and reads each as the date it spells. */
  lemma ParseExactlySpellings(s: string, d: Date)
    ensures Parse(s) == Some(d) <==> Valid(d) && Spells(s, d)
  {
    if Parse(s) == Some(d) {
      ParseOnlySpellings(s, d);
    }
    if Valid(d) && Spells(s, d) {
      SpellingsParse(s, d);
    }
  }

  /** `text` reads as the date whose ordinal is `n`. */
  predicate NamesDay(text: string, n: int) {
    Parse(text).Some? && ToOrdinal(Parse(text).value) == n
  }

  /** Formatting is one-to-one, so two dates that print alike are the same date. */
  lemma FormatInjective(a: Date, b: Date)
    requires Valid(a) && Valid(b)
    requires Format(a) == Format(b)
    ensures a == b
  {
    ParseFormat(a);
    ParseFormat(b);
  }

  /** The parser is lenient: unpadded and space-padded fields name the same date. */
  lemma ParseAcceptsShortFields()
    ensures Parse("2024-5-7") == Some(Date(2024, 5, 7))
    ensures Parse("2024-05- 7") == Some(Date(2024, 5, 7))
    ensures Parse("2024-02-30") == None
    ensures Parse("2024-05-07x") == None
  {
    assert "2024-5-7"[..4] == "2024";
    assert "2024-5-7"[5..6] == "5";
    assert "2024-5-7"[7..] == "7";
    assert "2024-05- 7"[..4] == "2024";
    assert "2024-05- 7"[5..7] == "05";
    assert "2024-05- 7"[8..] == " 7";
    assert "2024-02-30"[5..7] == "02";
    assert "2024-02-30"[8..] == "30";
    assert "2024-05-07x"[8..] == "07x";
  }
}
