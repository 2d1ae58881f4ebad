/**
 * The date check the create handler performs: `datetime.strptime(s, '%Y-%m-%d')`
 * either returns or raises `ValueError`.
 *
 * CPython's `_strptime` turns the format into a regular expression, matches it at
 * the start of the string, refuses any unconverted text left at the end, and then
 * builds a `datetime.date`, which refuses out-of-range calendar values. The regular
 * expression pieces are
 *   %Y  four digits
 *   %m  1[0-2] | 0[1-9] | [1-9]
 *   %d  3[01] | [12]\d | 0[1-9] | [1-9] | ' '[1-9]
 * and the engine tries the alternatives in that order. `ParseDate` follows this
 * construction step by step; `Spellings` is an independent description of the
 * accepted strings, and `ParseDateExactly` proves the two agree.
 */
module Dates {
  import opened Options

  datatype Date = Date(year: int, month: int, day: int)

  /** Gregorian leap years, as `datetime` uses them (proleptic calendar). */
  predicate IsLeapYear(y: int) {
    y % 4 == 0 && (y % 100 != 0 || y % 400 == 0)
  }

  function DaysInMonth(y: int, m: int): int
    requires 1 <= m <= 12
  {
    if m == 2 then (if IsLeapYear(y) then 29 else 28)
    else if m == 4 || m == 6 || m == 9 || m == 11 then 30
    else 31
  }

  /** A date `datetime.date` accepts: year 1 to 9999, month 1 to 12, day within the month. */
  predicate IsCalendarDate(d: Date) {
    1 <= d.year <= 9999 && 1 <= d.month <= 12 && 1 <= d.day <= DaysInMonth(d.year, d.month)
  }

  predicate IsDigit(c: char) {
    '0' <= c <= '9'
  }

  function DigitValue(c: char): (n: nat)
    requires IsDigit(c)
    ensures n < 10
  {
    c as int - '0' as int
  }

  function DigitChar(n: nat): (c: char)
    requires n < 10
    ensures IsDigit(c) && DigitValue(c) == n
  {
    ('0' as int + n) as char
  }

  /** What one piece of the regular expression matched: its numeric value and how many characters it took. */
  datatype Field = Field(value: int, width: nat)

  /** `%Y`: exactly four digits. */
  function MatchYear(s: string): (r: Option<Field>)
    ensures r.Some? ==> r.value.width == 4 <= |s| && 0 <= r.value.value <= 9999
  {
    if |s| >= 4 && IsDigit(s[0]) && IsDigit(s[1]) && IsDigit(s[2]) && IsDigit(s[3]) then
      Some(Field(1000 * DigitValue(s[0]) + 100 * DigitValue(s[1]) + 10 * DigitValue(s[2]) + DigitValue(s[3]), 4))
    else
      None
  }

  /** `%m`: the first of `1[0-2]`, `0[1-9]`, `[1-9]` that matches at the start of `s`. */
  function MatchMonth(s: string): (r: Option<Field>)
    ensures r.Some? ==> 1 <= r.value.width <= |s| && 1 <= r.value.value <= 12
  {
    if |s| >= 2 && s[0] == '1' && '0' <= s[1] <= '2' then Some(Field(10 + DigitValue(s[1]), 2))
    else if |s| >= 2 && s[0] == '0' && '1' <= s[1] <= '9' then Some(Field(DigitValue(s[1]), 2))
    else if |s| >= 1 && '1' <= s[0] <= '9' then Some(Field(DigitValue(s[0]), 1))
    else None
  }

  /** `%d`: the first of `3[01]`, `[12]\d`, `0[1-9]`, `[1-9]`, `' '[1-9]` that matches at the start of `s`. */
  function MatchDay(s: string): (r: Option<Field>)
    ensures r.Some? ==> 1 <= r.value.width <= |s| && 1 <= r.value.value <= 31
  {
    if |s| >= 2 && s[0] == '3' && '0' <= s[1] <= '1' then Some(Field(30 + DigitValue(s[1]), 2))
    else if |s| >= 2 && '1' <= s[0] <= '2' && IsDigit(s[1]) then Some(Field(10 * DigitValue(s[0]) + DigitValue(s[1]), 2))
    else if |s| >= 2 && s[0] == '0' && '1' <= s[1] <= '9' then Some(Field(DigitValue(s[1]), 2))
    else if |s| >= 1 && '1' <= s[0] <= '9' then Some(Field(DigitValue(s[0]), 1))
    else if |s| >= 2 && s[0] == ' ' && '1' <= s[1] <= '9' then Some(Field(DigitValue(s[1]), 2))
    else None
  }

  /**
   * `strptime(s, '%Y-%m-%d')`: `None` where it raises `ValueError`, otherwise the date it reads.
   * The month expression never needs to backtrack: whenever its first alternative matches,
   * the shorter one leaves a digit, not the `-` that must follow.
   */
  function ParseDate(s: string): (r: Option<Date>)
    ensures r.Some? ==> IsCalendarDate(r.value)
  {
    match MatchYear(s)
    case None => None
    case Some(y) =>
      var afterYear := s[4..];
      if |afterYear| == 0 || afterYear[0] != '-' then None
      else
        match MatchMonth(afterYear[1..])
        case None => None
        case Some(m) =>
          var afterMonth := afterYear[1 + m.width..];
          if |afterMonth| == 0 || afterMonth[0] != '-' then None
          else
            match MatchDay(afterMonth[1..])
            case None => None
            case Some(d) =>
              if 1 + d.width != |afterMonth| then None  // unconverted data remains
              else if y.value < 1 || d.value > DaysInMonth(y.value, m.value) then None
              else Some(Date(y.value, m.value, d.value))
  }

  /** The check the create handler relies on: `strptime` does not raise. */
  predicate IsValidDate(s: string) {
    ParseDate(s).Some?
  }

  // ---------------------------------------------------------------------------
  // An independent description of the strings `ParseDate` accepts

  function Pad2(n: nat): (s: string)
    requires n < 100
  {
    [DigitChar(n / 10), DigitChar(n % 10)]
  }

  function Pad4(n: nat): (s: string)
    requires n < 10000
  {
    Pad2(n / 100) + Pad2(n % 100)
  }

  /** The ISO form `YYYY-MM-DD` with zero padding. */
  function IsoFormat(d: Date): (s: string)
    requires IsCalendarDate(d)
  {
    Pad4(d.year) + "-" + Pad2(d.month) + "-" + Pad2(d.day)
  }

  /** A month is written with two digits, or with one when it is below 10. */
  function MonthSpellings(m: nat): set<string>
    requires 1 <= m <= 12
  {
    {Pad2(m)} + if m < 10 then {[DigitChar(m)]} else {}
  }

  /** A day is written with two digits, or, when below 10, with one digit or a space and one digit. */
  function DaySpellings(d: nat): set<string>
    requires 1 <= d <= 31
  {
    {Pad2(d)} + if d < 10 then {[DigitChar(d)], [' ', DigitChar(d)]} else {}
  }

  /** Every way of writing `d` that `strptime(..., '%Y-%m-%d')` reads back as `d`. */
  ghost function Spellings(d: Date): set<string>
    requires IsCalendarDate(d)
  {
    set ms, ds | ms in MonthSpellings(d.month) && ds in DaySpellings(d.day) :: Pad4(d.year) + "-" + ms + "-" + ds
  }

  // ---------------------------------------------------------------------------
  // Each piece of the regular expression reads exactly its own spellings

  lemma DivideByTen(n: int, q: int, r: int)
    requires 0 <= r < 10 && n == 10 * q + r
    ensures n / 10 == q && n % 10 == r
  {
  }

  lemma DivideByHundred(n: int, q: int, r: int)
    requires 0 <= r < 100 && n == 100 * q + r
    ensures n / 100 == q && n % 100 == r
  {
  }

  /** The four digits of `Pad4(y)` and their value. */
  lemma {:induction false} Pad4Digits(y: nat)
    requires y < 10000
    ensures
      var s := Pad4(y);
      && |s| == 4 && IsDigit(s[0]) && IsDigit(s[1]) && IsDigit(s[2]) && IsDigit(s[3])
      && 1000 * DigitValue(s[0]) + 100 * DigitValue(s[1]) + 10 * DigitValue(s[2]) + DigitValue(s[3]) == y
  {
    var hi, lo := y / 100, y % 100;
    assert y == 100 * hi + lo;
    assert hi == 10 * (hi / 10) + hi % 10;
    assert lo == 10 * (lo / 10) + lo % 10;
  }

  lemma {:induction false} YearRead(y: nat, rest: string)
    requires y < 10000
    ensures MatchYear(Pad4(y) + rest) == Some(Field(y, 4))
  {
    Pad4Digits(y);
    var s := Pad4(y) + rest;
    assert s[..4] == Pad4(y);
  }

  lemma {:induction false} YearSpelled(s: string)
    requires MatchYear(s).Some?
    ensures s[..4] == Pad4(MatchYear(s).value.value)
  {
    var a, b, c, e := DigitValue(s[0]), DigitValue(s[1]), DigitValue(s[2]), DigitValue(s[3]);
    var y := MatchYear(s).value.value;
    assert y == 100 * (10 * a + b) + (10 * c + e);
    DivideByHundred(y, 10 * a + b, 10 * c + e);
    DivideByTen(10 * a + b, a, b);
    DivideByTen(10 * c + e, c, e);
    assert Pad2(10 * a + b) == [s[0], s[1]];
    assert Pad2(10 * c + e) == [s[2], s[3]];
    assert s[..4] == [s[0], s[1]] + [s[2], s[3]];
  }

  lemma {:induction false} MonthRead(m: nat, t: string, rest: string)
    requires 1 <= m <= 12 && t in MonthSpellings(m)
    requires |rest| > 0 && rest[0] == '-'
    ensures MatchMonth(t + rest) == Some(Field(m, |t|))
  {
    var s := t + rest;
    if t == Pad2(m) {
      assert s[0] == DigitChar(m / 10) && s[1] == DigitChar(m % 10);
    } else {
      assert s[0] == DigitChar(m) && s[1] == '-';
    }
  }

  lemma {:induction false} MonthSpelled(s: string)
    requires MatchMonth(s).Some?
    ensures s[..MatchMonth(s).value.width] in MonthSpellings(MatchMonth(s).value.value)
  {
    var f := MatchMonth(s).value;
    if f.width == 2 {
      assert s[..2] == [s[0], s[1]] == Pad2(f.value);
    } else {
      assert s[..1] == [s[0]] == [DigitChar(f.value)];
    }
  }

  lemma {:induction false} DayRead(d: nat, t: string)
    requires 1 <= d <= 31 && t in DaySpellings(d)
    ensures MatchDay(t) == Some(Field(d, |t|))
  {
    if t == Pad2(d) {
      assert t[0] == DigitChar(d / 10) && t[1] == DigitChar(d % 10);
    }
  }

  lemma {:induction false} DaySpelled(s: string)
    requires MatchDay(s).Some?
    ensures s[..MatchDay(s).value.width] in DaySpellings(MatchDay(s).value.value)
  {
    var f := MatchDay(s).value;
    if f.width == 1 {
      assert s[..1] == [s[0]] == [DigitChar(f.value)];
    } else if s[0] == ' ' {
      assert s[..2] == [' ', DigitChar(f.value)];
    } else {
      assert s[..2] == [s[0], s[1]] == Pad2(f.value);
    }
  }

  // ---------------------------------------------------------------------------
  // What `strptime(..., '%Y-%m-%d')` accepts, exactly

  /** `ParseDate` reads `s` as `d` exactly when `d` is a calendar date and `s` is one of its spellings. */
  lemma ParseDateExactly(s: string, d: Date)
    ensures ParseDate(s) == Some(d) <==> IsCalendarDate(d) && s in Spellings(d)
  {
    if ParseDate(s) == Some(d) {
      ParseDateSpelled(s);
    }
    if IsCalendarDate(d) && s in Spellings(d) {
      var ms, ds :| ms in MonthSpellings(d.month) && ds in DaySpellings(d.day)
        && s == Pad4(d.year) + "-" + ms + "-" + ds;
      SpellingParses(d, ms, ds);
    }
  }

  lemma {:induction false} ParseDateSpelled(s: string)
    requires ParseDate(s).Some?
    ensures s in Spellings(ParseDate(s).value)
  {
    var d := ParseDate(s).value;
    var m := MatchMonth(s[5..]).value;
    var day := MatchDay(s[6 + m.width..]).value;
    YearSpelled(s);
    MonthSpelled(s[5..]);
    DaySpelled(s[6 + m.width..]);
    var ys, ms, ds := s[..4], s[5..5 + m.width], s[6 + m.width..];
    assert s[5..][..m.width] == ms;
    assert s[6 + m.width..][..day.width] == ds;
    assert s == ys + "-" + ms + "-" + ds;
  }

  lemma {:induction false} SpellingParses(d: Date, ms: string, ds: string)
    requires IsCalendarDate(d) && ms in MonthSpellings(d.month) && ds in DaySpellings(d.day)
    ensures ParseDate(Pad4(d.year) + "-" + ms + "-" + ds) == Some(d)
  {
    var s := Pad4(d.year) + "-" + ms + "-" + ds;
    var afterYear := "-" + ms + "-" + ds;
    assert s == Pad4(d.year) + afterYear;
    YearRead(d.year, afterYear);
    assert s[4..] == afterYear;
    assert afterYear[1..] == ms + ("-" + ds);
    MonthRead(d.month, ms, "-" + ds);
    assert afterYear[1 + |ms|..] == "-" + ds;
    assert ("-" + ds)[1..] == ds;
    DayRead(d.day, ds);
  }

  /** The zero-padded ISO form of a calendar date is read back as that date. */
  lemma ParseIsoFormat(d: Date)
    requires IsCalendarDate(d)
    ensures ParseDate(IsoFormat(d)) == Some(d)
  {
    SpellingParses(d, Pad2(d.month), Pad2(d.day));
  }

  /** Feb 29 is accepted in exactly the leap years. */
  lemma {:induction false} LeapDay(y: nat)
    requires 1 <= y <= 9999
    ensures ParseDate(Pad4(y) + "-02-29") == if IsLeapYear(y) then Some(Date(y, 2, 29)) else None
  {
    var s := Pad4(y) + "-02-29";
    YearRead(y, "-02-29");
    assert s[4..] == "-02-29";
  }

  /** The canonical layout of a date is accepted. */
  lemma IsoExample()
    ensures ParseDate("2024-01-15") == Some(Date(2024, 1, 15))
  {
  }

  /** Unpadded fields are accepted too. */
  lemma UnpaddedExample()
    ensures ParseDate("2024-1-5") == Some(Date(2024, 1, 5))
  {
  }

  /** Another layout, year 0 and trailing text are refused. */
  lemma RefusedExamples()
    ensures ParseDate("13/25/2024") == None
    ensures ParseDate("0000-01-01") == None
    ensures ParseDate("2024-01-15 ") == None
  {
    assert ParseDate("13/25/2024") == None;
    assert ParseDate("0000-01-01") == None;
  }
}
