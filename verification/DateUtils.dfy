/** The date helpers of the library module: each turns the "YYYY-MM-DD"
    value of a date input into a local date-time at a fixed time of day, so
    that a later conversion to UTC cannot move it to the previous day. A
    `Date` is modelled by the components handed to its local-time
    constructor. */
module DateUtils {
  import opened Options
  import Strings
  import Numbers

  /** Year, month index (0 = January), day, and time of day. */
  datatype LocalDateTime = LocalDateTime(
    year: int, monthIndex: int, day: int,
    hours: int, minutes: int, seconds: int, millis: int)

  /** What a helper returns: `new Date()` for an empty string, a local
      date-time, or an invalid `Date` when a component is `NaN`. */
  datatype ParsedDate = CurrentTime | At(moment: LocalDateTime) | InvalidDate

  const MillisPerDay: int := 24 * 60 * 60 * 1000

  /** Milliseconds since local midnight. */
  function TimeOfDay(t: LocalDateTime): int {
    ((t.hours * 60 + t.minutes) * 60 + t.seconds) * 1000 + t.millis
  }

  /** The `Date` constructor's rule for its year argument: 0 to 99 mean
      1900 to 1999. */
  function MakeFullYear(y: int): (r: int)
    ensures r == y || r == 1900 + y
    ensures !(0 <= r <= 99)
    ensures r != y <==> 0 <= y <= 99
  {
    if 0 <= y <= 99 then 1900 + y else y
  }

  /** `const [year, month, day] = s.split('-').map(Number)`: a piece that is
      missing is `undefined`, which the constructor reads as `NaN` too. */
  function DateFields(s: string): (r: (Option<int>, Option<int>, Option<int>))
    ensures WellFormed(s) ==> r == (Some(YearDigits(s)), Some(MonthDigits(s)), Some(DayDigits(s)))
    ensures '-' !in s ==> r.1.None? && r.2.None?
  {
    assert WellFormed(s) ==> Strings.Split(s, '-') == [s[..4], s[5..7], s[8..]] by {
      if WellFormed(s) {
        SplitWellFormed(s);
      }
    }
    assert '-' !in s ==> Strings.Split(s, '-') == [s] by {
      if '-' !in s {
        Strings.SplitPrefix(s, "", '-');
        assert s + "" == s;
      }
    }
    var parts := Strings.Split(s, '-');
    (Numbers.NumberOf(parts[0]),
     if |parts| > 1 then Numbers.NumberOf(parts[1]) else None,
     if |parts| > 2 then Numbers.NumberOf(parts[2]) else None)
  }

  /** The body the three helpers share, with their fixed time of day as
      parameters: `new Date(year, month - 1, day, h, m, s, ms)`. */
  function ParseDateAt(s: string, hours: int, minutes: int, seconds: int, millis: int): (r: ParsedDate)
    ensures r == CurrentTime <==> s == ""
    ensures r == InvalidDate <==> s != "" && (DateFields(s).0.None? || DateFields(s).1.None? || DateFields(s).2.None?)
    ensures r.At? ==> (r.moment.hours, r.moment.minutes, r.moment.seconds, r.moment.millis) == (hours, minutes, seconds, millis)
    ensures r.At? ==> !(0 <= r.moment.year <= 99)
  {
    if s == "" then CurrentTime
    else
      var (y, m, d) := DateFields(s);
      if y.None? || m.None? || d.None? then InvalidDate
      else At(LocalDateTime(MakeFullYear(y.value), m.value - 1, d.value, hours, minutes, seconds, millis))
  }

  function ParseDateToNoon(s: string): (r: ParsedDate)
    ensures r == CurrentTime <==> s == ""
    ensures r.At? ==> TimeOfDay(r.moment) == MillisPerDay / 2
  {
    ParseDateAt(s, 12, 0, 0, 0)
  }

  function ParseDateToStartOfDay(s: string): (r: ParsedDate)
    ensures r == CurrentTime <==> s == ""
    ensures r.At? ==> TimeOfDay(r.moment) == 0
  {
    ParseDateAt(s, 0, 0, 0, 0)
  }

  function ParseDateToEndOfDay(s: string): (r: ParsedDate)
    ensures r == CurrentTime <==> s == ""
    ensures r.At? ==> TimeOfDay(r.moment) == MillisPerDay - 1
  {
    ParseDateAt(s, 23, 59, 59, 999)
  }

  /** The shape an HTML date input produces: four digits, '-', two digits,
      '-', two digits. */
  predicate WellFormed(s: string) {
    && |s| == 10 && s[4] == '-' && s[7] == '-'
    && Numbers.AllDigits(s[..4]) && Numbers.AllDigits(s[5..7]) && Numbers.AllDigits(s[8..])
  }

  function YearDigits(s: string): nat
    requires WellFormed(s)
  {
    Numbers.DigitsValue(s[..4])
  }

  function MonthDigits(s: string): nat
    requires WellFormed(s)
  {
    Numbers.DigitsValue(s[5..7])
  }

  function DayDigits(s: string): nat
    requires WellFormed(s)
  {
    Numbers.DigitsValue(s[8..])
  }

  /** A well-formed string splits into its three digit groups. */
  lemma SplitWellFormed(s: string)
    requires WellFormed(s)
    ensures Strings.Split(s, '-') == [s[..4], s[5..7], s[8..]]
  {
    var parts := [s[..4], s[5..7], s[8..]];
    forall i | 0 <= i < 3
      ensures '-' !in parts[i]
    {
      assert Numbers.AllDigits(parts[i]);
    }
    Strings.JoinUnfold(parts, "-");
    Strings.JoinUnfold(parts[1..], "-");
    assert Strings.Join(parts, "-") == s;
    Strings.SplitJoin(parts, '-');
  }

  /** The calendar components of a well-formed string at the given time of
      day: the year as written (two-digit years aside), the month minus one,
      the day as written. */
  lemma {:induction false} ParseWellFormed(s: string, h: int, mi: int, sec: int, ms: int)
    requires WellFormed(s)
    ensures ParseDateAt(s, h, mi, sec, ms)
      == At(LocalDateTime(MakeFullYear(YearDigits(s)), MonthDigits(s) - 1, DayDigits(s), h, mi, sec, ms))
  {
    SplitWellFormed(s);
  }

  /** The noon helper on a well-formed date: year (from 100 on), month index
      and day as written, at 12:00:00.000. */
  lemma NoonComponents(s: string)
    requires WellFormed(s) && YearDigits(s) >= 100
    ensures ParseDateToNoon(s).At?
    ensures ParseDateToNoon(s).moment
      == LocalDateTime(YearDigits(s), MonthDigits(s) - 1, DayDigits(s), 12, 0, 0, 0)
  {
    ParseWellFormed(s, 12, 0, 0, 0);
  }

  /** A year written below 100 is moved into the twentieth century by the
      constructor: "0023-10-02" gives the year 1923. */
  lemma TwoDigitYear(s: string)
    requires WellFormed(s) && YearDigits(s) < 100
    ensures ParseDateToNoon(s).At? && ParseDateToNoon(s).moment.year == 1900 + YearDigits(s)
  {
    ParseWellFormed(s, 12, 0, 0, 0);
  }

  /** The three digit groups of "2023-10-02". */
  lemma OctoberSecondParts(s: string)
    requires s == "2023-10-02"
    ensures WellFormed(s) && YearDigits(s) == 2023 && MonthDigits(s) == 10 && DayDigits(s) == 2
  {
    assert s[..4] == "2023" by {
      assert s[0] == '2' && s[1] == '0' && s[2] == '2' && s[3] == '3';
    }
    assert s[5..7] == "10" by {
      assert s[5] == '1' && s[6] == '0';
    }
    assert s[8..] == "02" by {
      assert s[8] == '0' && s[9] == '2';
    }
    assert Numbers.DigitsValue("2023") == 2023 by {
      assert "2023"[..3] == "202" && "202"[..2] == "20" && "20"[..1] == "2";
    }
    assert Numbers.DigitsValue("10") == 10 by {
      assert "10"[..1] == "1";
    }
    assert Numbers.DigitsValue("02") == 2 by {
      assert "02"[..1] == "0";
    }
  }

  /** "2023-10-02" gives 2 October 2023 (month index 9) at noon, at the start
      of the day and at its last millisecond. */
  lemma ExampleOctoberSecond()
    ensures ParseDateToNoon("2023-10-02") == At(LocalDateTime(2023, 9, 2, 12, 0, 0, 0))
    ensures ParseDateToStartOfDay("2023-10-02") == At(LocalDateTime(2023, 9, 2, 0, 0, 0, 0))
    ensures ParseDateToEndOfDay("2023-10-02") == At(LocalDateTime(2023, 9, 2, 23, 59, 59, 999))
  {
    var s := "2023-10-02";
    OctoberSecondParts(s);
    ParseWellFormed(s, 12, 0, 0, 0);
    ParseWellFormed(s, 0, 0, 0, 0);
    ParseWellFormed(s, 23, 59, 59, 999);
  }

  /** Only the empty string takes the current-time branch, in all three. */
  lemma EmptyIsCurrentTime(s: string)
    ensures ParseDateToNoon(s) == CurrentTime <==> s == ""
    ensures ParseDateToStartOfDay(s) == CurrentTime <==> s == ""
    ensures ParseDateToEndOfDay(s) == CurrentTime <==> s == ""
  {
  }

  /** For any input the three helpers agree on the outcome and on the day,
      and order start < noon < end inside that day: start is its first
      millisecond and end its last. */
  lemma SameDayBounds(s: string)
    ensures ParseDateToStartOfDay(s).At? <==> ParseDateToNoon(s).At?
    ensures ParseDateToEndOfDay(s).At? <==> ParseDateToNoon(s).At?
    ensures ParseDateToNoon(s).At? ==>
      var start, noon, end := ParseDateToStartOfDay(s).moment, ParseDateToNoon(s).moment, ParseDateToEndOfDay(s).moment;
      && start.year == noon.year == end.year
      && start.monthIndex == noon.monthIndex == end.monthIndex
      && start.day == noon.day == end.day
      && 0 == TimeOfDay(start) < TimeOfDay(noon) < TimeOfDay(end) == MillisPerDay - 1
  {
  }
}
