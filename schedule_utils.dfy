/**
 * Schedule labels such as "12월 25일 (수) 14:00" (src/lib/scheduleUtils.ts).
 *
 * The regular expression `(\d{1,2})월\s*(\d{1,2})일.*?(\d{1,2}):(\d{2})`
 * is written out as a scanner with JavaScript's search semantics: the
 * leftmost start wins; each `\d{1,2}` tries two digits before one; `\s*`
 * takes all the white space; `.*?` takes as few characters as it can and
 * never a line terminator. Every `\d{1,2}` is followed by a literal that is
 * not a digit, so at most one of its two alternatives can succeed and the
 * backtracking search reduces to the choices made here.
 */
module ScheduleUtils {
  import opened Wrappers
  import opened JsString
  import JsDate
  import FormDefaults

  /** The four numbers the schedule pattern captures, after `Number(...)`. */
  datatype Parts = Parts(month: nat, day: nat, hour: nat, minute: nat)

  predicate Captured(p: Parts) {
    p.month < 100 && p.day < 100 && p.hour < 100 && p.minute < 100
  }

  /** An index into the day names, as `Date.prototype.getDay` returns it. */
  type Weekday = d: nat | d < 7

  /**
   * `new Date(`${year}-MM-DDTHH:mm`).getDay()` for the current year, or
   * `None` when that string is not a valid date (the time is NaN).
   */
  type DayOracle = Parts -> Option<Weekday>

  const DayNames: seq<char> := ['일', '월', '화', '수', '목', '금', '토']

  const MonthMark: char := '월'
  const DayMark: char := '일'

  // ------------------------------------------------------------ scanning

  /** `(\d{1,2})` at `i` followed by `mark`: the number and the position after `mark`. */
  function DigitsThen(s: string, i: nat, mark: char): (r: Option<(nat, nat)>)
    requires !IsDigit(mark)
    ensures r.Some? ==> i + 2 <= r.value.1 <= i + 3 && r.value.1 <= |s|
    ensures r.Some? ==> IsDigit(s[i]) && s[r.value.1 - 1] == mark && r.value.0 < 100
  {
    if i + 2 < |s| && IsDigit(s[i]) && IsDigit(s[i + 1]) && s[i + 2] == mark then
      Some((DecimalValue(s[i..i + 2]), i + 3))
    else if i + 1 < |s| && IsDigit(s[i]) && s[i + 1] == mark then
      Some((DecimalValue(s[i..i + 1]), i + 2))
    else None
  }

  /** `(\d{1,2}):(\d{2})` at `p`: hour and minute. */
  function TimeAt(s: string, p: nat): (r: Option<(nat, nat)>)
    ensures r.Some? ==> p < |s| && IsDigit(s[p]) && r.value.0 < 100 && r.value.1 < 100
  {
    match DigitsThen(s, p, ':')
    case None => None
    case Some((h, q)) =>
      if q + 1 < |s| && IsDigit(s[q]) && IsDigit(s[q + 1]) then Some((h, DecimalValue(s[q..q + 2])))
      else None
  }

  /** What `DigitsThen` found is there: the digits before the mark, and the number they spell. */
  lemma DigitsThenReads(s: string, i: nat, mark: char)
    requires !IsDigit(mark) && DigitsThen(s, i, mark).Some?
    ensures var e := DigitsThen(s, i, mark).value.1;
      AllDigits(s[i..e - 1]) && DigitsThen(s, i, mark).value.0 == DecimalValue(s[i..e - 1])
  {
  }

  /**
   * What `TimeAt` found is there: the hour digits before `:`, then two
   * minute digits, each read as the number they spell.
   */
  lemma TimeAtReads(s: string, p: nat)
    requires TimeAt(s, p).Some?
    ensures DigitsThen(s, p, ':').Some?
    ensures var q := DigitsThen(s, p, ':').value.1;
      && AllDigits(s[p..q - 1]) && s[q - 1] == ':' && TimeAt(s, p).value.0 == DecimalValue(s[p..q - 1])
      && q + 2 <= |s| && AllDigits(s[q..q + 2]) && TimeAt(s, p).value.1 == DecimalValue(s[q..q + 2])
  {
    DigitsThenReads(s, p, ':');
  }

  /** No line terminator stands in `s[p..q]`, so `.*?` can cross it. */
  predicate NoLineBreak(s: string, p: nat, q: nat)
    requires q <= |s|
  {
    forall k :: p <= k < q ==> !IsLineTerminator(s[k])
  }

  /** `.*?(\d{1,2}):(\d{2})` from `p`: the nearest time that no line terminator separates from `p`. */
  function LazyTime(s: string, p: nat): (r: Option<(nat, nat)>)
    requires p <= |s|
    ensures r.Some? ==> r.value.0 < 100 && r.value.1 < 100
    decreases |s| - p
  {
    match TimeAt(s, p)
    case Some(t) => Some(t)
    case None =>
      if p < |s| && !IsLineTerminator(s[p]) then LazyTime(s, p + 1) else None
  }

  /**
   * The lazy `.*?` stops at the nearest time start: a found time is at a
   * position no line terminator separates from `p`, with no time start
   * before it, and without one no reachable position starts a time.
   */
  lemma {:induction false} LazyTimeNearest(s: string, p: nat)
    requires p <= |s|
    ensures LazyTime(s, p).Some? ==>
      exists q :: p <= q < |s| && NoLineBreak(s, p, q) && TimeAt(s, q) == LazyTime(s, p)
        && forall k :: p <= k < q ==> TimeAt(s, k).None?
    ensures LazyTime(s, p).None? ==>
      forall q :: p <= q <= |s| && NoLineBreak(s, p, q) ==> TimeAt(s, q).None?
    decreases |s| - p
  {
    if TimeAt(s, p).Some? {
      assert NoLineBreak(s, p, p);
    } else if p < |s| && !IsLineTerminator(s[p]) {
      LazyTimeNearest(s, p + 1);
      if LazyTime(s, p).Some? {
        var q :| p + 1 <= q < |s| && NoLineBreak(s, p + 1, q) && TimeAt(s, q) == LazyTime(s, p + 1)
          && forall k :: p + 1 <= k < q ==> TimeAt(s, k).None?;
        assert NoLineBreak(s, p, q);
      } else {
        forall q | p <= q <= |s| && NoLineBreak(s, p, q) ensures TimeAt(s, q).None? {
          if q > p {
            assert NoLineBreak(s, p + 1, q);
          }
        }
      }
    } else {
      forall q | p <= q <= |s| && NoLineBreak(s, p, q) ensures q == p {
        if p < |s| {
          assert IsLineTerminator(s[p]);
        }
      }
    }
  }

  /** `(\d{1,2})월\s*(\d{1,2})일` at `i`: month, day and the position after `일`. */
  function DateAt(s: string, i: nat): (r: Option<(nat, nat, nat)>)
    ensures r.Some? ==> r.value.0 < 100 && r.value.1 < 100 && r.value.2 <= |s|
    ensures r.Some? ==> MonthMark in s
  {
    match DigitsThen(s, i, MonthMark)
    case None => None
    case Some((m, j)) =>
      match DigitsThen(s, SkipSpaces(s, j), DayMark)
      case None => None
      case Some((d, k)) => Some((m, d, k))
  }

  /** The whole schedule pattern anchored at `i`. */
  function MatchAt(s: string, i: nat): (r: Option<Parts>)
    ensures r.Some? ==> Captured(r.value) && DateAt(s, i).Some?
  {
    match DateAt(s, i)
    case None => None
    case Some((m, d, k)) =>
      match LazyTime(s, k)
      case None => None
      case Some((h, mi)) => Some(Parts(m, d, h, mi))
  }

  /** The leftmost start at or after `i` where the schedule pattern matches. */
  function FirstMatchStart(s: string, i: nat): (r: Option<nat>)
    requires i <= |s| + 1
    ensures r.Some? ==> i <= r.value <= |s| && MatchAt(s, r.value).Some?
    ensures r.Some? ==> forall j :: i <= j < r.value ==> MatchAt(s, j).None?
    ensures r.None? ==> forall k :: i <= k <= |s| ==> MatchAt(s, k).None?
    decreases |s| + 1 - i
  {
    if i > |s| then None
    else if MatchAt(s, i).Some? then Some(i)
    else FirstMatchStart(s, i + 1)
  }

  /** `value.match(/(\d{1,2})월\s*(\d{1,2})일.*?(\d{1,2}):(\d{2})/)`, captures as numbers. */
  function ScheduleMatch(s: string): (r: Option<Parts>)
    ensures r.Some? ==> Captured(r.value)
    ensures r.None? <==> forall i :: 0 <= i <= |s| ==> MatchAt(s, i).None?
    ensures r.Some? ==>
      exists k :: 0 <= k <= |s| && MatchAt(s, k) == r && forall j :: 0 <= j < k ==> MatchAt(s, j).None?
  {
    match FirstMatchStart(s, 0)
    case None => None
    case Some(k) => MatchAt(s, k)
  }

  /** Text without a `월` never matches: the ISO default schedules pass through unchanged. */
  lemma NoMonthMarkNoMatch(s: string)
    requires MonthMark !in s
    ensures ScheduleMatch(s).None?
  {
  }

  // ---------------------------------------------------------- formatting

  /** `" (요일)"`, or nothing when the date is invalid. */
  function DayPart(p: Parts, dow: DayOracle): (r: string)
    ensures forall i :: 0 <= i < |r| ==> !IsDigit(r[i]) && !IsLineTerminator(r[i])
  {
    match dow(p)
    case None => ""
    case Some(w) => " (" + [DayNames[w]] + ")"
  }

  /** A month or day number as written: zero-padded to two digits only when `padded`. */
  function DateField(n: nat, padded: bool): (r: string)
    ensures AllDigits(r) && |r| >= 1
    ensures n < 100 ==> |r| <= 2 && DecimalValue(r) == n
    ensures padded ==> r == Pad2(n)
    ensures !padded ==> r == NatToString(n)
  {
    NatToStringValue(n);
    if padded then Pad2(n) else NatToString(n)
  }

  /** "MM월 DD일", zero-padded only when `padded`. */
  function DateText(p: Parts, padded: bool): string {
    DateField(p.month, padded) + [MonthMark, ' '] + DateField(p.day, padded) + [DayMark]
  }

  /** The day part, a space and "HH:mm", always zero-padded. */
  function TimeText(p: Parts, dayPart: string): string {
    dayPart + [' '] + Pad2(p.hour) + [':'] + Pad2(p.minute)
  }

  /** The label `formatSchedule` builds. */
  function Label(p: Parts, dayPart: string, padded: bool): string {
    DateText(p, padded) + TimeText(p, dayPart)
  }

  /** `formatSchedule(value, withPadding)`; `None` stands for `null` and `undefined`. */
  function FormatSchedule(value: Option<string>, withPadding: bool, dow: DayOracle): (r: string)
    ensures r == "" <==> !Truthy(value)
    ensures Truthy(value) && ScheduleMatch(value.value).None? ==> r == value.value
    ensures Truthy(value) && ScheduleMatch(value.value).Some?
      ==> ScheduleMatch(r) == ScheduleMatch(value.value)
  {
    if !Truthy(value) then ""
    else match ScheduleMatch(value.value)
      case None => value.value
      case Some(p) =>
        LabelRescan(p, DayPart(p, dow), withPadding);
        Label(p, DayPart(p, dow), withPadding)
  }

  /** Formatting is idempotent: a formatted label formats to itself. */
  lemma FormatIdempotent(value: Option<string>, withPadding: bool, dow: DayOracle)
    ensures var once := FormatSchedule(value, withPadding, dow);
      FormatSchedule(Some(once), withPadding, dow) == once
  {
  }

  /**
   * With padding, month, day, hour and minute each take exactly two digits
   * (`Pad2` of a number below 100 is two digits that read back as that number).
   */
  lemma PaddedFields(value: Option<string>, dow: DayOracle)
    requires Truthy(value) && ScheduleMatch(value.value).Some?
    ensures PaddedShape(FormatSchedule(value, true, dow), ScheduleMatch(value.value).value)
  {
    var p := ScheduleMatch(value.value).value;
    assert FormatSchedule(value, true, dow) == Label(p, DayPart(p, dow), true);
    PaddedLabel(p, DayPart(p, dow));
  }

  /** "MM월 DD일", then anything, then "HH:mm": each number in exactly two digits. */
  predicate PaddedShape(r: string, p: Parts) {
    var n := |r|;
    && n >= 12
    && r[0..2] == Pad2(p.month) && r[2] == MonthMark && r[3] == ' '
    && r[4..6] == Pad2(p.day) && r[6] == DayMark
    && r[n - 5..n - 3] == Pad2(p.hour) && r[n - 3] == ':'
    && r[n - 2..] == Pad2(p.minute)
  }

  /** A padded label has the padded shape. */
  lemma PaddedLabel(p: Parts, dayPart: string)
    requires Captured(p)
    ensures PaddedShape(Label(p, dayPart, true), p)
  {
    var d := DateText(p, true);
    var r := Label(p, dayPart, true);
    LabelTime(p, dayPart, true);
    PaddedDate(p);
    PrefixSlice(r, d, 0, 2);
    PrefixSlice(r, d, 4, 6);
  }

  /**
   * `r` starts with "M월 D일", month and day as their plain numbers, and
   * ends in "HH:mm".
   */
  predicate UnpaddedShape(r: string, p: Parts) {
    var ms := NatToString(p.month);
    var ds := NatToString(p.day);
    var n := |r|;
    && n >= |ms| + |ds| + 9
    && r[..|ms|] == ms && r[|ms|] == MonthMark && r[|ms| + 1] == ' '
    && r[|ms| + 2..|ms| + 2 + |ds|] == ds && r[|ms| + 2 + |ds|] == DayMark
    && r[n - 5..n - 3] == Pad2(p.hour) && r[n - 3] == ':' && r[n - 2..] == Pad2(p.minute)
  }

  /** Without padding, month and day are plain numbers; hour and minute keep two digits. */
  lemma UnpaddedFields(value: Option<string>, dow: DayOracle)
    requires Truthy(value) && ScheduleMatch(value.value).Some?
    ensures UnpaddedShape(FormatSchedule(value, false, dow), ScheduleMatch(value.value).value)
  {
    var p := ScheduleMatch(value.value).value;
    assert FormatSchedule(value, false, dow) == Label(p, DayPart(p, dow), false);
    UnpaddedLabel(p, DayPart(p, dow));
  }

  /** An unpadded label: the plain month and day numbers with their marks, and "HH:mm" at the end. */
  lemma UnpaddedLabel(p: Parts, dayPart: string)
    requires Captured(p)
    ensures UnpaddedShape(Label(p, dayPart, false), p)
  {
    var d := DateText(p, false);
    var ms := NatToString(p.month);
    var ds := NatToString(p.day);
    var r := Label(p, dayPart, false);
    LabelTime(p, dayPart, false);
    UnpaddedDate(p);
    PrefixSlice(r, d, 0, |ms|);
    PrefixSlice(r, d, |ms| + 2, |ms| + 2 + |ds|);
    assert r[|ms|] == r[..|d|][|ms|];
    assert r[|ms| + 1] == r[..|d|][|ms| + 1];
    assert r[|ms| + 2 + |ds|] == r[..|d|][|ms| + 2 + |ds|];
  }

  /** An unpadded date is the plain month number, "월 ", the plain day number and "일". */
  lemma UnpaddedDate(p: Parts)
    requires Captured(p)
    ensures var d := DateText(p, false);
      var ms := NatToString(p.month);
      var ds := NatToString(p.day);
      && |d| == |ms| + |ds| + 3 && d[0..|ms|] == ms && d[|ms|] == MonthMark && d[|ms| + 1] == ' '
      && d[|ms| + 2..|ms| + 2 + |ds|] == ds && d[|ms| + 2 + |ds|] == DayMark
  {
    var ms := DateField(p.month, false);
    var ds := DateField(p.day, false);
    var d := ms + [MonthMark, ' '] + ds + [DayMark];
    assert d[0..|ms|] == ms;
    assert d[|ms| + 2..|ms| + 2 + |ds|] == ds;
  }

  /** A slice inside a prefix is the prefix's slice. */
  lemma PrefixSlice(r: string, d: string, i: nat, j: nat)
    requires i <= j <= |d| <= |r| && r[..|d|] == d
    ensures r[i..j] == d[i..j]
  {
    forall k | 0 <= k < j - i ensures r[i..j][k] == d[i..j][k] {
      assert r[..|d|][i + k] == r[i + k];
    }
  }

  /** The padded date text is exactly "MM월 DD일". */
  lemma PaddedDate(p: Parts)
    requires Captured(p)
    ensures var d := DateText(p, true);
      && |d| == 7 && d[0..2] == Pad2(p.month) && d[2] == MonthMark && d[3] == ' '
      && d[4..6] == Pad2(p.day) && d[6] == DayMark
  {
    var a := DateField(p.month, true);
    var b := DateField(p.day, true);
    var d := a + [MonthMark, ' '] + b + [DayMark];
    assert d[0..2] == a;
    assert d[4..6] == b;
  }

  /** A label ends in the zero-padded "HH:mm". */
  lemma LabelTime(p: Parts, dayPart: string, padded: bool)
    requires Captured(p)
    ensures var r := Label(p, dayPart, padded);
      var n := |r|;
      && n >= |DateText(p, padded)| + 6
      && r[..|DateText(p, padded)|] == DateText(p, padded)
      && r[n - 5..n - 3] == Pad2(p.hour) && r[n - 3] == ':' && r[n - 2..] == Pad2(p.minute)
  {
    EndsInTime(DateText(p, padded), dayPart + [' '], Pad2(p.hour), Pad2(p.minute));
  }

  /** Where the pieces of a text ending in two digits, `:` and two digits sit. */
  lemma EndsInTime(d: string, mid: string, hs: string, ns: string)
    requires |mid| >= 1 && |hs| == 2 && |ns| == 2
    ensures var r := d + (mid + hs + [':'] + ns);
      var n := |r|;
      && n >= |d| + 6
      && r[..|d|] == d
      && r[n - 5..n - 3] == hs && r[n - 3] == ':' && r[n - 2..] == ns
  {
    var t := mid + hs + [':'] + ns;
    var r := d + t;
    var n := |r|;
    assert t[|t| - 5..|t| - 3] == hs && t[|t| - 2..] == ns;
    assert r[n - 5..n - 3] == t[|t| - 5..|t| - 3];
    assert r[n - 2..] == t[|t| - 2..];
  }

  // ---------------------------------------------------- date and time

  /** The leftmost start at or after `i` where `(\d{1,2})월\s*(\d{1,2})일` matches. */
  function FirstDateFrom(s: string, i: nat): (r: Option<nat>)
    requires i <= |s| + 1
    ensures r.Some? ==> i <= r.value <= |s| && DateAt(s, r.value).Some?
    ensures r.Some? ==> forall j :: i <= j < r.value ==> DateAt(s, j).None?
    ensures r.None? ==> forall k :: i <= k <= |s| ==> DateAt(s, k).None?
    decreases |s| + 1 - i
  {
    if i > |s| then None
    else if DateAt(s, i).Some? then Some(i)
    else FirstDateFrom(s, i + 1)
  }

  /** `scheduleTime.match(/(\d{1,2})월\s*(\d{1,2})일/)`: month and day. */
  function ScheduleDateMatch(s: string): (r: Option<(nat, nat)>)
    ensures r.Some? ==> r.value.0 < 100 && r.value.1 < 100
    ensures r.None? <==> forall k :: 0 <= k <= |s| ==> DateAt(s, k).None?
    ensures r.Some? ==>
      exists k :: 0 <= k <= |s| && DateAt(s, k).Some?
        && r.value == (DateAt(s, k).value.0, DateAt(s, k).value.1)
        && forall j :: 0 <= j < k ==> DateAt(s, j).None?
  {
    match FirstDateFrom(s, 0)
    case None => None
    case Some(k) => Some((DateAt(s, k).value.0, DateAt(s, k).value.1))
  }

  /**
   * `parseScheduleDate(scheduleTime)`: `new Date(year, month - 1, day)` for
   * the first "M월 D일", `None` for `null`. `currentYear` is `getFullYear()`
   * of the clock.
   */
  function ParseScheduleDate(s: string, currentYear: int): (r: Option<JsDate.CalendarDay>)
    ensures r.None? <==> ScheduleDateMatch(s).None?
    ensures r.Some? ==> JsDate.Valid(r.value)
    ensures r.Some? && 1 <= ScheduleDateMatch(s).value.0 <= 12
      && 1 <= ScheduleDateMatch(s).value.1
            <= JsDate.DaysInMonth(JsDate.FullYear(currentYear), ScheduleDateMatch(s).value.0 - 1)
      ==> r.value == JsDate.CalendarDay(JsDate.FullYear(currentYear),
                                        ScheduleDateMatch(s).value.0 - 1,
                                        ScheduleDateMatch(s).value.1)
  {
    match ScheduleDateMatch(s)
    case None => None
    case Some((m, d)) => Some(JsDate.MakeDate(currentYear, m - 1, d))
  }

  /**
   * Out-of-range captures carry: the parsed day is `day - 1` days after the
   * first of month `month - 1` of the current year, where that month index
   * carries whole years (`(month - 1) / 12`, rounding down).
   */
  lemma ParseScheduleDateCarries(s: string, currentYear: int)
    requires ScheduleDateMatch(s).Some?
    ensures ParseScheduleDate(s, currentYear).Some?
    ensures var first := JsDate.FirstOfMonth(currentYear, ScheduleDateMatch(s).value.0 - 1);
      JsDate.DayNumber(ParseScheduleDate(s, currentYear).value) == JsDate.DayNumber(first) + ScheduleDateMatch(s).value.1 - 1
  {
    ParsedIsMakeDate(s, currentYear);
    CarriedDayNumber(currentYear, ScheduleDateMatch(s).value.0 - 1, ScheduleDateMatch(s).value.1,
                     ParseScheduleDate(s, currentYear));
  }

  /** `JsDate.MakeDateNumber` for a date already computed (keeps the call site small). */
  lemma CarriedDayNumber(year: int, monthIndex: int, day: int, r: Option<JsDate.CalendarDay>)
    requires r == Some(JsDate.MakeDate(year, monthIndex, day))
    ensures r.Some? && 0 <= r.value.month < 12
    ensures JsDate.DayNumber(r.value) == JsDate.DayNumber(JsDate.FirstOfMonth(year, monthIndex)) + day - 1
  {
    JsDate.MakeDateNumber(year, monthIndex, day);
  }


  /** The parsed day is `new Date(year, month - 1, day)` of the captures. */
  lemma ParsedIsMakeDate(s: string, currentYear: int)
    requires ScheduleDateMatch(s).Some?
    ensures ParseScheduleDate(s, currentYear)
      == Some(JsDate.MakeDate(currentYear, ScheduleDateMatch(s).value.0 - 1, ScheduleDateMatch(s).value.1))
  {
  }





  /** `isScheduleOnDate(scheduleTime, targetDate)`: same year, month and day. */
  function IsScheduleOnDate(s: string, target: JsDate.CalendarDay, currentYear: int): (r: bool)
    ensures ScheduleDateMatch(s).None? ==> !r
    ensures r ==> JsDate.Valid(target)
    ensures r <==> ParseScheduleDate(s, currentYear) == Some(target)
  {
    match ParseScheduleDate(s, currentYear)
    case None => false
    case Some(day) =>
      day.year == target.year && day.month == target.month && day.date == target.date
  }

  /** `(\d{2}):(\d{2})` at `p`. */
  predicate HourMinuteAt(s: string, p: nat) {
    p + 5 <= |s| && IsDigit(s[p]) && IsDigit(s[p + 1]) && s[p + 2] == ':'
    && IsDigit(s[p + 3]) && IsDigit(s[p + 4])
  }

  /** The leftmost position at or after `i` where `(\d{2}):(\d{2})` matches. */
  function FirstHourMinuteFrom(s: string, i: nat): (r: Option<nat>)
    requires i <= |s| + 1
    ensures r.Some? ==>
      i <= r.value && HourMinuteAt(s, r.value) && forall k :: i <= k < r.value ==> !HourMinuteAt(s, k)
    ensures r.None? ==> forall k :: i <= k <= |s| ==> !HourMinuteAt(s, k)
    decreases |s| + 1 - i
  {
    if i > |s| then None
    else if HourMinuteAt(s, i) then Some(i)
    else FirstHourMinuteFrom(s, i + 1)
  }

  /** `getScheduleTimeString(scheduleTime)`: the first "HH:mm", or the whole text. */
  function GetScheduleTimeString(s: string): (r: string)
    ensures (forall p :: 0 <= p <= |s| ==> !HourMinuteAt(s, p)) ==> r == s
    ensures forall p ::
      (0 <= p <= |s| && HourMinuteAt(s, p) && forall k :: 0 <= k < p ==> !HourMinuteAt(s, k))
        ==> r == s[p..p + 5]
  {
    match FirstHourMinuteFrom(s, 0)
    case None => s
    case Some(p) => s[p..p + 5]
  }

  /** The documented example: "12월 25일 (수) 14:00" gives "14:00". */
  lemma TimeStringExample()
    ensures GetScheduleTimeString("12월 25일 (수) 14:00") == "14:00"
  {
    var s := "12월 25일 (수) 14:00";
    assert HourMinuteAt(s, 12);
    forall k | 0 <= k < 12 ensures !HourMinuteAt(s, k) {
      assert s[k + 2] != ':';
    }
  }

  /** The date of a formatted label parses back to the month and day it was built from. */
  lemma LabelDate(p: Parts, dayPart: string, padded: bool)
    requires Captured(p)
    ensures ScheduleDateMatch(Label(p, dayPart, padded)) == Some((p.month, p.day))
  {
    LabelDateAt(p, dayPart, padded);
  }

  /** Whatever `formatSchedule` recognises, `parseScheduleDate` recognises too. */
  lemma MatchHasDate(s: string)
    requires ScheduleMatch(s).Some?
    ensures ScheduleDateMatch(s).Some?
  {
  }

  // ------------------------------------------------------------ examples

  /** A two-digit number is written as its two digits. */
  lemma TwoDigitText(n: nat)
    requires 10 <= n < 100
    ensures Pad2(n) == [DigitChar(n / 10), DigitChar(n % 10)]
  {
    assert NatToString(n / 10) == [DigitChar(n / 10)];
  }

  /** "12월 25일" and " 14:00" for 12/25 14:00. */
  lemma ChristmasText(dayPart: string)
    ensures DateText(Parts(12, 25, 14, 0), true) == "12월 25일"
    ensures TimeText(Parts(12, 25, 14, 0), dayPart) == dayPart + " 14:00"
  {
    TwoDigitText(12);
    TwoDigitText(25);
    TwoDigitText(14);
    assert Pad2(0) == "0" + [DigitChar(0)];
    assert DigitChar(0) == '0' && DigitChar(1) == '1' && DigitChar(2) == '2';
    assert DigitChar(4) == '4' && DigitChar(5) == '5';
  }

  /** The labels for 12/25 14:00, with and without a day part. */
  lemma ChristmasLabels()
    ensures Label(Parts(12, 25, 14, 0), "", true) == "12월 25일 14:00"
    ensures Label(Parts(12, 25, 14, 0), " (수)", true) == "12월 25일 (수) 14:00"
  {
    ChristmasText("");
    ChristmasText(" (수)");
  }

  /** Weekday 3 is written " (수)". */
  lemma Wednesday(p: Parts, dow: DayOracle)
    requires dow(p) == Some(3)
    ensures DayPart(p, dow) == " (수)"
  {
    assert DayNames[3] == '수';
  }

  /** A day-less entry gains its weekday and keeps its numbers. */
  lemma FormatExample(entry: string, dow: DayOracle)
    requires entry == "12월 25일 14:00"
    requires dow(Parts(12, 25, 14, 0)) == Some(3)
    ensures FormatSchedule(Some(entry), true, dow) == "12월 25일 (수) 14:00"
  {
    var p := Parts(12, 25, 14, 0);
    ChristmasLabels();
    LabelRescan(p, "", true);
    assert ScheduleMatch(entry) == Some(p);
    Wednesday(p, dow);
    assert FormatSchedule(Some(entry), true, dow) == Label(p, " (수)", true);
  }

  /** The ISO-style default schedules carry no `월` and are shown as they are. */
  lemma DefaultsUnchanged(withPadding: bool, dow: DayOracle)
    ensures forall d <- FormDefaults.DefaultSchedules :: FormatSchedule(Some(d), withPadding, dow) == d
  {
    forall d <- FormDefaults.DefaultSchedules
      ensures FormatSchedule(Some(d), withPadding, dow) == d
    {
      NoMonthMarkNoMatch(d);
    }
  }

  /** A label is on the day it names, in the current year. */
  lemma OnDateExample(entry: string)
    requires entry == "12월 25일 (수) 14:00"
    ensures IsScheduleOnDate(entry, JsDate.CalendarDay(2025, 11, 25), 2025)
  {
    var p := Parts(12, 25, 14, 0);
    ChristmasLabels();
    LabelDate(p, " (수)", true);
  }

  /** A date at the very start is the first date. */
  lemma DateAtStart(s: string)
    requires DateAt(s, 0).Some?
    ensures ScheduleDateMatch(s) == Some((DateAt(s, 0).value.0, DateAt(s, 0).value.1))
  {
  }

  /** Month 0 is carried back into December of the previous year. */
  lemma MonthZeroExample(s: string)
    requires s == "0월 5일"
    ensures ParseScheduleDate(s, 2025) == Some(JsDate.CalendarDay(2024, 11, 5))
  {
    DateAtLabel(s, "0", "5", "");
    DateAtStart(s);
    JsDate.MonthBeforeJanuary(2025, 5);
  }

  /** "2월 31일" runs past the end of February into March. */
  lemma DayOverflowExample(s: string)
    requires s == "2월 31일"
    ensures ParseScheduleDate(s, 2025) == Some(JsDate.CalendarDay(2025, 2, 3))
  {
    DateAtLabel(s, "2", "31", "");
    assert DecimalValue("2") == 2 && DecimalValue("31") == 31;
    DateAtStart(s);
    ParsedIsMakeDate(s, 2025);
    JsDate.FebruaryOverflowExample(2025);
  }

  // ------------------------------------------------------ rescan lemmas

  /** A run of one or two digits `w` at `i`, followed by `mark`, is read as `w`'s value. */
  lemma DigitsThenOn(s: string, i: nat, w: string, mark: char)
    requires !IsDigit(mark) && 1 <= |w| <= 2 && AllDigits(w)
    requires i + |w| < |s| && s[i..i + |w|] == w && s[i + |w|] == mark
    ensures DigitsThen(s, i, mark) == Some((DecimalValue(w), i + |w| + 1))
  {
    assert s[i] == w[0];
    if |w| == 2 {
      assert s[i + 1] == w[1];
    }
  }

  /** The lazy `.*?` steps over characters that are neither digits nor line terminators. */
  lemma {:induction false} LazyTimeSkips(s: string, p: nat, q: nat)
    requires p <= q <= |s|
    requires forall k :: p <= k < q ==> !IsDigit(s[k]) && !IsLineTerminator(s[k])
    ensures LazyTime(s, p) == LazyTime(s, q)
    decreases q - p
  {
    if p < q {
      assert TimeAt(s, p).None?;
      LazyTimeSkips(s, p + 1, q);
    }
  }

  /** `\s*` over a single space that a digit follows. */
  lemma SpaceBeforeDigit(s: string, j: nat)
    requires j + 1 < |s| && s[j] == ' ' && IsDigit(s[j + 1])
    ensures SkipSpaces(s, j) == j + 1
  {
    assert SkipSpaces(s, j) == SkipSpaces(s, j + 1);
  }

  /** Where the parts of "M월 D일" followed by anything sit. */
  lemma DateTextSlices(s: string, ms: string, ds: string, rest: string)
    requires s == ms + [MonthMark, ' '] + ds + [DayMark] + rest
    ensures var a := |ms|;
      && a + 2 + |ds| < |s|
      && s[0..a] == ms && s[a] == MonthMark && s[a + 1] == ' '
      && s[a + 2..a + 2 + |ds|] == ds && s[a + 2 + |ds|] == DayMark
  {
    var a := |ms|;
    var t := ms + [MonthMark, ' '] + ds;
    assert s == t + [DayMark] + rest;
    assert s[..|t|] == t;
    assert t[0..a] == ms && t[a + 2..] == ds;
  }

  /** The date half of a label: month digits, `월`, a space, day digits, `일`. */
  lemma DateAtLabel(s: string, ms: string, ds: string, rest: string)
    requires 1 <= |ms| <= 2 && AllDigits(ms) && 1 <= |ds| <= 2 && AllDigits(ds)
    requires s == ms + [MonthMark, ' '] + ds + [DayMark] + rest
    ensures DateAt(s, 0) == Some((DecimalValue(ms), DecimalValue(ds), |ms| + |ds| + 3))
  {
    DateTextSlices(s, ms, ds, rest);
    DateAtParts(s, ms, ds);
  }

  /** `(\d{1,2})월\s*(\d{1,2})일` at 0, given where its parts sit. */
  lemma DateAtParts(s: string, ms: string, ds: string)
    requires 1 <= |ms| <= 2 && AllDigits(ms) && 1 <= |ds| <= 2 && AllDigits(ds)
    requires var a := |ms|;
      && a + 2 + |ds| < |s|
      && s[0..a] == ms && s[a] == MonthMark && s[a + 1] == ' '
      && s[a + 2..a + 2 + |ds|] == ds && s[a + 2 + |ds|] == DayMark
    ensures DateAt(s, 0) == Some((DecimalValue(ms), DecimalValue(ds), |ms| + |ds| + 3))
  {
    var a := |ms|;
    DigitsThenOn(s, 0, ms, MonthMark);
    assert s[a + 2] == ds[0];
    SpaceBeforeDigit(s, a + 1);
    DigitsThenOn(s, a + 2, ds, DayMark);
  }

  /** The time half of a label: digit-free single-line text, a space, `HH:mm`. */
  lemma TimeAfterLabel(s: string, pre: string, mid: string, hs: string, ns: string)
    requires |hs| == 2 && AllDigits(hs) && |ns| == 2 && AllDigits(ns)
    requires forall i :: 0 <= i < |mid| ==> !IsDigit(mid[i]) && !IsLineTerminator(mid[i])
    requires s == pre + (mid + [' '] + hs + [':'] + ns)
    ensures LazyTime(s, |pre|) == Some((DecimalValue(hs), DecimalValue(ns)))
  {
    var e := |pre|;
    var t := e + |mid| + 1;
    assert s[t..t + 2] == hs && s[t + 2] == ':';
    assert s[t + 3..t + 5] == ns;
    TimeAtParts(s, t, hs, ns);
    forall k | e <= k < t ensures !IsDigit(s[k]) && !IsLineTerminator(s[k]) {
      if k < t - 1 { assert s[k] == mid[k - e]; }
    }
    LazyTimeSkips(s, e, t);
  }

  /** `(\d{1,2}):(\d{2})` at `t`, given two-digit hour and minute text in place. */
  lemma TimeAtParts(s: string, t: nat, hs: string, ns: string)
    requires |hs| == 2 && AllDigits(hs) && |ns| == 2 && AllDigits(ns)
    requires t + 5 <= |s| && s[t..t + 2] == hs && s[t + 2] == ':' && s[t + 3..t + 5] == ns
    ensures TimeAt(s, t) == Some((DecimalValue(hs), DecimalValue(ns)))
  {
    DigitsThenOn(s, t, hs, ':');
    assert IsDigit(s[t + 3]) && IsDigit(s[t + 4]);
  }

  /** The date half of any label is found at its start. */
  lemma LabelDateAt(p: Parts, dayPart: string, padded: bool)
    requires Captured(p)
    ensures DateAt(Label(p, dayPart, padded), 0)
      == Some((p.month, p.day, |DateText(p, padded)|))
  {
    var ms := DateField(p.month, padded);
    var ds := DateField(p.day, padded);
    DateAtLabel(Label(p, dayPart, padded), ms, ds, TimeText(p, dayPart));
  }

  /**
   * Scanning a label finds the numbers it was built from, whatever digit-free
   * single-line text stands between the day and the time.
   */
  lemma LabelRescan(p: Parts, dayPart: string, padded: bool)
    requires Captured(p)
    requires forall i :: 0 <= i < |dayPart| ==> !IsDigit(dayPart[i]) && !IsLineTerminator(dayPart[i])
    ensures ScheduleMatch(Label(p, dayPart, padded)) == Some(p)
  {
    var s := Label(p, dayPart, padded);
    LabelDateAt(p, dayPart, padded);
    TimeAfterLabel(s, DateText(p, padded), dayPart, Pad2(p.hour), Pad2(p.minute));
    assert MatchAt(s, 0) == Some(p);
  }
}
