/** Business-calendar service-level arithmetic (app/services/calendar_sla.py).

    Instants are milliseconds of local wall-clock time; day 0 is a Monday, so the
    weekday of day d is d % 7. The specification is a single count: how many
    milliseconds of [s, t) fall inside an opening window. */
module Calendar {
  import opened Common

  /** A day is scanned at most this many times ahead. */
  const SCAN_DAYS := 370

  /** What calendar_config returns; `start` and `end` are offsets into the day. */
  datatype Hours = Hours(businessDays: set<int>, start: int, end: int, holidays: set<int>)

  /** The configured block before it is read: None stands for a value that does not parse. */
  datatype RawHours = RawHours(days: seq<int>, start: Option<int>, end: Option<int>, holidays: seq<Option<int>>)

  /** Day number and time of day of an instant, and back. The literal is Common.DAY: written out,
      it keeps the division linear for the solver. */
  function DayNo(t: int): int {
    t / 86_400_000
  }

  function TimeOfDay(t: int): int {
    t % 86_400_000
  }

  function At(d: int, x: int): int {
    d * 86_400_000 + x
  }

  predicate ClockTime(x: int) {
    0 <= x < DAY && x % MINUTE == 0
  }

  predicate WellFormedRaw(raw: RawHours) {
    && (raw.start.Some? ==> ClockTime(raw.start.value))
    && (raw.end.Some? ==> ClockTime(raw.end.value))
  }

  /** Everything calendar_config guarantees about its result. */
  ghost predicate WellFormed(cal: Hours) {
    && cal.businessDays != {}
    && (forall w :: w in cal.businessDays ==> 0 <= w < 7)
    && 0 <= cal.start < DAY
    && 0 <= cal.end <= DAY - MINUTE
  }

  function OpeningOf(raw: RawHours): int {
    if raw.start.Some? then raw.start.value else 8 * HOUR
  }

  function ClosingOf(raw: RawHours): int {
    if raw.end.Some? then raw.end.value else 17 * HOUR
  }

  lemma WholeMinutesBeforeMidnight(x: int)
    requires ClockTime(x)
    ensures x <= DAY - MINUTE
  {
    assert x == MINUTE * (x / MINUTE);
    assert x / MINUTE < 1440;
  }

  /** Reads the calendar block. The result is usable (opens before it closes) exactly when
      the configured opening is before 17:00 or before the configured closing. */
  method CalendarConfig(raw: RawHours) returns (cal: Hours)
    requires WellFormedRaw(raw)
    ensures WellFormed(cal)
    ensures (exists w :: w in raw.days && 0 <= w < 7) ==>
              forall w :: w in cal.businessDays <==> w in raw.days && 0 <= w < 7
    ensures (forall w :: w in raw.days ==> !(0 <= w < 7)) ==> cal.businessDays == {0, 1, 2, 3, 4}
    ensures cal.start == if raw.start.Some? then raw.start.value else 28_800_000
    ensures var end := if raw.end.Some? then raw.end.value else 61_200_000;
      cal.end == if end <= cal.start then 61_200_000 else end
    ensures forall d :: d in cal.holidays <==> Some(d) in raw.holidays
    ensures cal.start < cal.end <==> OpeningOf(raw) < 17 * HOUR || OpeningOf(raw) < ClosingOf(raw)
  {
    var businessDays := set w | w in raw.days && 0 <= w < 7;
    if businessDays == {} {
      assert forall w :: w in raw.days && 0 <= w < 7 ==> w in businessDays;
      businessDays := {0, 1, 2, 3, 4};
      assert 0 in businessDays;
    }
    var end := ClosingOf(raw);
    if raw.end.Some? {
      WholeMinutesBeforeMidnight(raw.end.value);
    }
    if end <= OpeningOf(raw) {
      end := 17 * HOUR;
    }
    var holidays: set<int> := {};
    for i := 0 to |raw.holidays|
      invariant forall d :: d in holidays <==> Some(d) in raw.holidays[..i]
    {
      if raw.holidays[i].Some? {
        holidays := holidays + {raw.holidays[i].value};
      }
    }
    assert raw.holidays[..|raw.holidays|] == raw.holidays;
    cal := Hours(businessDays, OpeningOf(raw), end, holidays);
  }

  // ---------------------------------------------------------------- open time

  predicate IsOpenDay(cal: Hours, d: int) {
    d % 7 in cal.businessDays && d !in cal.holidays
  }

  /** The millisecond starting at t lies inside an opening window. */
  predicate IsOpen(cal: Hours, t: int) {
    IsOpenDay(cal, DayNo(t)) && cal.start <= TimeOfDay(t) < cal.end
  }

  /** The instant day d closes. */
  function Close(cal: Hours, d: int): int {
    At(d, cal.end)
  }

  /** Open milliseconds in [s, t). */
  ghost function OpenTime(cal: Hours, s: int, t: int): (n: nat)
    ensures s <= t ==> n <= t - s
    decreases t - s
  {
    if s >= t then 0 else OpenTime(cal, s, t - 1) + (if IsOpen(cal, t - 1) then 1 else 0)
  }

  lemma {:induction false} OpenTimeAdds(cal: Hours, a: int, b: int, c: int)
    requires a <= b <= c
    ensures OpenTime(cal, a, c) == OpenTime(cal, a, b) + OpenTime(cal, b, c)
    decreases c - b
  {
    if b < c {
      OpenTimeAdds(cal, a, b, c - 1);
    }
  }

  ghost predicate AlwaysOpen(cal: Hours, a: int, b: int) {
    forall x :: a <= x < b ==> IsOpen(cal, x)
  }

  ghost predicate NeverOpen(cal: Hours, a: int, b: int) {
    forall x :: a <= x < b ==> !IsOpen(cal, x)
  }

  lemma {:induction false} OpenTimeInWindow(cal: Hours, a: int, b: int)
    requires a <= b && AlwaysOpen(cal, a, b)
    ensures OpenTime(cal, a, b) == b - a
    decreases b - a
  {
    if a < b {
      OpenTimeInWindow(cal, a, b - 1);
    }
  }

  lemma {:induction false} OpenTimeClosed(cal: Hours, a: int, b: int)
    requires NeverOpen(cal, a, b)
    ensures OpenTime(cal, a, b) == 0
    decreases b - a
  {
    if a < b {
      OpenTimeClosed(cal, a, b - 1);
    }
  }

  lemma OpenTimeMonotone(cal: Hours, s: int, t: int, u: int)
    requires t <= u
    ensures OpenTime(cal, s, t) <= OpenTime(cal, s, u)
  {
    if s <= t {
      OpenTimeAdds(cal, s, t, u);
    }
  }

  /** The promise of add_service_hours: `due` is the end of the open millisecond that
      completes h of them since s. */
  ghost predicate IsDue(cal: Hours, s: int, h: int, due: int) {
    s < due && OpenTime(cal, s, due) == h && IsOpen(cal, due - 1)
  }

  /** IsDue names the least instant by which h open milliseconds have passed. */
  lemma DueIsLeast(cal: Hours, s: int, h: int, due: int, t: int)
    requires IsDue(cal, s, h, due)
    ensures t < due <==> OpenTime(cal, s, t) < h
  {
    if t < due {
      OpenTimeMonotone(cal, s, t, due - 1);
      assert OpenTime(cal, s, due) == OpenTime(cal, s, due - 1) + 1;
    } else {
      OpenTimeMonotone(cal, s, due, t);
    }
  }

  lemma DueIsUnique(cal: Hours, s: int, h: int, due: int, other: int)
    requires IsDue(cal, s, h, due) && IsDue(cal, s, h, other)
    ensures due == other
  {
    DueIsLeast(cal, s, h, due, other);
    DueIsLeast(cal, s, h, other, due);
  }

  lemma DayOf(d: int, x: int)
    requires 0 <= x < DAY
    ensures DayNo(At(d, x)) == d && TimeOfDay(At(d, x)) == x
  {
  }

  lemma SameDay(x: int, y: int)
    requires x <= y <= x + (DAY - 1 - TimeOfDay(x))
    ensures DayNo(y) == DayNo(x) && TimeOfDay(y) == TimeOfDay(x) + (y - x)
  {
  }

  /** The due instant lies on an open day, after opening and no later than closing. */
  lemma DueLiesInWindow(cal: Hours, s: int, h: int, due: int)
    requires WellFormed(cal) && IsDue(cal, s, h, due)
    ensures var d := DayNo(due - 1);
      IsOpenDay(cal, d) && d == DayNo(due) && At(d, cal.start) < due <= Close(cal, d)
  {
    SameDay(due - 1, due);
  }

  // ---------------------------------------------------------------- the day search

  /** _next_open from its offset-th iteration on. */
  function ScanFrom(cal: Hours, x: int, offset: nat): int
    requires offset <= SCAN_DAYS
    decreases SCAN_DAYS - offset
  {
    if offset == SCAN_DAYS then x
    else
      var d := DayNo(x) + offset;
      if !IsOpenDay(cal, d) then ScanFrom(cal, x, offset + 1)
      else if offset == 0 then
        if x < At(d, cal.start) then At(d, cal.start)
        else if x < Close(cal, d) then x
        else ScanFrom(cal, x, 1)
      else At(d, cal.start)
  }

  function NextOpen(cal: Hours, x: int): int {
    ScanFrom(cal, x, 0)
  }

  method FindNextOpen(cal: Hours, x: int) returns (r: int)
    ensures r == NextOpen(cal, x)
  {
    var day := DayNo(x);
    for offset := 0 to SCAN_DAYS
      invariant NextOpen(cal, x) == ScanFrom(cal, x, offset)
    {
      var candidate := day + offset;
      if IsOpenDay(cal, candidate) {
        var startAt := At(candidate, cal.start);
        var endAt := At(candidate, cal.end);
        if offset == 0 {
          if x < startAt {
            return startAt;
          }
          if x < endAt {
            return x;
          }
        } else {
          return startAt;
        }
      }
    }
    return x;
  }

  predicate OpenWithin(cal: Hours, d: int, n: nat) {
    n > 0 && (IsOpenDay(cal, d + n) || OpenWithin(cal, d, n - 1))
  }

  lemma {:induction false} OpenWithinIff(cal: Hours, d: int, n: nat)
    ensures OpenWithin(cal, d, n) <==> exists e :: d < e <= d + n && IsOpenDay(cal, e)
  {
    if n > 0 {
      OpenWithinIff(cal, d, n - 1);
    }
  }

  /** Day d is open and x is not before its opening nor before its closing. */
  predicate PastClosing(cal: Hours, x: int) {
    cal.start <= TimeOfDay(x) && cal.end <= TimeOfDay(x)
  }

  /** What the search found: day e, the first usable one. */
  ghost predicate FoundOn(cal: Hours, x: int, r: int, e: int) {
    var d := DayNo(x);
    && d <= e <= d + 369 && IsOpenDay(cal, e) && DayNo(r) == e && x <= r
    && (forall f {:trigger IsOpenDay(cal, f)} :: d < f < e ==> !IsOpenDay(cal, f))
    && (if e == d then
          (r == x && cal.start <= TimeOfDay(x) < cal.end) || (TimeOfDay(r) == cal.start && TimeOfDay(x) < cal.start)
        else TimeOfDay(r) == cal.start && (IsOpenDay(cal, d) ==> PastClosing(cal, x)))
  }

  /** What it means for the search to fall through. */
  ghost predicate FellThrough(cal: Hours, x: int, r: int) {
    r == x && (IsOpenDay(cal, DayNo(x)) ==> PastClosing(cal, x)) && !OpenWithin(cal, DayNo(x), 369)
  }

  lemma {:induction false} ScanOutcome(cal: Hours, x: int, offset: nat)
    requires WellFormed(cal) && 0 < offset <= SCAN_DAYS
    requires IsOpenDay(cal, DayNo(x)) ==> PastClosing(cal, x)
    requires !OpenWithin(cal, DayNo(x), offset - 1)
    ensures var r := ScanFrom(cal, x, offset);
      FellThrough(cal, x, r) || FoundOn(cal, x, r, DayNo(r))
    decreases SCAN_DAYS - offset
  {
    if offset < SCAN_DAYS {
      var d := DayNo(x) + offset;
      if IsOpenDay(cal, d) {
        OpenWithinIff(cal, DayNo(x), offset - 1);
        DayOf(d, cal.start);
      } else {
        ScanOutcome(cal, x, offset + 1);
      }
    }
  }

  /** The search finds the first usable day among the 370 it looks at, or gives up and
      returns its argument unchanged. */
  lemma NextOpenOutcome(cal: Hours, x: int)
    requires WellFormed(cal)
    ensures var r := NextOpen(cal, x);
      FellThrough(cal, x, r) || FoundOn(cal, x, r, DayNo(r))
  {
    var d := DayNo(x);
    if IsOpenDay(cal, d) && TimeOfDay(x) < cal.start {
      DayOf(d, cal.start);
    } else if IsOpenDay(cal, d) && TimeOfDay(x) < cal.end {
    } else {
      assert NextOpen(cal, x) == ScanFrom(cal, x, 1);
      ScanOutcome(cal, x, 1);
    }
  }

  /** Nothing is open between the argument of the search and its result. */
  lemma NothingSkipped(cal: Hours, x: int)
    requires WellFormed(cal)
    ensures x <= NextOpen(cal, x)
    ensures forall y :: x <= y < NextOpen(cal, x) ==> !IsOpen(cal, y)
  {
    NextOpenOutcome(cal, x);
    var r := NextOpen(cal, x);
    forall y | x <= y < r ensures !IsOpen(cal, y) {
      if DayNo(y) == DayNo(x) {
      } else if DayNo(y) == DayNo(r) {
        assert TimeOfDay(y) < TimeOfDay(r);
      } else {
        assert DayNo(x) < DayNo(y) < DayNo(r);
      }
    }
  }
}
