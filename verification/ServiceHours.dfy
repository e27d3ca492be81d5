/** add_service_hours: spending a duration inside opening windows
    (app/services/calendar_sla.py:69-88). */
module ServiceHours {
  import opened Common
  import opened Calendar

  /** The loop's state: still spending, or returned. */
  datatype Walk = Spending(local: int, remaining: int) | Due(at: int)

  /** One iteration of the while loop. */
  function Step(cal: Hours, w: Walk): Walk {
    match w
    case Due(_) => w
    case Spending(local, remaining) =>
      if !IsOpenDay(cal, DayNo(local)) then Spending(NextOpen(cal, local + DAY), remaining)
      else
        var endAt := Close(cal, DayNo(local));
        var available := endAt - local;
        if remaining <= available then Due(local + remaining)
        else Spending(NextOpen(cal, endAt + SECOND), remaining - (if available > 0 then available else 0))
  }

  function Start(cal: Hours, s: int, h: int): Walk {
    Spending(NextOpen(cal, s), h)
  }

  function Iterate(cal: Hours, s: int, h: int, n: nat): Walk {
    if n == 0 then Start(cal, s, h) else Step(cal, Iterate(cal, s, h, n - 1))
  }

  /** The call returns. */
  ghost predicate Finishes(cal: Hours, s: int, h: int) {
    exists n: nat :: Iterate(cal, s, h, n).Due?
  }

  /** What a caller can check beforehand: the calendar opens before it closes, and no open
      day that closes before the hours are spent is followed by 369 days without an open one. */
  ghost predicate CanServe(cal: Hours, s: int, h: int) {
    && cal.start < cal.end
    && forall d {:trigger IsOpenDay(cal, d)} ::
         DayNo(s) <= d && IsOpenDay(cal, d) && OpenTime(cal, s, Close(cal, d)) < h ==> OpenWithin(cal, d, 369)
  }

  // ------------------------------------------------------------ every iteration

  /** Inside a window, or at the start of more than a year without an open day. */
  ghost predicate Placed(cal: Hours, local: int) {
    IsOpen(cal, local) || (!IsOpenDay(cal, DayNo(local)) && !OpenWithin(cal, DayNo(local), 369))
  }

  /** On an open day, past its closing, with no window the search could ever reach. */
  ghost predicate Hopeless(cal: Hours, local: int) {
    && IsOpenDay(cal, DayNo(local)) && cal.end <= TimeOfDay(local)
    && (cal.end <= cal.start || !OpenWithin(cal, DayNo(local), 369))
  }

  /** Loop invariant, for any calendar: what is left plus what has been open makes h, unless
      the walk is beyond hope. */
  ghost predicate Accounted(cal: Hours, s: int, h: int, w: Walk) {
    match w
    case Due(at) => IsDue(cal, s, h, at)
    case Spending(local, remaining) =>
      && remaining > 0
      && (Hopeless(cal, local)
          || (Placed(cal, local) && s <= local && OpenTime(cal, s, local) + remaining == h))
  }

  lemma SearchKeepsTheAccount(cal: Hours, s: int, x: int)
    requires WellFormed(cal) && s <= x
    ensures var r := NextOpen(cal, x);
      && s <= r && OpenTime(cal, s, r) == OpenTime(cal, s, x)
      && (Placed(cal, r) || Hopeless(cal, r))
  {
    var r := NextOpen(cal, x);
    NothingSkipped(cal, x);
    OpenTimeClosed(cal, x, r);
    OpenTimeAdds(cal, s, x, r);
    NextOpenOutcome(cal, x);
  }

  lemma ClosedDay(cal: Hours, x: int)
    requires WellFormed(cal) && !IsOpenDay(cal, DayNo(x)) && !OpenWithin(cal, DayNo(x), 369)
    ensures OpenTime(cal, x, x + DAY) == 0
  {
    OpenWithinIff(cal, DayNo(x), 369);
    forall y | x <= y < x + DAY ensures !IsOpen(cal, y) {
      assert DayNo(y) == DayNo(x) || DayNo(y) == DayNo(x) + 1;
    }
    OpenTimeClosed(cal, x, x + DAY);
  }

  /** From `local` on an open day, up to one second past closing. */
  lemma RestOfDay(cal: Hours, local: int, t: int)
    requires WellFormed(cal) && IsOpen(cal, local)
    requires local <= t
    ensures t <= Close(cal, DayNo(local)) ==> OpenTime(cal, local, t) == t - local
    ensures t == Close(cal, DayNo(local)) + SECOND ==> OpenTime(cal, local, t) == Close(cal, DayNo(local)) - local
  {
    var d := DayNo(local);
    var close := Close(cal, d);
    forall y | local <= y < close ensures IsOpen(cal, y) {
      SameDay(local, y);
    }
    if t <= close {
      OpenTimeInWindow(cal, local, t);
    } else if t == close + SECOND {
      forall y | close <= y < t ensures !IsOpen(cal, y) {
        SameDay(local, y);
      }
      OpenTimeInWindow(cal, local, close);
      OpenTimeClosed(cal, close, t);
      OpenTimeAdds(cal, local, close, t);
    }
  }

  /** Searching again from just past closing, the walk is as hopeless as before. */
  lemma HopelessSearch(cal: Hours, d: int)
    requires WellFormed(cal) && IsOpenDay(cal, d)
    requires cal.end <= cal.start || !OpenWithin(cal, d, 369)
    ensures Hopeless(cal, NextOpen(cal, Close(cal, d) + SECOND))
  {
    var x := Close(cal, d) + SECOND;
    DayOf(d, cal.end + SECOND);
    assert DayNo(x) == d && TimeOfDay(x) == cal.end + SECOND;
    NextOpenOutcome(cal, x);
    OpenWithinIff(cal, d, 369);
  }

  lemma HopelessForEver(cal: Hours, local: int, remaining: int)
    requires WellFormed(cal) && Hopeless(cal, local) && remaining > 0
    ensures var r := NextOpen(cal, Close(cal, DayNo(local)) + SECOND);
      Step(cal, Spending(local, remaining)) == Spending(r, remaining) && Hopeless(cal, r)
  {
    assert Close(cal, DayNo(local)) <= local;
    HopelessSearch(cal, DayNo(local));
  }

  /** The remaining time fits into today's window. */
  lemma SpentToday(cal: Hours, s: int, local: int, remaining: int)
    requires WellFormed(cal) && IsOpen(cal, local) && s <= local
    requires 0 < remaining <= Close(cal, DayNo(local)) - local
    ensures IsDue(cal, s, OpenTime(cal, s, local) + remaining, local + remaining)
  {
    var at := local + remaining;
    RestOfDay(cal, local, at);
    OpenTimeAdds(cal, s, local, at);
    SameDay(local, at - 1);
  }

  /** Otherwise the whole rest of the window is spent and the search goes on. */
  lemma SpendTheDay(cal: Hours, s: int, local: int)
    requires WellFormed(cal) && IsOpen(cal, local) && s <= local
    ensures var endAt := Close(cal, DayNo(local));
      var r := NextOpen(cal, endAt + SECOND);
      && s <= r && OpenTime(cal, s, r) == OpenTime(cal, s, local) + (endAt - local)
      && (Placed(cal, r) || Hopeless(cal, r))
  {
    var endAt := Close(cal, DayNo(local));
    RestOfDay(cal, local, endAt + SECOND);
    OpenTimeAdds(cal, s, local, endAt + SECOND);
    SearchKeepsTheAccount(cal, s, endAt + SECOND);
  }

  lemma SkipKeepsTheAccount(cal: Hours, s: int, local: int)
    requires WellFormed(cal) && s <= local
    requires !IsOpenDay(cal, DayNo(local)) && !OpenWithin(cal, DayNo(local), 369)
    ensures var r := NextOpen(cal, local + DAY);
      && s <= r && OpenTime(cal, s, r) == OpenTime(cal, s, local)
      && (Placed(cal, r) || Hopeless(cal, r))
  {
    ClosedDay(cal, local);
    OpenTimeAdds(cal, s, local, local + DAY);
    SearchKeepsTheAccount(cal, s, local + DAY);
  }

  lemma StepKeepsTheAccount(cal: Hours, s: int, h: int, w: Walk)
    requires WellFormed(cal) && Accounted(cal, s, h, w)
    ensures Accounted(cal, s, h, Step(cal, w))
  {
    if w.Spending? {
      var local, d := w.local, DayNo(w.local);
      if Hopeless(cal, local) {
        HopelessForEver(cal, local, w.remaining);
      } else if !IsOpenDay(cal, d) {
        SkipKeepsTheAccount(cal, s, local);
      } else if w.remaining <= Close(cal, d) - local {
        SpentToday(cal, s, local, w.remaining);
      } else {
        SpendTheDay(cal, s, local);
      }
    }
  }

  lemma {:induction false} WalkIsAccounted(cal: Hours, s: int, h: int, n: nat)
    requires WellFormed(cal) && h > 0
    ensures Accounted(cal, s, h, Iterate(cal, s, h, n))
  {
    if n == 0 {
      SearchKeepsTheAccount(cal, s, s);
    } else {
      WalkIsAccounted(cal, s, h, n - 1);
      StepKeepsTheAccount(cal, s, h, Iterate(cal, s, h, n - 1));
    }
  }

  // ---------------------------------------------------------------- termination

  /** A search started no later than the last open day before a long gap stays there. */
  lemma SearchStopsAtGap(cal: Hours, x: int, d: int)
    requires WellFormed(cal) && IsOpenDay(cal, d) && !OpenWithin(cal, d, 369)
    requires DayNo(x) <= d
    ensures DayNo(NextOpen(cal, x)) <= d
  {
    NextOpenOutcome(cal, x);
    OpenWithinIff(cal, d, 369);
  }

  lemma StepStopsAtGap(cal: Hours, s: int, h: int, d: int, w: Walk)
    requires WellFormed(cal)
    requires Step(cal, w).Due? ==> OpenTime(cal, s, Step(cal, w).at) == h
    requires IsOpenDay(cal, d) && !OpenWithin(cal, d, 369) && OpenTime(cal, s, Close(cal, d)) < h
    requires w.Spending? && DayNo(w.local) <= d
    ensures Step(cal, w).Spending? && DayNo(Step(cal, w).local) <= d
  {
    var e := DayNo(w.local);
    var close := Close(cal, e);
    if !IsOpenDay(cal, e) {
      assert DayNo(w.local + DAY) == e + 1;
      SearchStopsAtGap(cal, w.local + DAY, d);
    } else if w.remaining <= close - w.local {
      OpenTimeMonotone(cal, s, w.local + w.remaining, Close(cal, d));
    } else {
      DayOf(e, cal.end + SECOND);
      SearchStopsAtGap(cal, close + SECOND, d);
    }
  }

  /** If the gap comes before the hours are spent, the loop never returns. */
  lemma {:induction false} NeverCrossesGap(cal: Hours, s: int, h: int, d: int, n: nat)
    requires WellFormed(cal) && h > 0
    requires DayNo(s) <= d && IsOpenDay(cal, d) && !OpenWithin(cal, d, 369)
    requires OpenTime(cal, s, Close(cal, d)) < h
    ensures var w := Iterate(cal, s, h, n); w.Spending? && DayNo(w.local) <= d
  {
    if n == 0 {
      SearchStopsAtGap(cal, s, d);
    } else {
      NeverCrossesGap(cal, s, h, d, n - 1);
      WalkIsAccounted(cal, s, h, n);
      StepStopsAtGap(cal, s, h, d, Iterate(cal, s, h, n - 1));
    }
  }

  /** Skipping a day without an open one for a year leads to a window or to the next such day. */
  lemma SkipsADay(cal: Hours, local: int)
    requires WellFormed(cal) && cal.start < cal.end
    requires !IsOpenDay(cal, DayNo(local)) && !OpenWithin(cal, DayNo(local), 369)
    ensures var r := NextOpen(cal, local + DAY);
      IsOpen(cal, r) || (Placed(cal, r) && DayNo(r) == DayNo(local) + 1)
  {
    var d := DayNo(local);
    OpenWithinIff(cal, d, 369);
    assert DayNo(local + DAY) == d + 1 && !IsOpenDay(cal, d + 1);
    NextOpenOutcome(cal, local + DAY);
  }

  /** Days until an open one, once none is open for a year. */
  lemma {:induction false} ReachesNextOpenDay(cal: Hours, s: int, h: int, n: nat, e: int) returns (m: nat)
    requires WellFormed(cal) && h > 0 && cal.start < cal.end
    requires IsOpenDay(cal, e)
    requires var w := Iterate(cal, s, h, n); w.Spending? && Placed(cal, w.local) && DayNo(w.local) <= e
    ensures var w := Iterate(cal, s, h, m);
      w.Spending? && IsOpen(cal, w.local) && w.remaining == Iterate(cal, s, h, n).remaining
    decreases e - DayNo(Iterate(cal, s, h, n).local)
  {
    var w := Iterate(cal, s, h, n);
    if IsOpen(cal, w.local) {
      m := n;
    } else {
      SkipsADay(cal, w.local);
      assert Iterate(cal, s, h, n + 1) == Step(cal, w);
      if IsOpen(cal, NextOpen(cal, w.local + DAY)) {
        m := n + 1;
      } else {
        m := ReachesNextOpenDay(cal, s, h, n + 1, e);
      }
    }
  }

  /** n consecutive occurrences of one weekday. */
  ghost function Weekly(first: int, n: nat): (s: set<int>)
    ensures |s| == n
    ensures forall x :: x in s ==> first <= x < first + 7 * n
  {
    if n == 0 then {} else Weekly(first, n - 1) + {first + 7 * (n - 1)}
  }

  lemma {:induction false} WeeklyMembers(first: int, n: nat, x: int)
    ensures x in Weekly(first, n) <==> first <= x < first + 7 * n && (x - first) % 7 == 0
  {
    if n > 0 {
      WeeklyMembers(first, n - 1, x);
    }
  }

  lemma SomeMember<T>(s: set<T>) returns (x: T)
    requires s != {}
    ensures x in s
  {
    x :| x in s;
  }

  lemma SubsetIsNoLarger(a: set<int>, b: set<int>)
    requires a <= b
    ensures |a| <= |b|
  {
    assert b == a + (b - a);
  }

  lemma FirstWeekday(d: int, w: int) returns (first: int)
    requires 0 <= w < 7
    ensures d < first <= d + 7 && first % 7 == w
  {
    first := d + 1 + (w - d - 1) % 7;
  }

  lemma WeekdayRepeats(first: int, e: int)
    requires (e - first) % 7 == 0
    ensures e % 7 == first % 7
  {
  }

  /** With n holidays, some day among the next 7 * (n + 1) is open. */
  lemma OpensAgain(cal: Hours, d: int) returns (e: int)
    requires WellFormed(cal)
    ensures d < e <= d + 7 * (|cal.holidays| + 1) && IsOpenDay(cal, e)
  {
    var w := SomeMember(cal.businessDays);
    var first := FirstWeekday(d, w);
    var days := Weekly(first, |cal.holidays| + 1);
    if days <= cal.holidays {
      SubsetIsNoLarger(days, cal.holidays);
    }
    e := SomeMember(days - cal.holidays);
    WeeklyMembers(first, |cal.holidays| + 1, e);
    WeekdayRepeats(first, e);
  }

  /** The sharp bound: with fewer than 52 holidays the day search never falls through. */
  lemma FewHolidaysLeaveNoGap(cal: Hours, d: int)
    requires WellFormed(cal) && |cal.holidays| < 52
    ensures OpenWithin(cal, d, 369)
  {
    var e := OpensAgain(cal, d);
    OpenWithinIff(cal, d, 369);
  }

  lemma FindsWindow(cal: Hours, x: int)
    requires WellFormed(cal) && cal.start < cal.end && OpenWithin(cal, DayNo(x), 369)
    ensures IsOpen(cal, NextOpen(cal, x))
  {
    NextOpenOutcome(cal, x);
  }

  lemma LaterDay(a: int, b: int)
    requires a <= b
    ensures DayNo(a) <= DayNo(b)
  {
  }

  /** Up to its closing, a window that contains `local` is all open. */
  lemma OpenUntilClosing(cal: Hours, s: int, local: int)
    requires WellFormed(cal) && s <= local && IsOpen(cal, local)
    ensures var close := Close(cal, DayNo(local));
      local < close && OpenTime(cal, s, close) == OpenTime(cal, s, local) + (close - local)
  {
    var close := Close(cal, DayNo(local));
    RestOfDay(cal, local, close);
    OpenTimeAdds(cal, s, local, close);
  }

  lemma BeforeClosing(cal: Hours, s: int, h: int, local: int, remaining: int)
    requires WellFormed(cal) && CanServe(cal, s, h) && s <= local && IsOpen(cal, local)
    requires OpenTime(cal, s, local) + remaining == h && remaining > Close(cal, DayNo(local)) - local
    ensures OpenWithin(cal, DayNo(local), 369)
  {
    OpenUntilClosing(cal, s, local);
    LaterDay(s, local);
  }

  /** In a window, an iteration returns or spends the rest of it and reaches another opening. */
  lemma MovesOn(cal: Hours, local: int, remaining: int)
    requires WellFormed(cal) && IsOpen(cal, local)
    requires remaining > Close(cal, DayNo(local)) - local ==> OpenWithin(cal, DayNo(local), 369)
    ensures var w := Step(cal, Spending(local, remaining));
      w.Spending? ==> IsOpen(cal, w.local) && TimeOfDay(w.local) == cal.start
                      && w.remaining == remaining - (cal.end - TimeOfDay(local))
  {
    var d := DayNo(local);
    DayOf(d, cal.end + SECOND);
    assert Close(cal, d) - local == cal.end - TimeOfDay(local);
    if remaining > Close(cal, d) - local {
      FindsWindow(cal, Close(cal, d) + SECOND);
      NextOpenOutcome(cal, Close(cal, d) + SECOND);
    }
  }

  lemma ServesToday(cal: Hours, s: int, h: int, local: int, remaining: int)
    requires WellFormed(cal) && CanServe(cal, s, h) && IsOpen(cal, local)
    requires remaining > 0 && s <= local && OpenTime(cal, s, local) + remaining == h
    ensures var w := Step(cal, Spending(local, remaining));
      w.Spending? ==> IsOpen(cal, w.local) && w.remaining < remaining
  {
    if remaining > Close(cal, DayNo(local)) - local {
      BeforeClosing(cal, s, h, local, remaining);
    }
    MovesOn(cal, local, remaining);
  }

  lemma {:induction false} ServesFrom(cal: Hours, s: int, h: int, n: nat) returns (m: nat)
    requires WellFormed(cal) && h > 0 && CanServe(cal, s, h)
    requires var w := Iterate(cal, s, h, n); w.Spending? && IsOpen(cal, w.local)
    ensures Iterate(cal, s, h, m).Due?
    decreases Iterate(cal, s, h, n).remaining
  {
    var w := Iterate(cal, s, h, n);
    WalkIsAccounted(cal, s, h, n);
    ServesToday(cal, s, h, w.local, w.remaining);
    WalkIsAccounted(cal, s, h, n + 1);
    assert Iterate(cal, s, h, n + 1) == Step(cal, w);
    if Step(cal, w).Due? {
      m := n + 1;
    } else {
      m := ServesFrom(cal, s, h, n + 1);
    }
  }

  /** add_service_hours returns exactly when the calendar can serve the request. */
  lemma FinishesIffCanServe(cal: Hours, s: int, h: int)
    requires WellFormed(cal) && h > 0
    ensures Finishes(cal, s, h) <==> CanServe(cal, s, h)
  {
    if CanServe(cal, s, h) {
      SearchKeepsTheAccount(cal, s, s);
      NextOpenOutcome(cal, s);
      assert Iterate(cal, s, h, 0) == Start(cal, s, h);
      var e := OpensAgain(cal, DayNo(NextOpen(cal, s)));
      var n := ReachesNextOpenDay(cal, s, h, 0, e);
      var m := ServesFrom(cal, s, h, n);
    }
    if Finishes(cal, s, h) {
      var n: nat :| Iterate(cal, s, h, n).Due?;
      WalkIsAccounted(cal, s, h, n);
      forall d {:trigger IsOpenDay(cal, d)} |
        DayNo(s) <= d && IsOpenDay(cal, d) && OpenTime(cal, s, Close(cal, d)) < h
        ensures OpenWithin(cal, d, 369)
      {
        if !OpenWithin(cal, d, 369) {
          NeverCrossesGap(cal, s, h, d, n);
        }
      }
    }
  }

  /** Whatever the loop returns is the promised instant. */
  lemma ReturnsTheDueInstant(cal: Hours, s: int, h: int, n: nat)
    requires WellFormed(cal) && h > 0
    ensures match Iterate(cal, s, h, n)
            case Due(at) => IsDue(cal, s, h, at)
            case Spending(_, remaining) => remaining > 0
  {
    WalkIsAccounted(cal, s, h, n);
  }

  lemma LastIteration(cal: Hours, s: int, h: int) returns (last: nat)
    requires WellFormed(cal) && h > 0 && CanServe(cal, s, h)
    ensures Iterate(cal, s, h, last).Due?
  {
    FinishesIffCanServe(cal, s, h);
    last :| Iterate(cal, s, h, last).Due?;
  }

  lemma NextIteration(cal: Hours, s: int, h: int, n: nat, last: nat)
    requires WellFormed(cal) && h > 0
    requires Iterate(cal, s, h, n).Spending? && Iterate(cal, s, h, last).Due? && n <= last
    ensures n < last
    ensures Iterate(cal, s, h, n + 1) == Step(cal, Iterate(cal, s, h, n))
    ensures match Step(cal, Iterate(cal, s, h, n))
            case Due(at) => IsDue(cal, s, h, at)
            case Spending(_, remaining) => remaining > 0
  {
    ReturnsTheDueInstant(cal, s, h, n + 1);
  }

  /** The loop itself. Its precondition is that it returns at all. */
  method AddServiceHours(cal: Hours, h: int, s: int) returns (due: Option<int>)
    requires WellFormed(cal)
    requires h > 0 ==> CanServe(cal, s, h)
    ensures h <= 0 <==> due == None
    ensures h > 0 ==> due.Some? && IsDue(cal, s, h, due.value)
  {
    if h <= 0 {
      return None;
    }
    ghost var last := LastIteration(cal, s, h);
    ghost var n: nat := 0;
    var local := FindNextOpen(cal, s);
    var remaining := h;
    while remaining > 0
      invariant Iterate(cal, s, h, n) == Spending(local, remaining)
      invariant remaining > 0
      invariant n <= last
      decreases last - n
    {
      NextIteration(cal, s, h, n, last);
      n := n + 1;
      if !IsOpenDay(cal, DayNo(local)) {
        local := FindNextOpen(cal, local + DAY);
        continue;
      }
      var endAt := At(DayNo(local), cal.end);
      var available := endAt - local;
      if remaining <= available {
        return Some(local + remaining);
      }
      remaining := remaining - (if available > 0 then available else 0);
      local := FindNextOpen(cal, endAt + SECOND);
    }
  }

  // ---------------------------------------------------------------- laws

  /** Adding a + b hours is adding b to the result of adding a, also when the first result
      is exactly a closing time; and either side can be served when the other can. */
  lemma Composition(cal: Hours, s: int, a: int, b: int, mid: int, due: int)
    requires WellFormed(cal) && a > 0 && b > 0
    requires IsDue(cal, s, a, mid)
    ensures IsDue(cal, mid, b, due) <==> IsDue(cal, s, a + b, due)
    ensures CanServe(cal, s, a + b) <==> CanServe(cal, s, a) && CanServe(cal, mid, b)
  {
    if mid <= due {
      OpenTimeAdds(cal, s, mid, due);
    } else if IsDue(cal, s, a + b, due) {
      DueIsLeast(cal, s, a + b, due, mid);
    }
    CompositionServes(cal, s, a, b, mid);
  }

  /** A day before that of `mid` closes before the first a hours are spent. */
  lemma ClosesBeforeMid(cal: Hours, s: int, a: int, mid: int, d: int)
    requires WellFormed(cal) && IsDue(cal, s, a, mid) && d < DayNo(mid)
    ensures OpenTime(cal, s, Close(cal, d)) < a
  {
    assert Close(cal, d) < At(d + 1, 0) <= At(DayNo(mid), 0) <= mid;
    DueIsLeast(cal, s, a, mid, Close(cal, d));
  }

  /** Any other closes after them and counts on from `mid`. */
  lemma ClosesAfterMid(cal: Hours, s: int, a: int, mid: int, d: int)
    requires WellFormed(cal) && IsDue(cal, s, a, mid) && DayNo(mid) <= d
    ensures OpenTime(cal, s, Close(cal, d)) == a + OpenTime(cal, mid, Close(cal, d))
  {
    DueLiesInWindow(cal, s, a, mid);
    assert mid <= Close(cal, DayNo(mid)) <= Close(cal, d);
    OpenTimeAdds(cal, s, mid, Close(cal, d));
  }

  lemma CompositionServes(cal: Hours, s: int, a: int, b: int, mid: int)
    requires WellFormed(cal) && a > 0 && b > 0
    requires IsDue(cal, s, a, mid)
    ensures CanServe(cal, s, a + b) <==> CanServe(cal, s, a) && CanServe(cal, mid, b)
  {
    LaterDay(s, mid);
    forall d
      ensures d < DayNo(mid) ==> OpenTime(cal, s, Close(cal, d)) < a
      ensures DayNo(mid) <= d ==> OpenTime(cal, s, Close(cal, d)) == a + OpenTime(cal, mid, Close(cal, d))
    {
      if d < DayNo(mid) {
        ClosesBeforeMid(cal, s, a, mid, d);
      } else {
        ClosesAfterMid(cal, s, a, mid, d);
      }
    }
  }

  /** Later starts are never due earlier; more hours are always due later. */
  lemma Monotone(cal: Hours, s: int, s': int, h: int, h': int, due: int, due': int)
    requires IsDue(cal, s, h, due) && IsDue(cal, s', h', due')
    ensures s <= s' && h <= h' ==> due <= due'
    ensures s == s' ==> (h < h' <==> due < due')
  {
    DueIsLeast(cal, s, h, due, due');
    DueIsLeast(cal, s', h', due', due);
    if s <= s' && h <= h' {
      OpenTimeAdds(cal, s, s', due');
    }
  }

  /** With an opening before the closing and fewer than 52 holidays every request is served. */
  lemma FewHolidaysAlwaysServe(cal: Hours, s: int, h: int)
    requires WellFormed(cal) && cal.start < cal.end && |cal.holidays| < 52
    ensures CanServe(cal, s, h)
  {
    forall d {:trigger IsOpenDay(cal, d)} ensures OpenWithin(cal, d, 369) {
      FewHolidaysLeaveNoGap(cal, d);
    }
  }

  /** 52 holidays on consecutive Mondays. */
  function MondaysOnly(holidays: set<int>): Hours {
    Hours({0}, 8 * HOUR, 17 * HOUR, holidays)
  }

  lemma NoMondayForAYear(n: nat)
    requires n >= 52
    ensures var cal := MondaysOnly(Weekly(7, n)); IsOpenDay(cal, 0) && !OpenWithin(cal, 0, 369)
  {
    var cal := MondaysOnly(Weekly(7, n));
    WeeklyMembers(7, n, 0);
    OpenWithinIff(cal, 0, 369);
    if OpenWithin(cal, 0, 369) {
      var e :| 0 < e <= 369 && IsOpenDay(cal, e);
      WeeklyMembers(7, n, e);
    }
  }

  /** 52 is sharp: from 52 holidays on there is a calendar on which one more millisecond,
      asked for at closing, never returns. */
  lemma FiftyTwoHolidaysCanHang(n: nat)
    requires n >= 52
    ensures var cal := MondaysOnly(Weekly(7, n));
      && WellFormed(cal) && cal.start < cal.end && |cal.holidays| == n
      && !Finishes(cal, Close(cal, 0), 1)
  {
    var cal := MondaysOnly(Weekly(7, n));
    assert 0 in cal.businessDays;
    NoMondayForAYear(n);
    NeverReturnsFrom(cal, 0);
  }

  /** After the last closing before a gap of 369 days, the loop never returns. */
  lemma NeverReturnsFrom(cal: Hours, d: int)
    requires WellFormed(cal) && IsOpenDay(cal, d) && !OpenWithin(cal, d, 369)
    ensures !Finishes(cal, Close(cal, d), 1)
  {
    var s := Close(cal, d);
    DayOf(d, cal.end);
    assert OpenTime(cal, s, s) == 0;
    forall n: nat ensures !Iterate(cal, s, 1, n).Due? {
      NeverCrossesGap(cal, s, 1, d, n);
    }
  }

  /** With fewer than 52 holidays, after the first iteration each one spends a full window. */
  lemma {:induction false} EachIterationSpendsAWindow(cal: Hours, s: int, h: int, n: nat)
    requires WellFormed(cal) && cal.start < cal.end && |cal.holidays| < 52 && h > 0
    ensures var w := Iterate(cal, s, h, n);
      w.Spending? ==> IsOpen(cal, w.local)
                      && (n > 0 ==> TimeOfDay(w.local) == cal.start
                                    && w.remaining < h - (n - 1) * (cal.end - cal.start))
  {
    if n == 0 {
      FewHolidaysLeaveNoGap(cal, DayNo(s));
      FindsWindow(cal, s);
    } else {
      EachIterationSpendsAWindow(cal, s, h, n - 1);
      var w := Iterate(cal, s, h, n - 1);
      if w.Spending? {
        FewHolidaysLeaveNoGap(cal, DayNo(w.local));
        MovesOn(cal, w.local, w.remaining);
        if n > 1 {
          OneMoreWindow(n - 1, cal.end - cal.start);
        }
      }
    }
  }

  lemma OneMoreWindow(n: nat, window: int)
    ensures n * window == (n - 1) * window + window
  {
  }

  /** The loop returns within ceil(h / window) + 1 iterations. */
  lemma IterationBound(cal: Hours, s: int, h: int, n: nat)
    requires WellFormed(cal) && cal.start < cal.end && |cal.holidays| < 52 && h > 0
    requires n > 0 && h <= (n - 1) * (cal.end - cal.start)
    ensures Iterate(cal, s, h, n).Due?
  {
    EachIterationSpendsAWindow(cal, s, h, n);
    WalkIsAccounted(cal, s, h, n);
  }
}
