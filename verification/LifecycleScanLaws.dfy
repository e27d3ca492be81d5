/** What the escalation scan does to every case, stated on the columns of its row, on numbers and
    on the events it adds. */
module LifecycleScanLaws {
  import opened Common
  import opened WorkflowModel
  import opened Lifecycle
  import opened ProcessReplay

  /** How long before a deadline the stage wants a warning: its own setting or else the
      workflow's, never negative, and four hours when it cannot be read. */
  ghost predicate Notice(cfg: Config, stage: Stage, window: int) {
    match if stage.warning.Missing? then cfg.warning else stage.warning
    case Of(d) => window == if d < 0 then 0 else d
    case _ => window == 14_400_000
  }

  /** The earlier of the two deadlines. */
  ghost predicate IsEarliest(c: Case, due: int) {
    && (c.stageDue == Some(due) || c.overallDue == Some(due))
    && (c.stageDue.Some? ==> due <= c.stageDue.value) && (c.overallDue.Some? ==> due <= c.overallDue.value)
  }

  /** A warning is due: none was given in this stage, and the earliest deadline is not past but
      no further than the notice. */
  ghost predicate WantsWarning(c: Case, now: int) {
    && c.warnedAt == None && StageOf(c.config, c.status).Some?
    && exists due, window ::
         IsEarliest(c, due) && Notice(c.config, StageOf(c.config, c.status).value, window) && now <= due <= now + window
  }

  /** The level a case is at once it has been looked at: 2 past its overall deadline, else at
      least 1 past its stage deadline. */
  ghost predicate LevelAfter(c: Case, now: int, level: nat) {
    if c.overallDue.Some? && c.overallDue.value < now then level == if c.level < 2 then 2 else c.level
    else if c.stageDue.Some? && c.stageDue.value < now then level == if c.level < 1 then 1 else c.level
    else level == c.level
  }

  /** What the scan does to one row; who an escalated case is given to is another matter. */
  ghost predicate Scanned(c: Case, d: Case, now: int) {
    if c.completedAt.Some? || c.pausedAt.Some? then d == c
    else
      && d == c.(warnedAt := d.warnedAt, level := d.level, escalatedAt := d.escalatedAt, assignee := d.assignee)
      && d.warnedAt == (if WantsWarning(c, now) then Some(now) else c.warnedAt)
      && LevelAfter(c, now, d.level)
      && d.escalatedAt == (if d.level != c.level then Some(now) else c.escalatedAt)
      && (d.level == c.level ==> d.assignee == c.assignee)
  }

  /** The events the scan logs about one case: a warning naming the earliest deadline, and an
      escalation to the new level saying whether the overall deadline is past. */
  ghost predicate Alerted(c: Case, d: Case, i: nat, now: int, added: seq<Event>) {
    var warned, raised := d.warnedAt != c.warnedAt, d.level != c.level;
    && |added| == (if warned then 1 else 0) + (if raised then 1 else 0)
    && (warned ==> && added[0].caseId == i && added[0].actor == None && added[0].at == now
                   && added[0].kind.SlaWarning? && IsEarliest(c, added[0].kind.due))
    && (raised ==> added[|added| - 1]
                   == Event(i, None, now, SlaEscalated(d.level, c.overallDue.Some? && c.overallDue.value < now)))
  }

  lemma NearestIsEarliest(c: Case)
    ensures forall due :: IsEarliest(c, due) <==> Nearest(c) == Some(due)
  {
  }

  lemma NoticeIsWindow(cfg: Config, stage: Stage)
    ensures forall window :: Notice(cfg, stage, window) <==> WarningWindow(cfg, stage) == window
  {
  }

  lemma WarningIsWanted(c: Case, now: int)
    requires StageOf(c.config, c.status).Some?
    ensures WarningDue(c, StageOf(c.config, c.status).value, now) <==> WantsWarning(c, now)
  {
    NearestIsEarliest(c);
    var stage := StageOf(c.config, c.status).value;
    NoticeIsWindow(c.config, stage);
    if WarningDue(c, stage, now) {
      assert IsEarliest(c, Nearest(c).value) && Notice(c.config, stage, WarningWindow(c.config, stage));
    }
  }

  lemma VisitScans(w: World, i: nat)
    requires i < |w.cases|
    ensures var r := ScanOne(w, i);
      && Scanned(w.cases[i], r.cases[i], w.clock)
      && (forall j :: 0 <= j < |w.cases| && j != i ==> r.cases[j] == w.cases[j])
      && r.approvals == w.approvals && r.relations == w.relations && r.roster == w.roster && r.clock == w.clock
      && w.log <= r.log && Alerted(w.cases[i], r.cases[i], i, w.clock, r.log[|w.log|..])
      && forall k :: |w.log| <= k < |r.log| ==> r.log[k].caseId == i
  {
    var c := w.cases[i];
    NearestIsEarliest(c);
    if StageOf(c.config, c.status).Some? {
      WarningIsWanted(c, w.clock);
    }
    if Watched(c) {
      WarnedThenRaised(w, i);
    }
  }

  /** A warning does not change what is overdue. */
  lemma WarnedThenRaised(w: World, i: nat)
    requires i < |w.cases|
    ensures var m := Warn(w, i);
      && m.cases[i] == w.cases[i].(warnedAt := m.cases[i].warnedAt)
      && RaisedLevel(m.cases[i], w.clock) == RaisedLevel(w.cases[i], w.clock)
      && w.log <= m.log
      && m.log[|w.log|..] == (if m == w then [] else [Event(i, None, w.clock, SlaWarning(Nearest(w.cases[i]).value))])
  {
  }

  lemma OneMoreEvent(log: seq<Event>, e: Event, j: nat)
    ensures EventsOf(log + [e], j) == EventsOf(log, j) + (if e.caseId == j then [e] else [])
  {
    assert (log + [e])[..|log|] == log;
  }

  lemma {:induction false} EventsOfAppends(log: seq<Event>, more: seq<Event>, i: nat, j: nat)
    requires forall k :: 0 <= k < |more| ==> more[k].caseId == i
    ensures EventsOf(log + more, j) == EventsOf(log, j) + (if i == j then more else [])
    decreases |more|
  {
    if more == [] {
      assert log + more == log;
    } else {
      var init, last := more[..|more| - 1], more[|more| - 1];
      EventsOfAppends(log, init, i, j);
      OneMoreEvent(log + init, last, j);
      assert (log + init) + [last] == log + more;
    }
  }

  ghost predicate ScannedCase(w: World, r: World, j: nat)
    requires j < |w.cases| && j < |r.cases|
  {
    && Scanned(w.cases[j], r.cases[j], w.clock)
    && EventsOf(w.log, j) <= EventsOf(r.log, j)
    && Alerted(w.cases[j], r.cases[j], j, w.clock, EventsOf(r.log, j)[|EventsOf(w.log, j)|..])
  }

  /** The first n cases have been looked at, and nothing else has changed. */
  ghost predicate ScannedUpTo(w: World, r: World, n: nat)
    requires |r.cases| == |w.cases| && n <= |w.cases|
  {
    && r.approvals == w.approvals && r.relations == w.relations && r.roster == w.roster && r.clock == w.clock
    && (forall j :: 0 <= j < n ==> ScannedCase(w, r, j))
    && (forall j :: n <= j < |w.cases| ==> r.cases[j] == w.cases[j] && EventsOf(r.log, j) == EventsOf(w.log, j))
  }

  lemma {:induction false} ScanVisitsAll(w: World, n: nat)
    requires n <= |w.cases|
    ensures ScannedUpTo(w, ScanUpTo(w, n), n)
  {
    if n > 0 {
      ScanVisitsAll(w, n - 1);
      VisitIsNext(w, ScanUpTo(w, n - 1), n - 1, ScanUpTo(w, n));
    }
  }

  lemma VisitIsNext(w: World, m: World, i: nat, r: World)
    requires i < |w.cases| == |m.cases| && ScannedUpTo(w, m, i) && r == ScanOne(m, i)
    ensures ScannedUpTo(w, r, i + 1)
  {
    OneMoreVisit(w, m, i);
    forall j | 0 <= j < i ensures ScannedCase(w, r, j) {
      assert ScannedCase(w, m, j);
    }
  }

  lemma OneMoreVisit(w: World, m: World, i: nat)
    requires i < |w.cases| && |m.cases| == |w.cases| && m.clock == w.clock && m.cases[i] == w.cases[i]
    requires EventsOf(m.log, i) == EventsOf(w.log, i)
    ensures var r := ScanOne(m, i);
      && r.approvals == m.approvals && r.relations == m.relations && r.roster == m.roster
      && ScannedCase(w, r, i)
      && forall j :: 0 <= j < |w.cases| && j != i ==>
           r.cases[j] == m.cases[j] && EventsOf(r.log, j) == EventsOf(m.log, j)
  {
    VisitScans(m, i);
    var r := ScanOne(m, i);
    var added := r.log[|m.log|..];
    assert r.log == m.log + added;
    forall j | 0 <= j < |w.cases| ensures EventsOf(r.log, j) == EventsOf(m.log, j) + (if i == j then added else []) {
      EventsOfAppends(m.log, added, i, j);
    }
    assert EventsOf(r.log, i)[|EventsOf(w.log, i)|..] == added;
  }

  lemma ScanLeaves(w: World, wait: nat)
    ensures var m, r := Tick(w, wait), Next(w, Timed(wait, Scan));
      && |r.cases| == |w.cases| && r.approvals == w.approvals && r.relations == w.relations && r.roster == w.roster
      && r.clock == w.clock + wait
      && forall j :: 0 <= j < |w.cases| ==> ScannedCase(m, r, j)
  {
    ScanVisitsAll(Tick(w, wait), |w.cases|);
  }
}
