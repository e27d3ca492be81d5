/** Service-level timers over whole runs: the escalation scan and pause accounting. */
module LifecycleSla {
  import opened Common
  import opened WorkflowModel
  import opened Lifecycle
  import opened LifecycleInvariant
  import opened LifecycleRuns

  // ---------------------------------------------------------------- the scan

  /** The scan has nothing to do for this case at this instant. */
  predicate Settled(c: Case, now: int) {
    Watched(c) ==>
      && RaisedLevel(c, now) == c.level
      && (StageOf(c.config, c.status).Some? ==> !WarningDue(c, StageOf(c.config, c.status).value, now))
  }

  lemma SettledIsLeftAlone(w: World, i: nat)
    requires i < |w.cases| && Settled(w.cases[i], w.clock)
    ensures ScanOne(w, i) == w
  {
  }

  /** One visit settles its case, touches no other, and says at most one thing about it. */
  lemma OneVisit(w: World, i: nat)
    requires i < |w.cases|
    ensures var r := ScanOne(w, i);
      && Settled(r.cases[i], w.clock)
      && (forall j :: 0 <= j < |w.cases| && j != i ==> r.cases[j] == w.cases[j])
      && w.log <= r.log && |r.log| <= |w.log| + 1
      && (r == w <==> |r.log| == |w.log|)
      && (!Watched(w.cases[i]) ==> r == w)
  {
    var c := w.cases[i];
    if Watched(c) {
      var m := Warn(w, i);
      if m != w {
        assert Nearest(c).value >= w.clock;
        assert RaisedLevel(m.cases[i], w.clock) == c.level;
      }
    }
  }

  lemma {:induction false} ScanSettles(w: World, n: nat)
    requires n <= |w.cases|
    ensures var r := ScanUpTo(w, n);
      && (forall j :: 0 <= j < n ==> Settled(r.cases[j], w.clock))
      && (forall j :: n <= j < |w.cases| ==> r.cases[j] == w.cases[j])
      && w.log <= r.log && |r.log| <= |w.log| + n
      && (forall j :: 0 <= j < |w.cases| && !Watched(w.cases[j]) ==> r.cases[j] == w.cases[j])
  {
    if n > 0 {
      ScanSettles(w, n - 1);
      OneVisit(ScanUpTo(w, n - 1), n - 1);
    }
  }

  lemma {:induction false} SettledScanIsIdle(w: World, n: nat)
    requires n <= |w.cases| && forall j :: 0 <= j < n ==> Settled(w.cases[j], w.clock)
    ensures ScanUpTo(w, n) == w
  {
    if n > 0 {
      SettledScanIsIdle(w, n - 1);
      SettledIsLeftAlone(w, n - 1);
    }
  }

  /** A second scan at the same instant changes nothing; one scan says at most one thing about
      each case; paused and completed cases are untouched. */
  lemma ScanIsIdempotent(w: World)
    ensures var r := ScanUpTo(w, |w.cases|);
      && ScanUpTo(r, |r.cases|) == r
      && |r.log| <= |w.log| + |w.cases|
      && forall j :: 0 <= j < |w.cases| && (w.cases[j].pausedAt.Some? || w.cases[j].completedAt.Some?) ==>
           r.cases[j] == w.cases[j]
  {
    var r := ScanUpTo(w, |w.cases|);
    ScanSettles(w, |w.cases|);
    SettledScanIsIdle(r, |r.cases|);
  }

  // ---------------------------------------------------------------- counting in the log

  predicate IsAlert(e: Event, i: nat) {
    e.caseId == i && (e.kind.SlaWarning? || e.kind.SlaEscalated?)
  }

  predicate IsEntry(e: Event, i: nat) {
    e.caseId == i && e.kind.StatusChanged?
  }

  /** How many alerts the scan has raised for case i in the stage visit the log ends in. */
  function AlertsHere(log: seq<Event>, i: nat): nat {
    if log == [] || IsEntry(log[|log| - 1], i) then 0
    else AlertsHere(log[..|log| - 1], i) + (if IsAlert(log[|log| - 1], i) then 1 else 0)
  }

  /** How many it has ever raised for it. */
  function Alerts(log: seq<Event>, i: nat): nat {
    if log == [] then 0
    else Alerts(log[..|log| - 1], i) + (if IsAlert(log[|log| - 1], i) then 1 else 0)
  }

  /** How many stages case i has been in, counting repeats. */
  function Visits(log: seq<Event>, i: nat): nat {
    if log == [] then 1 else Visits(log[..|log| - 1], i) + (if IsEntry(log[|log| - 1], i) then 1 else 0)
  }

  function Resumed(e: Event, i: nat): int {
    if e.caseId == i && e.kind.SlaResumed? then e.kind.paused else 0
  }

  /** The total length of the pauses of case i that were resumed. */
  function ResumedTotal(log: seq<Event>, i: nat): int {
    if log == [] then 0 else ResumedTotal(log[..|log| - 1], i) + Resumed(log[|log| - 1], i)
  }

  /** The length of those resumed since it entered its stage. */
  function ResumedHere(log: seq<Event>, i: nat): int {
    if log == [] || IsEntry(log[|log| - 1], i) then 0
    else ResumedHere(log[..|log| - 1], i) + Resumed(log[|log| - 1], i)
  }

  lemma {:induction false} LedgerCounts(c: Case, log: seq<Event>, i: nat)
    requires LedgerOf(c, log, i).orderly
    ensures var l := LedgerOf(c, log, i);
      && l.alertsHere == AlertsHere(log, i)
      && l.paidTotal == ResumedTotal(log, i) && l.paidStage == ResumedHere(log, i)
  {
    if log != [] {
      var init, e := log[..|log| - 1], log[|log| - 1];
      LedgerPosts(c, init, i, e);
      assert log == init + [e];
      LedgerCounts(c, init, i);
    }
  }

  /** An orderly ledger has seen no fourth alert in any visit. */
  lemma {:induction false} NoFourthAlert(c: Case, log: seq<Event>, i: nat)
    requires LedgerOf(c, log, i).orderly
    ensures AlertsHere(log, i) <= 3
    ensures Alerts(log, i) <= 3 * (Visits(log, i) - 1) + AlertsHere(log, i)
  {
    if log != [] {
      var init, e := log[..|log| - 1], log[|log| - 1];
      LedgerPosts(c, init, i, e);
      assert log == init + [e];
      NoFourthAlert(c, init, i);
      LedgerCounts(c, init, i);
    }
  }

  /** Nothing makes a ledger orderly again. */
  lemma {:induction false} OrderlyBefore(c: Case, log: seq<Event>, i: nat, n: nat)
    requires LedgerOf(c, log, i).orderly && n <= |log|
    ensures LedgerOf(c, log[..n], i).orderly
    decreases |log| - n
  {
    if n == |log| {
      assert log[..n] == log;
    } else {
      OrderlyBefore(c, log, i, n + 1);
      LedgerPosts(c, log[..n], i, log[n]);
      assert log[..n + 1] == log[..n] + [log[n]];
    }
  }

  /** In every stage visit of every run a case raises at most three alerts: at no point of the
      log have there been more since the case last entered a stage. */
  lemma AlertsAreBounded(w: World, i: nat, n: nat)
    requires Reachable(w) && i < |w.cases| && n <= |w.log|
    ensures AlertsHere(w.log[..n], i) <= 3
    ensures Alerts(w.log, i) <= 3 * Visits(w.log, i)
  {
    ReachableIsGood(w);
    assert Good(w, i);
    OrderlyBefore(w.cases[i], w.log, i, n);
    NoFourthAlert(w.cases[i], w.log[..n], i);
    NoFourthAlert(w.cases[i], w.log, i);
  }

  /** The overall deadline is the one computed at creation moved by exactly the resumed pauses;
      while the case is open its stage deadline is the one computed on entering the stage moved
      by exactly those resumed since; closing on time means closing no later than the overall. */
  lemma PausesAreConserved(w: World, i: nat)
    requires Reachable(w) && i < |w.cases|
    ensures var c := w.cases[i];
      var promised := Deadline(c.config, c.config.totalSla, c.createdAt);
      && (c.overallDue.Some? <==> promised.Some?)
      && (promised.Some? ==> c.overallDue.value == promised.value + ResumedTotal(w.log, i))
      && (c.completedAt.Some? ==>
            c.closedOnTime == Some(promised.Some? ==> c.completedAt.value <= promised.value + ResumedTotal(w.log, i)))
    ensures var c := w.cases[i];
      c.completedAt == None ==>
        && StageOf(c.config, c.status).Some?
        && var promised := Deadline(c.config, StageOf(c.config, c.status).value.sla, c.stageStartedAt);
           && (c.stageDue.Some? <==> promised.Some?)
           && (promised.Some? ==> c.stageDue.value == promised.value + ResumedHere(w.log, i))
  {
    ReachableIsGood(w);
    assert Good(w, i);
    LedgerCounts(w.cases[i], w.log, i);
  }

  // ---------------------------------------------------------------- between pause and resume

  /** Operations that may move the timers of a paused case. */
  predicate MovesTimers(op: Operation, i: nat) {
    (op.Transit? && op.id == i) || (op.Resume? && op.id == i)
  }

  ghost predicate SameTimers(c: Case, d: Case) {
    d.pausedAt == c.pausedAt && d.stageDue == c.stageDue && d.overallDue == c.overallDue && d.level == c.level
  }

  /** Operations that name another case, or no case, leave the row of case i alone. */
  lemma OthersLeaveTheRow(w: World, t: Timed, i: nat)
    requires i < |w.cases| && !t.op.Scan?
    requires !((t.op.Transit? || t.op.Pause? || t.op.Resume? || t.op.Reassign?) && t.op.id == i)
    ensures i < |Next(w, t).cases| && Next(w, t).cases[i] == w.cases[i]
  {
  }

  lemma ReassignKeepsTimers(w: World, t: Timed, i: nat)
    requires i < |w.cases| && t.op.Reassign?
    ensures i < |Next(w, t).cases| && SameTimers(w.cases[i], Next(w, t).cases[i])
  {
  }

  lemma PausedTimersStand(w: World, t: Timed, i: nat)
    requires Inv(w) && i < |w.cases| && w.cases[i].pausedAt.Some? && !MovesTimers(t.op, i)
    ensures i < |Next(w, t).cases| && SameTimers(w.cases[i], Next(w, t).cases[i])
  {
    var m := Tick(w, t.wait);
    if t.op.Scan? {
      ScanSettles(m, |m.cases|);
    } else if t.op.Pause? && t.op.id == i {
      assert Next(w, t) == m;
    } else if t.op.Reassign? {
      ReassignKeepsTimers(w, t, i);
    } else {
      OthersLeaveTheRow(w, t, i);
    }
  }

  lemma {:induction false} PausedTimersStandOverRuns(w: World, ops: seq<Timed>, i: nat)
    requires Inv(w) && i < |w.cases| && w.cases[i].pausedAt.Some?
    requires forall n :: 0 <= n < |ops| ==> !MovesTimers(ops[n].op, i)
    ensures Inv(Run(w, ops)) && i < |Run(w, ops).cases| && SameTimers(w.cases[i], Run(w, ops).cases[i])
  {
    if ops != [] {
      var init := ops[..|ops| - 1];
      PausedTimersStandOverRuns(w, init, i);
      PausedTimersStand(Run(w, init), ops[|ops| - 1], i);
      NextKeeps(Run(w, init), ops[|ops| - 1]);
    }
  }

  /** A pause holds the clock: whatever else happens in between, resuming restores exactly the
      time that was left on both deadlines when the pause began. */
  lemma ResumeRestoresWhatWasLeft(w: World, i: nat, actor: Actor, reason: string,
                                  between: seq<Timed>, wait: nat, resumer: Actor)
    requires Inv(w) && i < |w.cases| && PauseSla(w, i, actor, reason).Ok?
    requires forall n :: 0 <= n < |between| ==> !MovesTimers(between[n].op, i)
    requires resumer.managesSla
    ensures var m := Tick(Run(PauseSla(w, i, actor, reason).value, between), wait);
      && i < |m.cases| && ResumeSla(m, i, resumer).Ok?
      && var c, d := w.cases[i], ResumeSla(m, i, resumer).value.cases[i];
         && d.pausedAt == None
         && (d.stageDue.Some? <==> c.stageDue.Some?) && (d.overallDue.Some? <==> c.overallDue.Some?)
         && (c.stageDue.Some? ==> d.stageDue.value - m.clock == c.stageDue.value - w.clock)
         && (c.overallDue.Some? ==> d.overallDue.value - m.clock == c.overallDue.value - w.clock)
  {
    PauseKeeps(w, i, actor, reason);
    PausedTimersStandOverRuns(PauseSla(w, i, actor, reason).value, between, i);
  }

  /** Any step but a transition of the case leaves its level where it is or raises it. */
  lemma StepOnlyClimbs(w: World, t: Timed, i: nat)
    requires Inv(w) && i < |w.cases| && !(t.op.Transit? && t.op.id == i)
    ensures i < |Next(w, t).cases| && w.cases[i].level <= Next(w, t).cases[i].level <= 2
  {
    NextKeeps(w, t);
    var m := Tick(w, t.wait);
    if t.op.Scan? {
      ScanOnlyRaises(m, |m.cases|, i);
    } else if t.op.Pause? || t.op.Resume? || t.op.Reassign? {
      TimersKeepLevel(w, t, i);
    } else {
      OthersLeaveTheRow(w, t, i);
    }
    assert Good(Next(w, t), i);
  }

  lemma TimersKeepLevel(w: World, t: Timed, i: nat)
    requires i < |w.cases| && (t.op.Pause? || t.op.Resume? || t.op.Reassign?)
    ensures i < |Next(w, t).cases| && Next(w, t).cases[i].level == w.cases[i].level
  {
  }

  lemma VisitOnlyRaises(w: World, n: nat, i: nat)
    requires n < |w.cases| && i < |w.cases|
    ensures w.cases[i].level <= ScanOne(w, n).cases[i].level
  {
    if i != n {
      OneVisit(w, n);
    }
  }

  lemma {:induction false} ScanOnlyRaises(w: World, n: nat, i: nat)
    requires n <= |w.cases| && i < |w.cases|
    ensures w.cases[i].level <= ScanUpTo(w, n).cases[i].level
  {
    if n > 0 {
      ScanOnlyRaises(w, n - 1, i);
      VisitOnlyRaises(ScanUpTo(w, n - 1), n - 1, i);
    }
  }

  /** Within a stage visit, whatever else happens, the level only climbs and never beyond 2. */
  lemma {:induction false} LevelOnlyClimbs(w: World, ops: seq<Timed>, i: nat)
    requires Inv(w) && i < |w.cases|
    requires forall n :: 0 <= n < |ops| ==> !(ops[n].op.Transit? && ops[n].op.id == i)
    ensures i < |Run(w, ops).cases| && w.cases[i].level <= Run(w, ops).cases[i].level <= 2
  {
    if ops == [] {
      assert Good(w, i);
    } else {
      var init := ops[..|ops| - 1];
      LevelOnlyClimbs(w, init, i);
      RunKeeps(w, init);
      StepOnlyClimbs(Run(w, init), ops[|ops| - 1], i);
    }
  }
}
