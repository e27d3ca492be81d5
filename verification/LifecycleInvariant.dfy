/** What every operation keeps: the row invariant of each case, and the agreement between
    each case and the part of the event log that describes it. */
module LifecycleInvariant {
  import opened Common
  import opened WorkflowModel
  import opened WorkflowGraph
  import opened Lifecycle
  import Assignment
  import Rules

  // ---------------------------------------------------------------- rows

  /** No two approval rows for the same case, stage and key. */
  ghost predicate UniqueRows(rows: seq<Approval>) {
    forall a, b :: 0 <= a < b < |rows| ==> !IsRow(rows[b], rows[a].caseId, rows[a].stage, rows[a].key)
  }

  /** Every approval definition of the stage whose condition holds has its row. */
  ghost predicate AllRequested(c: Case, rows: seq<Approval>, i: nat, defs: seq<ApprovalDef>) {
    forall d :: d in defs && ApprovalApplies(d, c.fields) ==> HasRow(rows, i, c.status, d.key)
  }

  ghost predicate CaseOk(c: Case, rows: seq<Approval>, i: nat) {
    && Sound(c.config)
    && StageOf(c.config, c.status).Some?
    && AllRequested(c, rows, i, StageOf(c.config, c.status).value.approvals)
    && (c.completedAt.Some? <==> StageOf(c.config, c.status).value.terminal)
    && (c.completedAt.Some? ==> c.pausedAt == None)
    && c.level <= 2
  }

  // ---------------------------------------------------------------- the log

  /** What one case's events say, read from the first on. */
  datatype Ledger = Ledger(path: seq<Key>, started: int, dwell: int,
                           paused: Option<int>, paidTotal: int, paidStage: int,
                           alertsHere: nat, orderly: bool)

  function Opening(c: Case): Ledger {
    Ledger([c.config.initial], c.createdAt, 0, None, 0, 0, 0, true)
  }

  function Post(l: Ledger, ts: seq<Transition>, e: Event): Ledger {
    match e.kind
    case StatusChanged(source, target) =>
      l.(path := l.path + [target], dwell := l.dwell + (e.at - l.started), started := e.at,
         paused := None, paidStage := 0, alertsHere := 0,
         orderly := l.orderly && l.started <= e.at && l.path != [] && l.path[|l.path| - 1] == source
                    && FindTransition(ts, source, target).Some?)
    case SlaPaused(_) =>
      l.(paused := Some(e.at), orderly := l.orderly && l.paused == None)
    case SlaResumed(delta) =>
      var p := if l.paused.Some? then l.paused.value else e.at;
      l.(paused := None, paidTotal := l.paidTotal + (e.at - p), paidStage := l.paidStage + (e.at - p),
         orderly := l.orderly && l.paused.Some? && p <= e.at && delta == e.at - p)
    case SlaWarning(_) => l.(alertsHere := l.alertsHere + 1, orderly := l.orderly && l.alertsHere < 3)
    case SlaEscalated(_, _) => l.(alertsHere := l.alertsHere + 1, orderly := l.orderly && l.alertsHere < 3)
    case _ => l
  }

  function Account(l: Ledger, ts: seq<Transition>, log: seq<Event>, i: nat): Ledger {
    if log == [] then l
    else
      var before := Account(l, ts, log[..|log| - 1], i);
      var e := log[|log| - 1];
      if e.caseId == i then Post(before, ts, e) else before
  }

  function LedgerOf(c: Case, log: seq<Event>, i: nat): Ledger {
    Account(Opening(c), c.config.transitions, log, i)
  }

  lemma LedgerPosts(c: Case, log: seq<Event>, i: nat, e: Event)
    ensures LedgerOf(c, log + [e], i)
         == if e.caseId == i then Post(LedgerOf(c, log, i), c.config.transitions, e) else LedgerOf(c, log, i)
  {
    assert (log + [e])[..|log|] == log;
  }

  /** While open: the stage deadline is the one computed on entering, moved by the pauses
      resumed since. */
  ghost predicate OpenCaseOk(c: Case, l: Ledger) {
    && c.closedOnTime == None && StageOf(c.config, c.status).Some?
    && c.stageDue == Shift(Deadline(c.config, StageOf(c.config, c.status).value.sla, c.stageStartedAt), l.paidStage)
  }

  /** Once closed: on time means not after the overall deadline. */
  ghost predicate ClosedCaseOk(c: Case) {
    && c.stageDue == None && c.completedAt == Some(c.stageStartedAt)
    && c.closedOnTime == Some(c.overallDue == None || c.completedAt.value <= c.overallDue.value)
  }

  /** The agreement between a case and its events. */
  ghost predicate HistoryOk(c: Case, l: Ledger) {
    && l.orderly
    && l.path != [] && l.path[0] == c.config.initial && l.path[|l.path| - 1] == c.status
    && IsPath(c.config.transitions, l.path)
    && l.started == c.stageStartedAt && l.dwell == c.stageStartedAt - c.createdAt
    && l.paused == c.pausedAt
    && c.overallDue == Shift(Deadline(c.config, c.config.totalSla, c.createdAt), l.paidTotal)
    && (if c.completedAt == None then OpenCaseOk(c, l) else ClosedCaseOk(c))
    && l.alertsHere <= (if c.warnedAt.Some? then 1 else 0) + c.level
  }

  ghost predicate InThePast(c: Case, now: int) {
    && c.createdAt <= c.stageStartedAt <= now
    && (c.pausedAt.Some? ==> c.stageStartedAt <= c.pausedAt.value <= now)
  }

  /** Everything said about case i in world w. */
  ghost predicate Good(w: World, i: nat)
    requires i < |w.cases|
  {
    && CaseOk(w.cases[i], w.approvals, i)
    && HistoryOk(w.cases[i], LedgerOf(w.cases[i], w.log, i))
    && InThePast(w.cases[i], w.clock)
  }

  ghost predicate References(w: World) {
    && (forall k :: 0 <= k < |w.approvals| ==> w.approvals[k].caseId < |w.cases|)
    && (forall k :: 0 <= k < |w.log| ==> w.log[k].caseId < |w.cases|)
    && (forall r :: r in w.relations ==> r.source < |w.cases| && r.target < |w.cases| && r.source != r.target)
  }

  ghost predicate Inv(w: World) {
    && UniqueRows(w.approvals)
    && References(w)
    && Assignment.DistinctIds(w.roster.users)
    && forall i :: 0 <= i < |w.cases| ==> Good(w, i)
  }

  // ---------------------------------------------------------------- requesting approvals

  /** Rows are only ever added at the end, and never change their identity. */
  ghost predicate RowsKept(a: seq<Approval>, b: seq<Approval>) {
    |a| <= |b| && forall k :: 0 <= k < |a| ==> IsRow(b[k], a[k].caseId, a[k].stage, a[k].key)
  }

  lemma KeptRowsStillThere(a: seq<Approval>, b: seq<Approval>)
    requires RowsKept(a, b)
    ensures forall i, stage, key :: HasRow(a, i, stage, key) ==> HasRow(b, i, stage, key)
  {
    forall i, stage, key | HasRow(a, i, stage, key) ensures HasRow(b, i, stage, key) {
      var k :| 0 <= k < |a| && IsRow(a[k], i, stage, key);
      assert IsRow(b[k], i, stage, key);
    }
  }

  /** create_stage_approvals adds pending rows for its own case and stage only, one for every
      applicable definition that had none, and says nothing else in the log. */
  lemma {:induction false} RequestAllEffect(w: World, i: nat, author: Option<nat>, defs: seq<ApprovalDef>)
    requires i < |w.cases| && UniqueRows(w.approvals) && References(w)
    ensures var r := RequestAll(w, i, author, defs);
      && UniqueRows(r.approvals) && References(r)
      && w.approvals <= r.approvals
      && (forall k :: |w.approvals| <= k < |r.approvals| ==>
            r.approvals[k].caseId == i && r.approvals[k].stage == w.cases[i].status && r.approvals[k].status == Pending)
      && AllRequested(w.cases[i], r.approvals, i, defs)
      && (forall c: Case, j: nat :: LedgerOf(c, r.log, j) == LedgerOf(c, w.log, j))
  {
    if defs != [] {
      var init, last := defs[..|defs| - 1], defs[|defs| - 1];
      RequestAllEffect(w, i, author, init);
      var m := RequestAll(w, i, author, init);
      RequestOneEffect(m, i, author, last);
      var r := RequestOne(m, i, author, last);
      assert RowsKept(m.approvals, r.approvals);
      KeptRowsStillThere(m.approvals, r.approvals);
      assert defs == init + [last];
    }
  }

  lemma RequestOneEffect(w: World, i: nat, author: Option<nat>, def: ApprovalDef)
    requires i < |w.cases| && UniqueRows(w.approvals) && References(w)
    ensures var r := RequestOne(w, i, author, def);
      && UniqueRows(r.approvals) && References(r)
      && w.approvals <= r.approvals
      && (forall k :: |w.approvals| <= k < |r.approvals| ==>
            r.approvals[k].caseId == i && r.approvals[k].stage == w.cases[i].status && r.approvals[k].status == Pending)
      && (ApprovalApplies(def, w.cases[i].fields) ==> HasRow(r.approvals, i, w.cases[i].status, def.key))
      && (forall c: Case, j: nat :: LedgerOf(c, r.log, j) == LedgerOf(c, w.log, j))
  {
    var r := RequestOne(w, i, author, def);
    if r != w {
      assert IsRow(r.approvals[|w.approvals|], i, w.cases[i].status, def.key);
      forall c: Case, j: nat ensures LedgerOf(c, r.log, j) == LedgerOf(c, w.log, j) {
        LedgerPosts(c, w.log, j, r.log[|w.log|]);
      }
    }
  }

  // ---------------------------------------------------------------- what does not concern a case

  lemma GoodIsKept(w: World, r: World, j: nat)
    requires j < |w.cases| && j < |r.cases| && Good(w, j)
    requires r.cases[j] == w.cases[j] && RowsKept(w.approvals, r.approvals) && w.clock <= r.clock
    requires LedgerOf(w.cases[j], r.log, j) == LedgerOf(w.cases[j], w.log, j)
    ensures Good(r, j)
  {
    KeptRowsStillThere(w.approvals, r.approvals);
  }

  lemma TickKeeps(w: World, wait: nat)
    requires Inv(w)
    ensures Inv(Tick(w, wait))
  {
    forall i | 0 <= i < |w.cases| ensures Good(Tick(w, wait), i) {
      GoodIsKept(w, Tick(w, wait), i);
    }
  }

  // ---------------------------------------------------------------- one case at a time

  /** An operation that changes the row of case i and logs one event about it. */
  function Touch(w: World, i: nat, c: Case, e: Event): World
    requires i < |w.cases|
  {
    w.(cases := w.cases[i := c], log := w.log + [e])
  }

  lemma TouchKeepsOthers(w: World, i: nat, c: Case, e: Event)
    requires Inv(w) && i < |w.cases| && e.caseId == i
    ensures var r := Touch(w, i, c, e);
      && UniqueRows(r.approvals) && References(r)
      && forall j :: 0 <= j < |w.cases| && j != i ==> Good(r, j)
  {
    var r := Touch(w, i, c, e);
    forall j | 0 <= j < |w.cases| && j != i ensures Good(r, j) {
      LedgerPosts(w.cases[j], w.log, j, e);
      GoodIsKept(w, r, j);
    }
  }

  lemma TouchKeepsInv(w: World, i: nat, c: Case, e: Event)
    requires Inv(w) && i < |w.cases| && e.caseId == i
    requires c.config == w.cases[i].config && c.createdAt == w.cases[i].createdAt
    requires CaseOk(c, w.approvals, i) && InThePast(c, w.clock)
    requires HistoryOk(c, Post(LedgerOf(w.cases[i], w.log, i), c.config.transitions, e))
    ensures Inv(Touch(w, i, c, e))
  {
    TouchKeepsOthers(w, i, c, e);
    LedgerPosts(c, w.log, i, e);
  }

  /** Changing timers and level leaves what the row says about its stage as it is. */
  lemma TimersKeepStage(c: Case, d: Case, rows: seq<Approval>, i: nat)
    requires CaseOk(c, rows, i) && d.level <= 2 && (d.completedAt.Some? ==> d.pausedAt == None)
    requires d.config == c.config && d.fields == c.fields && d.status == c.status && d.completedAt == c.completedAt
    ensures CaseOk(d, rows, i)
  {
  }

  lemma PauseKeeps(w: World, i: nat, actor: Actor, reason: string)
    requires Inv(w) && i < |w.cases| && PauseSla(w, i, actor, reason).Ok?
    ensures Inv(PauseSla(w, i, actor, reason).value)
  {
    var cut := Rules.Cut(reason, 200);
    assert Good(w, i);
    var d := w.cases[i].(pausedAt := Some(w.clock), pauseReason := cut);
    TimersKeepStage(w.cases[i], d, w.approvals, i);
    TouchKeepsInv(w, i, d, Event(i, Some(actor.id), w.clock, SlaPaused(cut)));
  }

  lemma ResumeIsPosted(c: Case, l: Ledger, e: Event)
    requires HistoryOk(c, l) && c.completedAt == None && c.pausedAt.Some? && c.pausedAt.value <= e.at
    requires e.kind == SlaResumed(e.at - c.pausedAt.value)
    ensures HistoryOk(ResumedRow(c, e.at - c.pausedAt.value), Post(l, c.config.transitions, e))
  {
  }

  lemma ResumeKeeps(w: World, i: nat, actor: Actor)
    requires Inv(w) && i < |w.cases| && ResumeSla(w, i, actor).Ok?
    ensures Inv(ResumeSla(w, i, actor).value)
  {
    assert Good(w, i);
    var c := w.cases[i];
    var delta := w.clock - c.pausedAt.value;
    var e := Event(i, Some(actor.id), w.clock, SlaResumed(delta));
    TimersKeepStage(c, ResumedRow(c, delta), w.approvals, i);
    ResumeIsPosted(c, LedgerOf(c, w.log, i), e);
    TouchKeepsInv(w, i, ResumedRow(c, delta), e);
  }

  lemma WarnKeeps(w: World, i: nat)
    requires Inv(w) && i < |w.cases| && w.cases[i].completedAt == None
    ensures Inv(Warn(w, i)) && Warn(w, i).cases[i].completedAt == None
  {
    assert Good(w, i);
    if Warn(w, i) != w {
      var c := w.cases[i];
      var d := c.(warnedAt := Some(w.clock));
      TimersKeepStage(c, d, w.approvals, i);
      TouchKeepsInv(w, i, d, Event(i, None, w.clock, SlaWarning(Nearest(c).value)));
    }
  }

  lemma EscalationIsPosted(c: Case, l: Ledger, level: nat, assignee: Option<nat>, e: Event)
    requires HistoryOk(c, l) && c.completedAt == None && e.kind.SlaEscalated? && c.level < level <= 2
    ensures HistoryOk(c.(level := level, escalatedAt := Some(e.at), assignee := assignee),
                      Post(l, c.config.transitions, e))
  {
  }

  lemma EscalateKeeps(w: World, i: nat)
    requires Inv(w) && i < |w.cases| && w.cases[i].completedAt == None
    ensures Inv(Escalate(w, i))
  {
    assert Good(w, i);
    var c := w.cases[i];
    var level := RaisedLevel(c, w.clock);
    if level != c.level {
      var d := c.(level := level, escalatedAt := Some(w.clock), assignee := Replacement(w, c, level));
      var e := Event(i, None, w.clock, SlaEscalated(level, Overdue(c.overallDue, w.clock) && c.level < 2));
      TimersKeepStage(c, d, w.approvals, i);
      EscalationIsPosted(c, LedgerOf(c, w.log, i), level, d.assignee, e);
      TouchKeepsInv(w, i, d, e);
    }
  }

  lemma ReassignKeeps(w: World, i: nat, actor: Actor, assignee: Option<nat>)
    requires Inv(w) && i < |w.cases| && AssignCase(w, i, actor, assignee).Ok?
    ensures Inv(AssignCase(w, i, actor, assignee).value)
  {
    assert Good(w, i);
    var c := w.cases[i];
    var d := c.(assignee := assignee);
    var e := Event(i, Some(actor.id), w.clock, AssignmentChanged(assignee));
    TimersKeepStage(c, d, w.approvals, i);
    AssigneeIsNotPosted(c, LedgerOf(c, w.log, i), assignee, e);
    TouchKeepsInv(w, i, d, e);
  }

  lemma AssigneeIsNotPosted(c: Case, l: Ledger, assignee: Option<nat>, e: Event)
    requires HistoryOk(c, l) && e.kind.AssignmentChanged?
    ensures HistoryOk(c.(assignee := assignee), Post(l, c.config.transitions, e))
  {
  }

  lemma StaffKeeps(w: World, roster: Assignment.Roster)
    requires Inv(w) && Assignment.DistinctIds(roster.users)
    ensures Inv(w.(roster := roster))
  {
    forall i | 0 <= i < |w.cases| ensures Good(w.(roster := roster), i) {
      GoodIsKept(w, w.(roster := roster), i);
    }
  }

  lemma ScanOneKeeps(w: World, i: nat)
    requires Inv(w) && i < |w.cases|
    ensures Inv(ScanOne(w, i))
  {
    if Watched(w.cases[i]) {
      WarnKeeps(w, i);
      EscalateKeeps(Warn(w, i), i);
    }
  }

  lemma {:induction false} ScanKeeps(w: World, n: nat)
    requires Inv(w) && n <= |w.cases|
    ensures Inv(ScanUpTo(w, n))
  {
    if n == 0 {
      assert ScanUpTo(w, n) == w;
    } else {
      ScanKeeps(w, n - 1);
      OneMoreScanned(ScanUpTo(w, n - 1), n - 1, ScanUpTo(w, n));
    }
  }

  lemma OneMoreScanned(w: World, i: nat, r: World)
    requires Inv(w) && i < |w.cases| && r == ScanOne(w, i)
    ensures Inv(r)
  {
    ScanOneKeeps(w, i);
  }

  lemma RecordKeeps(w: World, i: nat, e: Event)
    requires Inv(w) && i < |w.cases| && e.caseId == i
    requires e.kind.Recorded? || e.kind.CaseRelated? || e.kind.ApprovalDecided?
    ensures Inv(w.(log := w.log + [e]))
  {
    assert Good(w, i);
    TouchKeepsInv(w, i, w.cases[i], e);
    assert Touch(w, i, w.cases[i], e) == w.(log := w.log + [e]);
  }

  lemma RelateKeeps(w: World, s: nat, t: nat, kind: RelationKind, actor: Actor)
    requires Inv(w) && s < |w.cases| && t < |w.cases| && CreateRelation(w, s, t, kind, actor).Ok?
    ensures Inv(CreateRelation(w, s, t, kind, actor).value)
  {
    var r := CreateRelation(w, s, t, kind, actor).value;
    if r != w {
      var e := Event(s, Some(actor.id), w.clock, CaseRelated(t, kind));
      var f := Event(t, Some(actor.id), w.clock, CaseRelated(s, kind));
      RecordKeeps(w, s, e);
      var m := w.(log := w.log + [e]);
      RecordKeeps(m, t, f);
      assert m.log + [f] == r.log;
      var n := m.(log := m.log + [f]);
      forall i | 0 <= i < |r.cases| ensures Good(r, i) {
        assert Good(n, i);
      }
    }
  }

  lemma DecideKeeps(w: World, k: nat, actor: Actor, decision: Decision)
    requires Inv(w) && k < |w.approvals| && DecideApproval(w, k, actor, decision).Ok?
    ensures Inv(DecideApproval(w, k, actor, decision).value)
  {
    var r := DecideApproval(w, k, actor, decision).value;
    var m := w.(log := r.log);
    RecordKeeps(w, w.approvals[k].caseId, r.log[|w.log|]);
    forall i | 0 <= i < |r.cases| ensures Good(r, i) {
      assert Good(m, i);
      GoodIsKept(m, r, i);
    }
  }

  /** Requesting approvals completes a case that lacked nothing else. */
  lemma RequestCompletes(m: World, i: nat, author: Option<nat>, defs: seq<ApprovalDef>)
    requires i < |m.cases| && UniqueRows(m.approvals) && References(m) && Assignment.DistinctIds(m.roster.users)
    requires forall j :: 0 <= j < |m.cases| && j != i ==> Good(m, j)
    requires var c := m.cases[i];
      && StageOf(c.config, c.status).Some? && defs == StageOf(c.config, c.status).value.approvals
      && CaseOkButRequests(c) && InThePast(c, m.clock) && HistoryOk(c, LedgerOf(c, m.log, i))
    ensures Inv(RequestAll(m, i, author, defs))
  {
    RequestAllEffect(m, i, author, defs);
    var r := RequestAll(m, i, author, defs);
    assert RowsKept(m.approvals, r.approvals);
    forall j | 0 <= j < |r.cases| && j != i ensures Good(r, j) {
      assert Good(m, j);
      GoodIsKept(m, r, j);
    }
    assert LedgerOf(m.cases[i], r.log, i) == LedgerOf(m.cases[i], m.log, i);
    assert Good(r, i);
  }

  ghost predicate CaseOkButRequests(c: Case) {
    && Sound(c.config)
    && StageOf(c.config, c.status).Some?
    && (c.completedAt.Some? <==> StageOf(c.config, c.status).value.terminal)
    && (c.completedAt.Some? ==> c.pausedAt == None)
    && c.level <= 2
  }

  lemma PathGrows(ts: seq<Transition>, p: seq<Key>, target: Key)
    requires IsPath(ts, p) && FindTransition(ts, p[|p| - 1], target).Some?
    ensures IsPath(ts, p + [target])
  {
    assert Edge(ts, p[|p| - 1], target);
  }

  /** Entering a stage is what the posted event says. */
  lemma EntryIsPosted(c: Case, l: Ledger, stage: Stage, target: Key, assignee: Option<nat>, e: Event)
    requires HistoryOk(c, l) && CaseOkButRequests(c) && c.completedAt == None && c.stageStartedAt <= e.at
    requires FindTransition(c.config.transitions, c.status, target).Some?
    requires StageOf(c.config, target) == Some(stage) && e.kind == StatusChanged(c.status, target)
    ensures var d := Entered(c, stage, target, assignee, e.at);
      HistoryOk(d, Post(l, c.config.transitions, e)) && CaseOkButRequests(d)
  {
    PathGrows(c.config.transitions, l.path, target);
    EntryTimes(c, l, stage, target, assignee, e);
  }

  lemma EntryTimes(c: Case, l: Ledger, stage: Stage, target: Key, assignee: Option<nat>, e: Event)
    requires HistoryOk(c, l) && e.kind == StatusChanged(c.status, target)
    requires c.completedAt == None && StageOf(c.config, target) == Some(stage)
    ensures var d, m := Entered(c, stage, target, assignee, e.at), Post(l, c.config.transitions, e);
      && m.started == d.stageStartedAt && m.dwell == d.stageStartedAt - d.createdAt
      && d.overallDue == Shift(Deadline(d.config, d.config.totalSla, d.createdAt), m.paidTotal)
      && (if d.completedAt == None then OpenCaseOk(d, m) else ClosedCaseOk(d))
  {
  }

  lemma TransitionKeeps(w: World, i: nat, actor: Actor, target: Key)
    requires Inv(w) && i < |w.cases| && TransitionCase(w, i, actor, target).Ok?
    ensures Inv(TransitionCase(w, i, actor, target).value)
  {
    assert Good(w, i);
    var c := w.cases[i];
    var stage := StageOf(c.config, target).value;
    var assignee := NextAssignee(w, stage);
    var d := Entered(c, stage, target, assignee, w.clock);
    var e := Event(i, Some(actor.id), w.clock, StatusChanged(c.status, target));
    var m := Touch(w, i, d, e);
    TouchKeepsOthers(w, i, d, e);
    LedgerPosts(d, w.log, i, e);
    EntryIsPosted(c, LedgerOf(c, w.log, i), stage, target, assignee, e);
    RequestCompletes(m, i, Some(actor.id), stage.approvals);
  }

  lemma {:induction false} NothingPosted(c: Case, log: seq<Event>, i: nat)
    requires forall k :: 0 <= k < |log| ==> log[k].caseId != i
    ensures LedgerOf(c, log, i) == Opening(c)
  {
    if log != [] {
      NothingPosted(c, log[..|log| - 1], i);
    }
  }

  lemma NewCaseStartsClean(cfg: Config, fields: map<Key, Json>, stage: Stage, assignee: Option<nat>, now: int)
    requires Sound(cfg) && StageOf(cfg, cfg.initial) == Some(stage)
    ensures var c := NewCase(cfg, fields, stage, assignee, now);
      CaseOkButRequests(c) && HistoryOk(c, Opening(c)) && InThePast(c, now)
  {
  }

  lemma AddingKeepsOthers(w: World, c: Case, e: Event)
    requires Inv(w) && e.caseId == |w.cases|
    ensures var m := w.(cases := w.cases + [c], log := w.log + [e]);
      References(m) && forall j :: 0 <= j < |w.cases| ==> Good(m, j)
  {
    var m := w.(cases := w.cases + [c], log := w.log + [e]);
    forall j | 0 <= j < |w.cases| ensures Good(m, j) {
      assert Good(w, j);
      LedgerPosts(w.cases[j], w.log, j, e);
      GoodIsKept(w, m, j);
    }
  }

  lemma OpeningKeeps(w: World, cfg: Config, fields: map<Key, Json>, stage: Stage, assignee: Option<nat>,
                     author: Option<nat>)
    requires Inv(w) && Sound(cfg) && StageOf(cfg, cfg.initial) == Some(stage)
    ensures Inv(Opened(w, cfg, fields, stage, assignee, author))
  {
    var i := |w.cases|;
    var c := NewCase(cfg, fields, stage, assignee, w.clock);
    var e := Event(i, author, w.clock, CaseCreated);
    AddingKeepsOthers(w, c, e);
    NothingPosted(c, w.log, i);
    LedgerPosts(c, w.log, i, e);
    NewCaseStartsClean(cfg, fields, stage, assignee, w.clock);
    RequestCompletes(w.(cases := w.cases + [c], log := w.log + [e]), i, author, stage.approvals);
  }

  lemma CreateKeeps(w: World, config: Config, sets: map<Key, seq<Rules.Rule>>, ctx: Rules.Context,
                    priority: string, author: Option<nat>)
    requires Inv(w) && CreateCase(w, config, sets, ctx, priority, author).Ok?
    ensures Inv(CreateCase(w, config, sets, ctx, priority, author).value)
  {
    Rules.SnapshotStaysSound(config, sets, ctx, priority);
    var outcome := Rules.Evaluate(config, sets, ctx, priority);
    var stage := StageOf(outcome.config, outcome.config.initial).value;
    var role := if outcome.routeRole.Some? then outcome.routeRole.value else stage.role;
    OpeningKeeps(w, outcome.config, ctx.fields, stage, Assignee(w, role, stage.skills), author);
  }

  // ---------------------------------------------------------------- every run

  lemma PerformKeeps(w: World, op: Operation)
    requires Inv(w) && Perform(w, op).Ok?
    ensures Inv(Perform(w, op).value)
  {
    match op
    case Create(config, sets, ctx, priority, author) => CreateKeeps(w, config, sets, ctx, priority, author);
    case Transit(i, actor, target) => TransitionKeeps(w, i, actor, target);
    case Decide(k, actor, decision) => DecideKeeps(w, k, actor, decision);
    case Pause(i, actor, reason) => PauseKeeps(w, i, actor, reason);
    case Resume(i, actor) => ResumeKeeps(w, i, actor);
    case Scan => ScanKeeps(w, |w.cases|);
    case Relate(s, t, kind, actor) => RelateKeeps(w, s, t, kind, actor);
    case Reassign(i, actor, assignee) => ReassignKeeps(w, i, actor, assignee);
    case Staff(roster) => StaffKeeps(w, roster);
    case Record(i, actor, what) => RecordKeeps(w, i, Event(i, Some(actor.id), w.clock, Recorded(what)));
  }

  lemma NextKeeps(w: World, t: Timed)
    requires Inv(w)
    ensures Inv(Next(w, t))
  {
    TickKeeps(w, t.wait);
    if Perform(Tick(w, t.wait), t.op).Ok? {
      PerformKeeps(Tick(w, t.wait), t.op);
    }
  }

  /** Every world a run reaches satisfies the invariant. */
  lemma {:induction false} RunKeeps(w: World, ops: seq<Timed>)
    requires Inv(w)
    ensures Inv(Run(w, ops))
  {
    if ops != [] {
      RunKeeps(w, ops[..|ops| - 1]);
      NextKeeps(Run(w, ops[..|ops| - 1]), ops[|ops| - 1]);
    }
  }
}
