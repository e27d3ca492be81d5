/** The lifecycle operations on mutable rows, proved against the state machine of Lifecycle.
    A Session holds the tables; each operation mutates the rows it is given, in place. */
module LifecycleRows {
  import opened Common
  import opened WorkflowModel
  import opened Lifecycle
  import WorkflowGraph
  import Calendar
  import ServiceHours
  import Assignment
  import Rules

  class CaseRecord {
    const id: nat
    const config: Config
    const fields: map<Key, Json>
    const createdAt: int
    var status: Key
    var assignee: Option<nat>
    var stageStartedAt: int
    var stageDue: Option<int>
    var overallDue: Option<int>
    var pausedAt: Option<int>
    var pauseReason: string
    var warnedAt: Option<int>
    var level: nat
    var escalatedAt: Option<int>
    var completedAt: Option<int>
    var closedOnTime: Option<bool>

    ghost function View(): Case
      reads this
    {
      Case(config, fields, status, assignee, createdAt, stageStartedAt, stageDue, overallDue,
           pausedAt, pauseReason, warnedAt, level, escalatedAt, completedAt, closedOnTime)
    }

    constructor (id: nat, config: Config, fields: map<Key, Json>, assignee: Option<nat>, now: int,
                 stageDue: Option<int>, overallDue: Option<int>)
      ensures this.id == id && this.config == config
      ensures View() == Case(config, fields, config.initial, assignee, now, now, stageDue, overallDue,
                             None, "", None, 0, None, None, None)
    {
      this.id, this.config, this.fields, this.createdAt := id, config, fields, now;
      this.status, this.assignee, this.stageStartedAt := config.initial, assignee, now;
      this.stageDue, this.overallDue := stageDue, overallDue;
      this.pausedAt, this.pauseReason, this.warnedAt := None, "", None;
      this.level, this.escalatedAt := 0, None;
      this.completedAt, this.closedOnTime := None, None;
    }
  }

  class ApprovalRow {
    const caseId: nat
    const stage: Key
    const key: Key
    const role: string
    var status: Decision
    var decidedBy: Option<nat>
    var decidedAt: Option<int>

    ghost function View(): Approval
      reads this
    {
      Approval(caseId, stage, key, role, status, decidedBy, decidedAt)
    }

    constructor (caseId: nat, stage: Key, key: Key, role: string)
      ensures View() == Approval(caseId, stage, key, role, Pending, None, None)
    {
      this.caseId, this.stage, this.key, this.role := caseId, stage, key, role;
      this.status, this.decidedBy, this.decidedAt := Pending, None, None;
    }
  }

  ghost function CaseViews(rows: seq<CaseRecord>): (r: seq<Case>)
    reads rows
    ensures |r| == |rows| && forall i :: 0 <= i < |rows| ==> r[i] == rows[i].View()
  {
    seq(|rows|, i requires 0 <= i < |rows| reads rows => rows[i].View())
  }

  ghost function ApprovalViews(rows: seq<ApprovalRow>): (r: seq<Approval>)
    reads rows
    ensures |r| == |rows| && forall i :: 0 <= i < |rows| ==> r[i] == rows[i].View()
  {
    seq(|rows|, i requires 0 <= i < |rows| reads rows => rows[i].View())
  }

  /** add_service_hours for one configuration. */
  method ComputeDeadline(cfg: Config, h: int, s: int) returns (due: Option<int>)
    requires Computable(cfg, h, s)
    ensures due == Deadline(cfg, h, s)
  {
    if h <= 0 {
      return None;
    }
    if cfg.calendar == None {
      return Some(s + h);
    }
    due := ServiceHours.AddServiceHours(cfg.calendar.value, h, s);
    DeadlineIs(cfg, h, s, due.value);
  }

  lemma DeadlineIs(cfg: Config, h: int, s: int, due: int)
    requires h > 0 && cfg.calendar.Some? && Calendar.IsDue(cfg.calendar.value, s, h, due)
    ensures Deadline(cfg, h, s) == Some(due)
  {
    Calendar.DueIsUnique(cfg.calendar.value, s, h, due, Deadline(cfg, h, s).value);
  }

  class Session {
    var clock: int
    var cases: seq<CaseRecord>
    var approvals: seq<ApprovalRow>
    var relations: seq<Relation>
    var log: seq<Event>
    var roster: Assignment.Roster

    ghost predicate Valid()
      reads this
    {
      && (forall i :: 0 <= i < |cases| ==> cases[i].id == i)
      && (forall a, b :: 0 <= a < b < |approvals| ==> approvals[a] != approvals[b])
    }

    ghost predicate Holds(c: CaseRecord)
      reads this
    {
      c.id < |cases| && cases[c.id] == c
    }

    ghost function View(): World
      reads this, cases, approvals
    {
      World(clock, CaseViews(cases), ApprovalViews(approvals), relations, log, roster)
    }

    constructor ()
      ensures Valid() && View() == EMPTY
    {
      clock, cases, approvals, relations, log, roster := 0, [], [], [], [], Assignment.Roster([], map[]);
    }

    method Wait(wait: nat)
      requires Valid()
      modifies this`clock
      ensures Valid() && View() == Tick(old(View()), wait)
    {
      clock := clock + wait;
    }

    method Log(c: nat, actor: Option<nat>, kind: Kind)
      modifies this`log
      ensures log == old(log) + [Event(c, actor, clock, kind)]
    {
      log := log + [Event(c, actor, clock, kind)];
    }

    // -------------------------------------------------------------- assignment

    /** The grouped count of open cases. */
    method CountOpen() returns (loads: Assignment.Loads)
      ensures loads == OpenLoads(View().cases)
    {
      loads := map[];
      for n := 0 to |cases|
        invariant loads == OpenLoads(CaseViews(cases)[..n])
      {
        var c := cases[n];
        ghost var views := CaseViews(cases);
        assert views[n] == c.View() && views[..n + 1][..n] == views[..n];
        if c.completedAt == None && c.assignee.Some? {
          var id := c.assignee.value;
          loads := loads[id := (if id in loads then loads[id] else 0) + 1];
        }
      }
      assert CaseViews(cases)[..|cases|] == CaseViews(cases);
    }

    method ChooseAssignee(role: string, skills: seq<string>) returns (assignee: Option<nat>)
      ensures assignee == Assignee(View(), role, skills)
    {
      var loads := CountOpen();
      var u := Assignment.SelectAssignee(roster, role, RequiredSkills(skills), loads);
      assignee := if u == None then None else Some(u.value.id);
    }

    method ReassignRow(c: CaseRecord, actor: Actor, assignee: Option<nat>) returns (refused: Option<Refusal>)
      requires Valid() && Holds(c)
      modifies this`log, c
      ensures Valid() && cases == old(cases) && approvals == old(approvals)
      ensures match AssignCase(old(View()), c.id, actor, assignee)
              case Ok(w) => refused == None && View() == w
              case Err(e) => refused == Some(e) && View() == old(View())
    {
      ghost var w := View();
      assert w.cases[c.id] == c.View();
      if !actor.assigns {
        return Some(Forbidden);
      }
      c.assignee := assignee;
      Log(c.id, Some(actor.id), AssignmentChanged(assignee));
      assert View().cases == w.cases[c.id := c.View()];
      return None;
    }

    // -------------------------------------------------------------- approvals

    method RowExists(c: nat, stage: Key, key: Key) returns (found: bool)
      ensures found == HasRow(View().approvals, c, stage, key)
    {
      for n := 0 to |approvals|
        invariant forall k :: 0 <= k < n ==> !IsRow(View().approvals[k], c, stage, key)
      {
        if approvals[n].caseId == c && approvals[n].stage == stage && approvals[n].key == key {
          assert IsRow(View().approvals[n], c, stage, key);
          return true;
        }
      }
      return false;
    }

    method CreateStageApprovals(c: CaseRecord, author: Option<nat>)
      requires Valid() && Holds(c) && StageOf(c.config, c.status).Some?
      modifies this`approvals, this`log
      ensures Valid() && cases == old(cases)
      ensures View() == RequestAll(old(View()), c.id, author, StageOf(c.config, c.status).value.approvals)
    {
      var defs := StageOf(c.config, c.status).value.approvals;
      ghost var w := View();
      for n := 0 to |defs|
        invariant Valid() && Holds(c) && cases == old(cases)
        invariant View() == RequestAll(w, c.id, author, defs[..n])
      {
        assert defs[..n + 1][..n] == defs[..n];
        var present := RowExists(c.id, c.status, defs[n].key);
        if ApprovalApplies(defs[n], c.fields) && !present {
          AddApproval(c, defs[n], author);
        }
      }
      assert defs[..|defs|] == defs;
    }

    method AddApproval(c: CaseRecord, def: ApprovalDef, author: Option<nat>)
      requires Valid() && Holds(c)
      requires ApprovalApplies(def, c.fields) && !HasRow(View().approvals, c.id, c.status, def.key)
      modifies this`approvals, this`log
      ensures Valid() && cases == old(cases)
      ensures View() == RequestOne(old(View()), c.id, author, def)
    {
      ghost var w := View();
      var row := new ApprovalRow(c.id, c.status, def.key, def.role);
      approvals := approvals + [row];
      Log(c.id, author, ApprovalRequested(def.key));
      assert View().approvals == w.approvals + [row.View()];
    }

    method AnyApproval(c: nat, stage: Key, wanted: set<Decision>) returns (found: bool)
      ensures found == SomeApproval(View().approvals, c, stage, wanted)
    {
      for n := 0 to |approvals|
        invariant forall k :: 0 <= k < n ==>
          var a := View().approvals[k]; a.caseId != c || a.stage != stage || a.status !in wanted
      {
        if approvals[n].caseId == c && approvals[n].stage == stage && approvals[n].status in wanted {
          assert View().approvals[n].status in wanted;
          return true;
        }
      }
      return false;
    }

    method IncompleteChild(c: nat) returns (found: bool)
      ensures found == HasIncompleteChild(View(), c)
    {
      for n := 0 to |relations|
        invariant forall k :: 0 <= k < n ==> !IsIncompleteChild(View(), c, relations[k])
      {
        var r := relations[n];
        if r.source == c && r.kind == ParentChild && r.target < |cases| && cases[r.target].completedAt == None {
          assert IsIncompleteChild(View(), c, relations[n]);
          return true;
        }
      }
      return false;
    }

    // -------------------------------------------------------------- transitions and decisions

    method TransitionRow(c: CaseRecord, actor: Actor, target: Key) returns (refused: Option<Refusal>)
      requires Valid() && Holds(c)
      requires TransitionCase(View(), c.id, actor, target) != Err(NeverReturns)
      modifies this`approvals, this`log, c
      ensures Valid() && cases == old(cases)
      ensures match TransitionCase(old(View()), c.id, actor, target)
              case Ok(w) => refused == None && View() == w
              case Err(e) => refused == Some(e) && View() == old(View())
    {
      ghost var w := View();
      assert w.cases[c.id] == c.View();
      refused := CheckTransition(c, actor, target);
      if refused.Some? {
        return;
      }
      Enter(c, actor, StageOf(c.config, target).value, target);
    }

    /** What a transition does once nothing refuses it. */
    method Enter(c: CaseRecord, actor: Actor, stage: Stage, target: Key)
      requires Valid() && Holds(c) && StageOf(c.config, target) == Some(stage)
      requires !stage.terminal ==> Computable(c.config, stage.sla, clock)
      modifies this`approvals, this`log, c
      ensures Valid() && cases == old(cases)
      ensures View() == (var moved := Moved(old(View()), c.id, actor, stage, target, NextAssignee(old(View()), stage));
                         RequestAll(moved, c.id, Some(actor.id), stage.approvals))
    {
      MoveRow(c, actor, stage, target);
      CreateStageApprovals(c, Some(actor.id));
    }

    method MoveRow(c: CaseRecord, actor: Actor, stage: Stage, target: Key)
      requires Valid() && Holds(c)
      requires !stage.terminal ==> Computable(c.config, stage.sla, clock)
      modifies this`log, c
      ensures Valid() && cases == old(cases) && c.status == target
      ensures View() == Moved(old(View()), c.id, actor, stage, target, NextAssignee(old(View()), stage))
    {
      var due := None;
      if !stage.terminal {
        due := ComputeDeadline(c.config, stage.sla, clock);
      }
      var assignee := ChooseNext(stage);
      WriteMove(c, actor, stage, target, due, assignee);
    }

    method ChooseNext(stage: Stage) returns (assignee: Option<nat>)
      ensures assignee == NextAssignee(View(), stage)
    {
      assignee := None;
      if !stage.terminal {
        assignee := ChooseAssignee(stage.role, stage.skills);
      }
    }

    method WriteMove(c: CaseRecord, actor: Actor, stage: Stage, target: Key, due: Option<int>, assignee: Option<nat>)
      requires Valid() && Holds(c)
      requires !stage.terminal ==> due == Deadline(c.config, stage.sla, clock)
      modifies this`log, c
      ensures Valid() && cases == old(cases) && c.status == target
      ensures View() == Moved(old(View()), c.id, actor, stage, target, assignee)
    {
      ghost var w := View();
      assert w.cases[c.id] == c.View();
      var source := c.status;
      EnterStage(c, stage, target, due, assignee);
      Log(c.id, Some(actor.id), StatusChanged(source, target));
      assert View().cases == w.cases[c.id := c.View()];
      assert View().approvals == w.approvals;
    }

    method CheckTransition(c: CaseRecord, actor: Actor, target: Key) returns (refused: Option<Refusal>)
      requires Valid() && Holds(c)
      ensures refused == TransitionRefusal(View(), c.id, actor, target)
    {
      assert View().cases[c.id] == c.View();
      if c.completedAt.Some? {
        return Some(AlreadyTerminal);
      }
      var t := FindTransition(c.config.transitions, c.status, target);
      if t == None {
        return Some(NotConfigured);
      }
      if !ActorAllowed(actor, t.value.roles) {
        return Some(Forbidden);
      }
      if t.value.requiresApprovals {
        var rejected := AnyApproval(c.id, c.status, {Rejected});
        var pending := AnyApproval(c.id, c.status, {Pending, Rejected});
        if rejected {
          return Some(ApprovalWasRejected);
        }
        if pending {
          return Some(ApprovalIsPending);
        }
      }
      if t.value.requiresChildren {
        var blocked := IncompleteChild(c.id);
        if blocked {
          return Some(ChildrenIncomplete);
        }
      }
      if StageOf(c.config, target) == None {
        return Some(UnknownStage);
      }
      return None;
    }

    /** The assignments of transition_case to the row itself. */
    method EnterStage(c: CaseRecord, stage: Stage, target: Key, due: Option<int>, assignee: Option<nat>)
      requires !stage.terminal ==> due == Deadline(c.config, stage.sla, clock)
      modifies c
      ensures c.View() == Entered(old(c.View()), stage, target, assignee, clock)
    {
      Arrive(c, target);
      if stage.terminal {
        c.stageDue := None;
        c.completedAt := Some(clock);
        c.closedOnTime := Some(c.overallDue == None || clock <= c.overallDue.value);
      } else {
        c.stageDue := due;
      }
      c.assignee := assignee;
    }

    method Arrive(c: CaseRecord, target: Key)
      modifies c
      ensures c.View() == Arrived(old(c.View()), target, clock)
    {
      c.status := target;
      c.stageStartedAt := clock;
      c.level := 0;
      c.escalatedAt := None;
      c.warnedAt := None;
      c.pausedAt := None;
      c.pauseReason := "";
    }

    method DecideRow(k: nat, actor: Actor, decision: Decision) returns (refused: Option<Refusal>)
      requires Valid() && k < |approvals|
      modifies this`log, approvals[k]
      ensures Valid() && cases == old(cases) && approvals == old(approvals)
      ensures match DecideApproval(old(View()), k, actor, decision)
              case Ok(w) => refused == None && View() == w
              case Err(e) => refused == Some(e) && View() == old(View())
    {
      var row := approvals[k];
      ghost var w := View();
      assert w.approvals[k] == row.View();
      if row.status != Pending {
        return Some(AlreadyDecided);
      }
      if actor.role != ADMINISTRATOR && actor.role != row.role {
        return Some(Forbidden);
      }
      if decision == Pending {
        return Some(InvalidDecision);
      }
      row.status := decision;
      row.decidedBy := Some(actor.id);
      row.decidedAt := Some(clock);
      Log(row.caseId, Some(actor.id), ApprovalDecided(row.key, decision));
      assert View().approvals == w.approvals[k := row.View()];
      return None;
    }

    // -------------------------------------------------------------- timers

    method PauseRow(c: CaseRecord, actor: Actor, reason: string) returns (refused: Option<Refusal>)
      requires Valid() && Holds(c)
      modifies this`log, c
      ensures Valid() && cases == old(cases) && approvals == old(approvals)
      ensures match PauseSla(old(View()), c.id, actor, reason)
              case Ok(w) => refused == None && View() == w
              case Err(e) => refused == Some(e) && View() == old(View())
    {
      ghost var w := View();
      assert w.cases[c.id] == c.View();
      if !actor.managesSla {
        return Some(Forbidden);
      }
      if c.completedAt.Some? {
        return Some(AlreadyTerminal);
      }
      if c.pausedAt.Some? {
        return Some(AlreadyPaused);
      }
      var text := Rules.Cut(reason, 200);
      if text == "" {
        return Some(NoReason);
      }
      c.pausedAt := Some(clock);
      c.pauseReason := text;
      Log(c.id, Some(actor.id), SlaPaused(text));
      assert View().cases == w.cases[c.id := c.View()];
      return None;
    }

    method ResumeRow(c: CaseRecord, actor: Actor) returns (refused: Option<Refusal>)
      requires Valid() && Holds(c)
      modifies this`log, c
      ensures Valid() && cases == old(cases) && approvals == old(approvals)
      ensures match ResumeSla(old(View()), c.id, actor)
              case Ok(w) => refused == None && View() == w
              case Err(e) => refused == Some(e) && View() == old(View())
    {
      ghost var w := View();
      assert w.cases[c.id] == c.View();
      if !actor.managesSla {
        return Some(Forbidden);
      }
      if c.pausedAt == None {
        return Some(NotPaused);
      }
      var delta := clock - c.pausedAt.value;
      MoveTimers(c, delta);
      Log(c.id, Some(actor.id), SlaResumed(delta));
      assert View().cases == w.cases[c.id := c.View()];
      return None;
    }

    method MoveTimers(c: CaseRecord, delta: int)
      modifies c
      ensures c.View() == old(c.View()).(stageDue := Shift(old(c.stageDue), delta),
                                         overallDue := Shift(old(c.overallDue), delta),
                                         pausedAt := None, pauseReason := "")
    {
      if c.stageDue.Some? {
        c.stageDue := Some(c.stageDue.value + delta);
      }
      if c.overallDue.Some? {
        c.overallDue := Some(c.overallDue.value + delta);
      }
      c.pausedAt := None;
      c.pauseReason := "";
    }

    // -------------------------------------------------------------- the scan

    /** process_sla_escalations: visits every row and returns how many alerts it raised. */
    method ProcessSlaEscalations() returns (changes: nat)
      requires Valid()
      modifies this`log, cases
      ensures Valid() && cases == old(cases) && approvals == old(approvals)
      ensures View() == ScanUpTo(old(View()), |cases|)
      ensures |log| == |old(log)| + changes
    {
      ghost var w := View();
      changes := 0;
      for n := 0 to |cases|
        invariant Valid() && cases == old(cases) && approvals == old(approvals)
        invariant View() == ScanUpTo(w, n)
        invariant |log| == |old(log)| + changes
      {
        var raised := VisitRow(cases[n]);
        changes := changes + raised;
      }
    }

    method VisitRow(c: CaseRecord) returns (raised: nat)
      requires Valid() && Holds(c)
      modifies this`log, c
      ensures Valid() && cases == old(cases) && approvals == old(approvals)
      ensures View() == ScanOne(old(View()), c.id)
      ensures |log| == |old(log)| + raised
    {
      raised := 0;
      ghost var w := View();
      assert w.cases[c.id] == c.View();
      if c.completedAt.Some? || c.pausedAt.Some? || (c.stageDue == None && c.overallDue == None) {
        return;
      }
      var warned := WarnRow(c);
      var escalated := EscalateRow(c);
      raised := (if warned then 1 else 0) + (if escalated then 1 else 0);
    }

    method WarnRow(c: CaseRecord) returns (warned: bool)
      requires Valid() && Holds(c)
      modifies this`log, c
      ensures Valid() && cases == old(cases) && approvals == old(approvals)
      ensures View() == Warn(old(View()), c.id)
      ensures |log| == |old(log)| + (if warned then 1 else 0)
    {
      ghost var w := View();
      assert w.cases[c.id] == c.View();
      var stage := StageOf(c.config, c.status);
      if stage == None {
        return false;
      }
      var nearest := c.stageDue;
      if nearest == None || (c.overallDue.Some? && c.overallDue.value < nearest.value) {
        nearest := c.overallDue;
      }
      var window := WarningWindow(c.config, stage.value);
      if nearest == None || !(clock <= nearest.value) || c.warnedAt.Some? || !(nearest.value <= clock + window) {
        return false;
      }
      c.warnedAt := Some(clock);
      Log(c.id, None, SlaWarning(nearest.value));
      assert View().cases == w.cases[c.id := c.View()];
      return true;
    }

    method EscalateRow(c: CaseRecord) returns (escalated: bool)
      requires Valid() && Holds(c)
      modifies this`log, c
      ensures Valid() && cases == old(cases) && approvals == old(approvals)
      ensures View() == Escalate(old(View()), c.id)
      ensures |log| == |old(log)| + (if escalated then 1 else 0)
    {
      ghost var w := View();
      assert w.cases[c.id] == c.View();
      var level, overall := c.level, false;
      if c.overallDue.Some? && c.overallDue.value < clock && c.level < 2 {
        level, overall := 2, true;
      } else if c.stageDue.Some? && c.stageDue.value < clock && c.level < 1 {
        level := 1;
      }
      if level == c.level {
        return false;
      }
      var who := ChooseReplacement(c, level);
      Raise(c, level, overall, who);
      return true;
    }

    method Raise(c: CaseRecord, level: nat, overall: bool, who: Option<nat>)
      requires Valid() && Holds(c)
      modifies this`log, c
      ensures Valid() && cases == old(cases) && approvals == old(approvals)
      ensures View() == (var w := old(View());
                         var raised := w.cases[c.id].(level := level, escalatedAt := Some(w.clock), assignee := who);
                         w.(cases := w.cases[c.id := raised],
                            log := w.log + [Event(c.id, None, w.clock, SlaEscalated(level, overall))]))
    {
      ghost var w := View();
      assert w.cases[c.id] == c.View();
      c.level, c.escalatedAt, c.assignee := level, Some(clock), who;
      Log(c.id, None, SlaEscalated(level, overall));
      assert View().cases == w.cases[c.id := c.View()];
    }

    /** Whoever the configuration hands the case to at this level. */
    method ChooseReplacement(c: CaseRecord, level: nat) returns (who: Option<nat>)
      ensures who == Replacement(View(), c.View(), level)
    {
      who := ChooseAssignee(if level in c.config.reassign then c.config.reassign[level] else "", []);
      if who == None {
        who := c.assignee;
      }
    }

    // -------------------------------------------------------------- creation and relations

    method CreateCaseRow(config: Config, sets: map<Key, seq<Rules.Rule>>, ctx: Rules.Context,
                         priority: string, author: Option<nat>) returns (r: Result<CaseRecord, Refusal>)
      requires Valid()
      requires CreateCase(View(), config, sets, ctx, priority, author) != Err(NeverReturns)
      modifies this
      ensures Valid()
      ensures match CreateCase(old(View()), config, sets, ctx, priority, author)
              case Ok(w) => r.Ok? && Holds(r.value) && fresh(r.value) && View() == w
              case Err(e) => r == Err(e) && View() == old(View())
    {
      var defect := WorkflowGraph.Validate(config);
      if defect.Some? {
        return Err(InvalidConfiguration);
      }
      var outcome, matched := Rules.EvaluateRuleSets(config, sets, ctx, priority);
      var stage := StageOf(outcome.config, outcome.config.initial);
      if stage == None {
        return Err(UnknownStage);
      }
      var c := BeginRow(outcome, ctx.fields, stage.value, author);
      return Ok(c);
    }

    method BeginRow(outcome: Rules.Outcome, fields: map<Key, Json>, stage: Stage, author: Option<nat>)
      returns (c: CaseRecord)
      requires Valid() && StageOf(outcome.config, outcome.config.initial) == Some(stage)
      requires Computable(outcome.config, outcome.config.totalSla, clock)
      requires Computable(outcome.config, stage.sla, clock)
      modifies this
      ensures Valid() && Holds(c) && fresh(c)
      ensures View() == Begun(old(View()), outcome, fields, stage, author)
    {
      var role := if outcome.routeRole.Some? then outcome.routeRole.value else stage.role;
      var assignee := ChooseAssignee(role, stage.skills);
      c := OpenRow(outcome.config, fields, stage, assignee, author);
    }

    method OpenRow(cfg: Config, fields: map<Key, Json>, stage: Stage, assignee: Option<nat>, author: Option<nat>)
      returns (c: CaseRecord)
      requires Valid() && StageOf(cfg, cfg.initial) == Some(stage)
      requires Computable(cfg, cfg.totalSla, clock) && Computable(cfg, stage.sla, clock)
      modifies this
      ensures Valid() && Holds(c) && fresh(c)
      ensures View() == Opened(old(View()), cfg, fields, stage, assignee, author)
    {
      var overallDue := ComputeDeadline(cfg, cfg.totalSla, clock);
      var stageDue := ComputeDeadline(cfg, stage.sla, clock);
      c := InsertRow(cfg, fields, assignee, stageDue, overallDue, author);
      CreateStageApprovals(c, author);
    }

    method InsertRow(cfg: Config, fields: map<Key, Json>, assignee: Option<nat>, stageDue: Option<int>,
                     overallDue: Option<int>, author: Option<nat>) returns (c: CaseRecord)
      requires Valid()
      modifies this`cases, this`log
      ensures Valid() && Holds(c) && fresh(c) && c.config == cfg && c.status == cfg.initial && c.id == |old(cases)|
      ensures View() == (var w := old(View());
                         w.(cases := w.cases + [Case(cfg, fields, cfg.initial, assignee, w.clock, w.clock,
                                                     stageDue, overallDue, None, "", None, 0, None, None, None)],
                            log := w.log + [Event(|w.cases|, author, w.clock, CaseCreated)]))
    {
      ghost var w := View();
      c := new CaseRecord(|cases|, cfg, fields, assignee, clock, stageDue, overallDue);
      cases := cases + [c];
      Log(c.id, author, CaseCreated);
      assert View().cases == w.cases + [c.View()];
      assert View().approvals == w.approvals;
    }

    method CreateRelationRow(source: CaseRecord, target: CaseRecord, kind: RelationKind, actor: Actor)
      returns (refused: Option<Refusal>)
      requires Valid() && Holds(source) && Holds(target)
      modifies this`relations, this`log
      ensures Valid() && cases == old(cases) && approvals == old(approvals)
      ensures match CreateRelation(old(View()), source.id, target.id, kind, actor)
              case Ok(w) => refused == None && View() == w
              case Err(e) => refused == Some(e) && View() == old(View())
    {
      if source.id == target.id {
        return Some(SelfRelation);
      }
      if Relation(source.id, target.id, kind) in relations {
        return None;
      }
      ghost var w := View();
      relations := relations + [Relation(source.id, target.id, kind)];
      Log(source.id, Some(actor.id), CaseRelated(target.id, kind));
      Log(target.id, Some(actor.id), CaseRelated(source.id, kind));
      assert View().cases == w.cases && View().approvals == w.approvals;
      return None;
    }
  }
}
