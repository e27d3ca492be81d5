/** The case lifecycle as a state machine: every operation of
    app/services/workflow_engine.py:484-922 as a step from one world to the next.
    A refused operation leaves the world as it was. */
module Lifecycle {
  import opened Common
  import opened WorkflowModel
  import opened WorkflowGraph
  import Calendar
  import ServiceHours
  import Assignment
  import Rules

  datatype Decision = Pending | Approved | Rejected

  datatype Approval = Approval(caseId: nat, stage: Key, key: Key, role: string, status: Decision,
                               decidedBy: Option<nat>, decidedAt: Option<int>)

  datatype Case = Case(config: Config, fields: map<Key, Json>, status: Key, assignee: Option<nat>,
                       createdAt: int, stageStartedAt: int,
                       stageDue: Option<int>, overallDue: Option<int>,
                       pausedAt: Option<int>, pauseReason: string, warnedAt: Option<int>,
                       level: nat, escalatedAt: Option<int>,
                       completedAt: Option<int>, closedOnTime: Option<bool>)

  datatype RelationKind = ParentChild | Related | Duplicate | Blocks

  datatype Relation = Relation(source: nat, target: nat, kind: RelationKind)

  datatype Kind =
    | CaseCreated
    | StatusChanged(source: Key, target: Key)
    | ApprovalRequested(key: Key)
    | ApprovalDecided(key: Key, decision: Decision)
    | SlaPaused(reason: string)
    | SlaResumed(paused: int)
    | SlaWarning(due: int)
    | SlaEscalated(level: nat, overall: bool)
    | CaseRelated(other: nat, kind: RelationKind)
    | AssignmentChanged(assignee: Option<nat>)
    | Recorded(what: string)

  datatype Event = Event(caseId: nat, actor: Option<nat>, at: int, kind: Kind)

  /** The tables an operation sees, and the last clock reading. */
  datatype World = World(clock: int, cases: seq<Case>, approvals: seq<Approval>,
                         relations: seq<Relation>, log: seq<Event>, roster: Assignment.Roster)

  const EMPTY := World(0, [], [], [], [], Assignment.Roster([], map[]))

  /** A user acting, with what the role tables say they may do. */
  datatype Actor = Actor(id: nat, role: string, managesSla: bool, assigns: bool)

  const ADMINISTRATOR := "Administrator"

  datatype Refusal =
    | NoSuchRow
    | InvalidConfiguration
    | AlreadyTerminal
    | NotConfigured
    | Forbidden
    | ApprovalWasRejected
    | ApprovalIsPending
    | ChildrenIncomplete
    | UnknownStage
    | AlreadyDecided
    | InvalidDecision
    | AlreadyPaused
    | NotPaused
    | NoReason
    | SelfRelation
    | DuplicateUser
    | NeverReturns

  datatype Operation =
    | Create(config: Config, sets: map<Key, seq<Rules.Rule>>, ctx: Rules.Context, priority: string, author: Option<nat>)
    | Transit(id: nat, actor: Actor, target: Key)
    | Decide(row: nat, actor: Actor, decision: Decision)
    | Pause(id: nat, actor: Actor, reason: string)
    | Resume(id: nat, actor: Actor)
    | Scan
    | Relate(parent: nat, child: nat, kind: RelationKind, actor: Actor)
    | Reassign(id: nat, actor: Actor, assignee: Option<nat>)
    | Staff(roster: Assignment.Roster)
    | Record(id: nat, actor: Actor, what: string)

  // ---------------------------------------------------------------- deadlines

  /** add_service_hours returns for this request. */
  ghost predicate Computable(cfg: Config, h: int, s: int) {
    h > 0 && cfg.calendar.Some? ==>
      Calendar.WellFormed(cfg.calendar.value) && ServiceHours.CanServe(cfg.calendar.value, s, h)
  }

  /** What add_service_hours returns: nothing for no hours, plain elapsed time without a
      calendar, and otherwise the due instant of the business calendar. */
  ghost function Deadline(cfg: Config, h: int, s: int): Option<int> {
    if h <= 0 then None
    else if cfg.calendar == None then Some(s + h)
    else if due :| Calendar.IsDue(cfg.calendar.value, s, h, due) then Some(due)
    else None
  }

  // ---------------------------------------------------------------- approvals

  predicate IsRow(a: Approval, i: nat, stage: Key, key: Key) {
    a.caseId == i && a.stage == stage && a.key == key
  }

  predicate HasRow(rows: seq<Approval>, i: nat, stage: Key, key: Key) {
    exists k :: 0 <= k < |rows| && IsRow(rows[k], i, stage, key)
  }

  /** One iteration of create_stage_approvals. */
  function RequestOne(w: World, i: nat, author: Option<nat>, def: ApprovalDef): World
    requires i < |w.cases|
  {
    var c := w.cases[i];
    if !ApprovalApplies(def, c.fields) || HasRow(w.approvals, i, c.status, def.key) then w
    else w.(approvals := w.approvals + [Approval(i, c.status, def.key, def.role, Pending, None, None)],
            log := w.log + [Event(i, author, w.clock, ApprovalRequested(def.key))])
  }

  function RequestAll(w: World, i: nat, author: Option<nat>, defs: seq<ApprovalDef>): (r: World)
    requires i < |w.cases|
    ensures r.cases == w.cases && r.relations == w.relations && r.clock == w.clock && r.roster == w.roster
  {
    if defs == [] then w
    else RequestOne(RequestAll(w, i, author, defs[..|defs| - 1]), i, author, defs[|defs| - 1])
  }

  // ---------------------------------------------------------------- assignment

  /** Open cases by assignee. */
  function OpenLoads(cases: seq<Case>): Assignment.Loads {
    if cases == [] then map[]
    else
      var loads, c := OpenLoads(cases[..|cases| - 1]), cases[|cases| - 1];
      if c.completedAt.Some? || c.assignee == None then loads
      else loads[c.assignee.value := (if c.assignee.value in loads then loads[c.assignee.value] else 0) + 1]
  }

  /** Skills as the query compares them: blank ones do not count. */
  function RequiredSkills(skills: seq<string>): set<string> {
    set s | s in skills && !Blank(s)
  }

  function Assignee(w: World, role: string, skills: seq<string>): Option<nat> {
    var u := Assignment.SelectAssignee(w.roster, role, RequiredSkills(skills), OpenLoads(w.cases));
    if u == None then None else Some(u.value.id)
  }

  /** Who a case entering this stage is given to. */
  function NextAssignee(w: World, stage: Stage): Option<nat> {
    if stage.terminal then None else Assignee(w, stage.role, stage.skills)
  }

  // ---------------------------------------------------------------- operations

  /** The row a new case starts as. */
  ghost function NewCase(cfg: Config, fields: map<Key, Json>, stage: Stage, assignee: Option<nat>, now: int): Case {
    Case(cfg, fields, cfg.initial, assignee, now, now, Deadline(cfg, stage.sla, now), Deadline(cfg, cfg.totalSla, now),
         None, "", None, 0, None, None, None)
  }

  ghost function Opened(w: World, cfg: Config, fields: map<Key, Json>, stage: Stage, assignee: Option<nat>,
                        author: Option<nat>): World
  {
    var i := |w.cases|;
    RequestAll(w.(cases := w.cases + [NewCase(cfg, fields, stage, assignee, w.clock)],
                  log := w.log + [Event(i, author, w.clock, CaseCreated)]),
               i, author, stage.approvals)
  }

  /** A new case, given what the rules made of its configuration. */
  ghost function Begun(w: World, outcome: Rules.Outcome, fields: map<Key, Json>, stage: Stage,
                       author: Option<nat>): World
  {
    var role := if outcome.routeRole.Some? then outcome.routeRole.value else stage.role;
    Opened(w, outcome.config, fields, stage, Assignee(w, role, stage.skills), author)
  }

  ghost function CreateCase(w: World, config: Config, sets: map<Key, seq<Rules.Rule>>, ctx: Rules.Context,
                            priority: string, author: Option<nat>): Result<World, Refusal>
  {
    if !Acceptable(config) then Err(InvalidConfiguration)
    else
      var outcome := Rules.Evaluate(config, sets, ctx, priority);
      var cfg := outcome.config;
      var stage := StageOf(cfg, cfg.initial);
      if stage == None then Err(UnknownStage)
      else if !Computable(cfg, cfg.totalSla, w.clock) || !Computable(cfg, stage.value.sla, w.clock) then
        Err(NeverReturns)
      else Ok(Begun(w, outcome, ctx.fields, stage.value, author))
  }

  predicate ActorAllowed(actor: Actor, roles: seq<string>) {
    actor.role == ADMINISTRATOR || actor.role in roles
  }

  predicate SomeApproval(rows: seq<Approval>, i: nat, stage: Key, wanted: set<Decision>) {
    exists k :: 0 <= k < |rows| && rows[k].caseId == i && rows[k].stage == stage && rows[k].status in wanted
  }

  predicate IsIncompleteChild(w: World, i: nat, r: Relation) {
    r.source == i && r.kind == ParentChild && r.target < |w.cases| && w.cases[r.target].completedAt == None
  }

  predicate HasIncompleteChild(w: World, i: nat) {
    exists r :: r in w.relations && IsIncompleteChild(w, i, r)
  }

  /** The refusals of transition_case, in the order it checks them. */
  function TransitionRefusal(w: World, i: nat, actor: Actor, target: Key): Option<Refusal>
    requires i < |w.cases|
  {
    var c := w.cases[i];
    var t := FindTransition(c.config.transitions, c.status, target);
    if c.completedAt.Some? then Some(AlreadyTerminal)
    else if t == None then Some(NotConfigured)
    else if !ActorAllowed(actor, t.value.roles) then Some(Forbidden)
    else if t.value.requiresApprovals && SomeApproval(w.approvals, i, c.status, {Rejected}) then
      Some(ApprovalWasRejected)
    else if t.value.requiresApprovals && SomeApproval(w.approvals, i, c.status, {Pending, Rejected}) then
      Some(ApprovalIsPending)
    else if t.value.requiresChildren && HasIncompleteChild(w, i) then Some(ChildrenIncomplete)
    else if StageOf(c.config, target) == None then Some(UnknownStage)
    else None
  }

  /** The row with nothing left of the stage it was in. */
  function Arrived(c: Case, target: Key, now: int): Case {
    c.(status := target, stageStartedAt := now, level := 0, escalatedAt := None, warnedAt := None,
       pausedAt := None, pauseReason := "")
  }

  /** The row after the case has entered a stage. */
  ghost function Entered(c: Case, stage: Stage, target: Key, assignee: Option<nat>, now: int): Case {
    var d := Arrived(c, target, now);
    if stage.terminal then
      d.(stageDue := None, completedAt := Some(now), assignee := assignee,
         closedOnTime := Some(c.overallDue == None || now <= c.overallDue.value))
    else d.(stageDue := Deadline(c.config, stage.sla, now), assignee := assignee)
  }

  /** The case in its new stage, before the approvals of that stage are requested. */
  ghost function Moved(w: World, i: nat, actor: Actor, stage: Stage, target: Key, assignee: Option<nat>): World
    requires i < |w.cases|
  {
    var c := w.cases[i];
    w.(cases := w.cases[i := Entered(c, stage, target, assignee, w.clock)],
       log := w.log + [Event(i, Some(actor.id), w.clock, StatusChanged(c.status, target))])
  }

  ghost function TransitionCase(w: World, i: nat, actor: Actor, target: Key): Result<World, Refusal>
    requires i < |w.cases|
  {
    var refusal := TransitionRefusal(w, i, actor, target);
    if refusal.Some? then Err(refusal.value)
    else
      var c := w.cases[i];
      var stage := StageOf(c.config, target).value;
      if !stage.terminal && !Computable(c.config, stage.sla, w.clock) then Err(NeverReturns)
      else
        Ok(RequestAll(Moved(w, i, actor, stage, target, NextAssignee(w, stage)), i, Some(actor.id), stage.approvals))
  }

  function DecideApproval(w: World, k: nat, actor: Actor, decision: Decision): Result<World, Refusal>
    requires k < |w.approvals|
  {
    var a := w.approvals[k];
    if a.status != Pending then Err(AlreadyDecided)
    else if actor.role != ADMINISTRATOR && actor.role != a.role then Err(Forbidden)
    else if decision == Pending then Err(InvalidDecision)
    else
      var decided := a.(status := decision, decidedBy := Some(actor.id), decidedAt := Some(w.clock));
      Ok(w.(approvals := w.approvals[k := decided],
            log := w.log + [Event(a.caseId, Some(actor.id), w.clock, ApprovalDecided(a.key, decision))]))
  }

  function PauseSla(w: World, i: nat, actor: Actor, reason: string): Result<World, Refusal>
    requires i < |w.cases|
  {
    var c := w.cases[i];
    if !actor.managesSla then Err(Forbidden)
    else if c.completedAt.Some? then Err(AlreadyTerminal)
    else if c.pausedAt.Some? then Err(AlreadyPaused)
    else if reason == "" then Err(NoReason)
    else Ok(w.(cases := w.cases[i := c.(pausedAt := Some(w.clock), pauseReason := Rules.Cut(reason, 200))],
               log := w.log + [Event(i, Some(actor.id), w.clock, SlaPaused(Rules.Cut(reason, 200)))]))
  }

  function Shift(due: Option<int>, delta: int): Option<int> {
    if due == None then None else Some(due.value + delta)
  }

  /** The row after a resume that ends a pause of this length. */
  function ResumedRow(c: Case, delta: int): Case {
    c.(stageDue := Shift(c.stageDue, delta), overallDue := Shift(c.overallDue, delta),
       pausedAt := None, pauseReason := "")
  }

  function ResumeSla(w: World, i: nat, actor: Actor): Result<World, Refusal>
    requires i < |w.cases|
  {
    var c := w.cases[i];
    if !actor.managesSla then Err(Forbidden)
    else if c.pausedAt == None then Err(NotPaused)
    else
      var delta := w.clock - c.pausedAt.value;
      Ok(w.(cases := w.cases[i := ResumedRow(c, delta)],
            log := w.log + [Event(i, Some(actor.id), w.clock, SlaResumed(delta))]))
  }

  // ---------------------------------------------------------------- the escalation scan

  predicate Watched(c: Case) {
    c.completedAt == None && c.pausedAt == None && (c.stageDue.Some? || c.overallDue.Some?)
  }

  function Nearest(c: Case): Option<int> {
    if c.stageDue == None then c.overallDue
    else if c.overallDue == None || c.stageDue.value <= c.overallDue.value then c.stageDue
    else c.overallDue
  }

  predicate WarningDue(c: Case, stage: Stage, now: int) {
    && c.warnedAt == None && Nearest(c).Some?
    && now <= Nearest(c).value <= now + WarningWindow(c.config, stage)
  }

  predicate Overdue(due: Option<int>, now: int) {
    due.Some? && due.value < now
  }

  /** The level the scan raises the case to: 2 past the overall deadline, else 1 past the
      stage deadline, and never back. */
  function RaisedLevel(c: Case, now: int): nat {
    if Overdue(c.overallDue, now) && c.level < 2 then 2
    else if Overdue(c.stageDue, now) && c.level < 1 then 1
    else c.level
  }

  function Warn(w: World, i: nat): World
    requires i < |w.cases|
  {
    var c := w.cases[i];
    var stage := StageOf(c.config, c.status);
    if stage.Some? && WarningDue(c, stage.value, w.clock) then
      w.(cases := w.cases[i := c.(warnedAt := Some(w.clock))],
         log := w.log + [Event(i, None, w.clock, SlaWarning(Nearest(c).value))])
    else w
  }

  /** Who has the case once it is escalated to this level. */
  function Replacement(w: World, c: Case, level: nat): Option<nat> {
    var other := Assignee(w, if level in c.config.reassign then c.config.reassign[level] else "", []);
    if other.Some? then other else c.assignee
  }

  function Escalate(w: World, i: nat): World
    requires i < |w.cases|
  {
    var c := w.cases[i];
    var level := RaisedLevel(c, w.clock);
    if level == c.level then w
    else
      var overall := Overdue(c.overallDue, w.clock) && c.level < 2;
      w.(cases := w.cases[i := c.(level := level, escalatedAt := Some(w.clock), assignee := Replacement(w, c, level))],
         log := w.log + [Event(i, None, w.clock, SlaEscalated(level, overall))])
  }

  function ScanOne(w: World, i: nat): (r: World)
    requires i < |w.cases|
    ensures |r.cases| == |w.cases| && r.clock == w.clock
  {
    if Watched(w.cases[i]) then Escalate(Warn(w, i), i) else w
  }

  function ScanUpTo(w: World, n: nat): (r: World)
    requires n <= |w.cases|
    ensures |r.cases| == |w.cases| && r.clock == w.clock
  {
    if n == 0 then w else ScanOne(ScanUpTo(w, n - 1), n - 1)
  }

  // ---------------------------------------------------------------- relations and the rest

  function CreateRelation(w: World, source: nat, target: nat, kind: RelationKind, actor: Actor): Result<World, Refusal>
    requires source < |w.cases| && target < |w.cases|
  {
    if source == target then Err(SelfRelation)
    else if Relation(source, target, kind) in w.relations then Ok(w)
    else Ok(w.(relations := w.relations + [Relation(source, target, kind)],
               log := w.log + [Event(source, Some(actor.id), w.clock, CaseRelated(target, kind)),
                               Event(target, Some(actor.id), w.clock, CaseRelated(source, kind))]))
  }

  /** assign_case: open or complete, to anybody or nobody. */
  function AssignCase(w: World, i: nat, actor: Actor, assignee: Option<nat>): Result<World, Refusal>
    requires i < |w.cases|
  {
    if !actor.assigns then Err(Forbidden)
    else Ok(w.(cases := w.cases[i := w.cases[i].(assignee := assignee)],
               log := w.log + [Event(i, Some(actor.id), w.clock, AssignmentChanged(assignee))]))
  }

  /** One operation at the world's clock. */
  ghost function Perform(w: World, op: Operation): Result<World, Refusal> {
    match op
    case Create(config, sets, ctx, priority, author) => CreateCase(w, config, sets, ctx, priority, author)
    case Transit(i, actor, target) => if i < |w.cases| then TransitionCase(w, i, actor, target) else Err(NoSuchRow)
    case Decide(k, actor, decision) =>
      if k < |w.approvals| then DecideApproval(w, k, actor, decision) else Err(NoSuchRow)
    case Pause(i, actor, reason) => if i < |w.cases| then PauseSla(w, i, actor, reason) else Err(NoSuchRow)
    case Resume(i, actor) => if i < |w.cases| then ResumeSla(w, i, actor) else Err(NoSuchRow)
    case Scan => Ok(ScanUpTo(w, |w.cases|))
    case Relate(s, t, kind, actor) =>
      if s < |w.cases| && t < |w.cases| then CreateRelation(w, s, t, kind, actor) else Err(NoSuchRow)
    case Reassign(i, actor, assignee) => if i < |w.cases| then AssignCase(w, i, actor, assignee) else Err(NoSuchRow)
    case Staff(roster) =>
      if Assignment.DistinctIds(roster.users) then Ok(w.(roster := roster)) else Err(DuplicateUser)
    case Record(i, actor, what) =>
      if i >= |w.cases| then Err(NoSuchRow)
      else Ok(w.(log := w.log + [Event(i, Some(actor.id), w.clock, Recorded(what))]))
  }

  /** An operation and how long after the previous one its clock is read. */
  datatype Timed = Timed(wait: nat, op: Operation)

  ghost function Tick(w: World, wait: nat): World {
    w.(clock := w.clock + wait)
  }

  ghost function Next(w: World, t: Timed): World {
    var r := Perform(Tick(w, t.wait), t.op);
    if r.Ok? then r.value else Tick(w, t.wait)
  }

  ghost function Run(w: World, ops: seq<Timed>): World {
    if ops == [] then w else Next(Run(w, ops[..|ops| - 1]), ops[|ops| - 1])
  }

  lemma RunOneMore(w: World, ops: seq<Timed>, last: Timed)
    ensures Run(w, ops + [last]) == Next(Run(w, ops), last)
  {
    assert (ops + [last])[..|ops|] == ops;
  }

  lemma {:induction false} RunAppends(w: World, a: seq<Timed>, b: seq<Timed>)
    ensures Run(w, a + b) == Run(Run(w, a), b)
  {
    if b == [] {
      assert a + b == a;
    } else {
      var init, last := b[..|b| - 1], b[|b| - 1];
      RunAppends(w, a, init);
      assert (a + b)[..|a + b| - 1] == a + init && (a + b)[|a + b| - 1] == last;
    }
  }
}
