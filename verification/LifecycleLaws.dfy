/** What each operation promises, stated on the columns of the rows and on numbers: who may do
    it, what it leaves in the row it is about, and what it leaves alone. */
module LifecycleLaws {
  import opened Common
  import opened WorkflowModel
  import opened WorkflowGraph
  import opened Lifecycle
  import opened LifecycleInvariant
  import opened LifecycleRuns
  import Calendar
  import ServiceHours
  import Rules

  /** One more event about one case. */
  ghost predicate Logs(w: World, r: World, caseId: nat, actor: Option<nat>, kind: Kind) {
    r.log == w.log + [Event(caseId, actor, r.clock, kind)]
  }

  ghost predicate SameApprovals(w: World, r: World) {
    r.approvals == w.approvals
  }

  /** No row but that of case i has changed. */
  ghost predicate OnlyCase(w: World, r: World, i: nat) {
    && |r.cases| == |w.cases| && r.relations == w.relations && r.roster == w.roster
    && forall j :: 0 <= j < |w.cases| && j != i ==> r.cases[j] == w.cases[j]
  }

  /** A refused operation changes nothing. */
  lemma RefusalLeaves(w: World, t: Timed)
    requires Perform(w.(clock := w.clock + t.wait), t.op).Err?
    ensures Next(w, t) == w.(clock := w.clock + t.wait)
  {
  }

  // ---------------------------------------------------------------- deciding

  /** A decision is accepted from an administrator or the role asked for, once, and only as one
      of the two. */
  lemma DecisionAcceptedIff(w: World, k: nat, actor: Actor, decision: Decision)
    ensures Perform(w, Decide(k, actor, decision)).Ok? <==>
      && k < |w.approvals| && w.approvals[k].status == Pending
      && (actor.role == "Administrator" || actor.role == w.approvals[k].role)
      && (decision == Approved || decision == Rejected)
  {
  }

  /** It is recorded as it was made, with who made it and when, and nothing else changes. */
  lemma DecisionIsRecorded(w: World, wait: nat, k: nat, actor: Actor, decision: Decision)
    requires Reachable(w) && Perform(Tick(w, wait), Decide(k, actor, decision)).Ok?
    ensures var r := Next(w, Timed(wait, Decide(k, actor, decision)));
      && k < |w.approvals| && |r.approvals| == |w.approvals|
      && r.clock == w.clock + wait
      && r.approvals[k].status == decision
      && r.approvals[k].decidedBy == Some(actor.id) && r.approvals[k].decidedAt == Some(r.clock)
      && IsRow(r.approvals[k], w.approvals[k].caseId, w.approvals[k].stage, w.approvals[k].key)
      && r.approvals[k].role == w.approvals[k].role
      && (forall n :: 0 <= n < |w.approvals| && n != k ==> r.approvals[n] == w.approvals[n])
      && r.cases == w.cases && r.relations == w.relations && r.roster == w.roster
      && Logs(w, r, w.approvals[k].caseId, Some(actor.id), ApprovalDecided(w.approvals[k].key, decision))
  {
  }

  lemma ReachableGoesOn(w: World, t: Timed)
    requires Reachable(w)
    ensures Reachable(Next(w, t))
  {
    var ops :| w == Run(EMPTY, ops);
    RunOneMore(EMPTY, ops, t);
  }

  /** From the decision on: once somebody has rejected an approval, no continuation of the run
      ever takes a transition that requires approvals out of that stage of that case. */
  lemma RejectionCloses(w: World, wait: nat, k: nat, actor: Actor, more: seq<Timed>, later: nat, mover: Actor,
                        target: Key)
    requires Reachable(w) && Perform(Tick(w, wait), Decide(k, actor, Rejected)).Ok?
    ensures var a, r := w.approvals[k], Tick(Run(Next(w, Timed(wait, Decide(k, actor, Rejected))), more), later);
      && a.caseId < |r.cases|
      && (r.cases[a.caseId].status == a.stage
          && FindTransition(r.cases[a.caseId].config.transitions, a.stage, target).Some?
          && FindTransition(r.cases[a.caseId].config.transitions, a.stage, target).value.requiresApprovals
          ==> Perform(r, Transit(a.caseId, mover, target)).Err?)
  {
    DecisionIsRecorded(w, wait, k, actor, Rejected);
    ReachableGoesOn(w, Timed(wait, Decide(k, actor, Rejected)));
    RejectionIsPermanent(Next(w, Timed(wait, Decide(k, actor, Rejected))), k, more, later, mover, target);
  }

  // ---------------------------------------------------------------- moving

  /** The deadline promised for h from s on: none for no hours, plain elapsed time without a
      calendar, and otherwise the end of the h-th open millisecond. */
  ghost predicate Promised(cfg: Config, h: int, s: int, due: Option<int>) {
    if h <= 0 then due == None
    else due.Some? && match cfg.calendar
      case None => due.value == s + h
      case Some(cal) => Calendar.IsDue(cal, s, h, due.value)
  }

  lemma DeadlineIsPromised(cfg: Config, h: int, s: int)
    requires Computable(cfg, h, s)
    ensures Promised(cfg, h, s, Deadline(cfg, h, s))
  {
    if h > 0 && cfg.calendar.Some? {
      var cal := cfg.calendar.value;
      ServiceHours.FinishesIffCanServe(cal, s, h);
      var n: nat :| ServiceHours.Iterate(cal, s, h, n).Due?;
      ServiceHours.ReturnsTheDueInstant(cal, s, h, n);
    }
  }

  ghost predicate AllApproved(rows: seq<Approval>, i: nat, stage: Key) {
    forall k :: 0 <= k < |rows| && rows[k].caseId == i && rows[k].stage == stage ==> rows[k].status == Approved
  }

  ghost predicate ChildrenComplete(w: World, i: nat) {
    forall r :: r in w.relations && r.source == i && r.kind == ParentChild && r.target < |w.cases| ==>
      w.cases[r.target].completedAt.Some?
  }

  /** A transition is accepted exactly when the case is open, the transition configured, the
      actor an administrator or in one of its roles, every approval of the stage left approved
      and every child complete where the transition asks for it, and the next deadline can be
      computed. */
  lemma TransitionAcceptedIff(w: World, i: nat, actor: Actor, target: Key)
    requires Reachable(w) && i < |w.cases|
    ensures var c := w.cases[i];
      var t := FindTransition(c.config.transitions, c.status, target);
      var stage := StageOf(c.config, target);
      Perform(w, Transit(i, actor, target)).Ok? <==>
      && c.completedAt == None && t.Some?
      && (actor.role == "Administrator" || actor.role in t.value.roles)
      && (t.value.requiresApprovals ==> AllApproved(w.approvals, i, c.status))
      && (t.value.requiresChildren ==> ChildrenComplete(w, i))
      && (stage.Some? && !stage.value.terminal ==> Computable(c.config, stage.value.sla, w.clock))
  {
    ReachableIsGood(w);
    CaseIsSound(w, i);
    var c := w.cases[i];
    if FindTransition(c.config.transitions, c.status, target).Some? {
      TargetExists(c.config, c.status, target);
    }
    ChildrenByRelation(w, i);
    ApprovalsByStatus(w.approvals, i, c.status);
  }

  lemma CaseIsSound(w: World, i: nat)
    requires Inv(w) && i < |w.cases|
    ensures Sound(w.cases[i].config)
  {
    assert Good(w, i);
  }

  lemma TargetExists(cfg: Config, source: Key, target: Key)
    requires Sound(cfg) && FindTransition(cfg.transitions, source, target).Some?
    ensures StageOf(cfg, target).Some?
  {
    assert TransitionFits(cfg, FindTransition(cfg.transitions, source, target).value);
  }

  lemma ChildrenByRelation(w: World, i: nat)
    ensures HasIncompleteChild(w, i) <==> !ChildrenComplete(w, i)
  {
    if r :| r in w.relations && r.source == i && r.kind == ParentChild && r.target < |w.cases|
            && w.cases[r.target].completedAt == None {
      assert IsIncompleteChild(w, i, r);
    }
  }

  lemma ApprovalsByStatus(rows: seq<Approval>, i: nat, stage: Key)
    ensures SomeApproval(rows, i, stage, {Rejected}) || SomeApproval(rows, i, stage, {Pending, Rejected})
       <==> !AllApproved(rows, i, stage)
  {
    if k :| 0 <= k < |rows| && rows[k].caseId == i && rows[k].stage == stage && rows[k].status != Approved {
      assert rows[k].status in {Pending, Rejected};
    }
  }

  /** The row of a case that has just entered a stage. */
  ghost predicate JustEntered(c: Case, d: Case, stage: Stage, target: Key, now: int) {
    && d.config == c.config && d.fields == c.fields && d.createdAt == c.createdAt && d.overallDue == c.overallDue
    && d.status == target && d.stageStartedAt == now
    && d.level == 0 && d.escalatedAt == None && d.warnedAt == None && d.pausedAt == None && d.pauseReason == ""
    && if stage.terminal then
         && d.completedAt == Some(now) && d.stageDue == None
         && d.closedOnTime == Some(c.overallDue.Some? ==> now <= c.overallDue.value)
       else
         && d.completedAt == c.completedAt && d.closedOnTime == c.closedOnTime
         && Promised(c.config, stage.sla, now, d.stageDue)
  }

  lemma TransitionLeaves(w: World, wait: nat, i: nat, actor: Actor, target: Key)
    requires i < |w.cases| && Perform(Tick(w, wait), Transit(i, actor, target)).Ok?
    ensures var r := Next(w, Timed(wait, Transit(i, actor, target)));
      && OnlyCase(w, r, i) && r.clock == w.clock + wait
      && StageOf(w.cases[i].config, target).Some?
      && JustEntered(w.cases[i], r.cases[i], StageOf(w.cases[i].config, target).value, target, r.clock)
      && w.approvals <= r.approvals
      && w.log + [Event(i, Some(actor.id), r.clock, StatusChanged(w.cases[i].status, target))] <= r.log
  {
    var m := Tick(w, wait);
    var c := w.cases[i];
    var stage := StageOf(c.config, target).value;
    var moved := Moved(m, i, actor, stage, target, NextAssignee(m, stage));
    RequestsAreExact(moved, i, Some(actor.id), stage.approvals);
    if !stage.terminal {
      DeadlineIsPromised(c.config, stage.sla, m.clock);
    }
  }

  // ---------------------------------------------------------------- creating

  /** The row of a new case. */
  ghost predicate JustCreated(d: Case, cfg: Config, fields: map<Key, Json>, stage: Stage, now: int) {
    && d.config == cfg && d.fields == fields && d.status == cfg.initial
    && d.createdAt == now && d.stageStartedAt == now
    && Promised(cfg, stage.sla, now, d.stageDue) && Promised(cfg, cfg.totalSla, now, d.overallDue)
    && d.level == 0 && d.escalatedAt == None && d.warnedAt == None && d.pausedAt == None && d.pauseReason == ""
    && d.completedAt == None && d.closedOnTime == None
  }

  lemma CreationLeaves(w: World, wait: nat, op: Operation)
    requires op.Create? && Perform(Tick(w, wait), op).Ok?
    ensures var r := Next(w, Timed(wait, op));
      var cfg := Rules.Evaluate(op.config, op.sets, op.ctx, op.priority).config;
      && Acceptable(op.config) && StageOf(cfg, cfg.initial).Some?
      && |r.cases| == |w.cases| + 1 && r.cases[..|w.cases|] == w.cases
      && r.relations == w.relations && r.roster == w.roster && r.clock == w.clock + wait
      && JustCreated(r.cases[|w.cases|], cfg, op.ctx.fields, StageOf(cfg, cfg.initial).value, r.clock)
      && w.approvals <= r.approvals
      && w.log + [Event(|w.cases|, op.author, r.clock, CaseCreated)] <= r.log
  {
    var m := Tick(w, wait);
    var outcome := Rules.Evaluate(op.config, op.sets, op.ctx, op.priority);
    var cfg := outcome.config;
    var stage := StageOf(cfg, cfg.initial).value;
    var role := if outcome.routeRole.Some? then outcome.routeRole.value else stage.role;
    OpeningLeaves(m, cfg, op.ctx.fields, stage, Assignee(m, role, stage.skills), op.author);
  }

  lemma OpeningLeaves(m: World, cfg: Config, fields: map<Key, Json>, stage: Stage, assignee: Option<nat>,
                      author: Option<nat>)
    requires Computable(cfg, cfg.totalSla, m.clock) && Computable(cfg, stage.sla, m.clock)
    ensures var r := Opened(m, cfg, fields, stage, assignee, author);
      && |r.cases| == |m.cases| + 1 && r.cases[..|m.cases|] == m.cases
      && r.relations == m.relations && r.roster == m.roster && r.clock == m.clock
      && JustCreated(r.cases[|m.cases|], cfg, fields, stage, r.clock)
      && m.approvals <= r.approvals
      && m.log + [Event(|m.cases|, author, r.clock, CaseCreated)] <= r.log
  {
    var c := NewCase(cfg, fields, stage, assignee, m.clock);
    var added := m.(cases := m.cases + [c], log := m.log + [Event(|m.cases|, author, m.clock, CaseCreated)]);
    RequestsAreExact(added, |m.cases|, author, stage.approvals);
    DeadlineIsPromised(cfg, stage.sla, m.clock);
    DeadlineIsPromised(cfg, cfg.totalSla, m.clock);
  }

  // ---------------------------------------------------------------- requesting approvals

  /** A fresh row for a definition that applies and had none. */
  ghost predicate FreshRequest(w: World, i: nat, defs: seq<ApprovalDef>, a: Approval)
    requires i < |w.cases|
  {
    var c := w.cases[i];
    exists d :: d in defs && ApprovalApplies(d, c.fields)
      && a == Approval(i, c.status, d.key, d.role, Pending, None, None)
      && forall k :: 0 <= k < |w.approvals| ==> !IsRow(w.approvals[k], i, c.status, d.key)
  }

  /** Requesting approvals adds fresh requests and nothing else, and logs each. */
  lemma {:induction false} RequestsAreExact(w: World, i: nat, author: Option<nat>, defs: seq<ApprovalDef>)
    requires i < |w.cases|
    ensures var r := RequestAll(w, i, author, defs);
      && w.approvals <= r.approvals && w.log <= r.log
      && |r.log| - |w.log| == |r.approvals| - |w.approvals|
      && (forall k :: |w.approvals| <= k < |r.approvals| ==>
            && FreshRequest(w, i, defs, r.approvals[k])
            && r.log[|w.log| + (k - |w.approvals|)]
               == Event(i, author, w.clock, ApprovalRequested(r.approvals[k].key)))
  {
    if defs != [] {
      var init, last := defs[..|defs| - 1], defs[|defs| - 1];
      RequestsAreExact(w, i, author, init);
      var m := RequestAll(w, i, author, init);
      var r := RequestOne(m, i, author, last);
      assert defs == init + [last];
      forall k | |w.approvals| <= k < |r.approvals| ensures FreshRequest(w, i, defs, r.approvals[k]) {
        if k < |m.approvals| {
          StillFresh(w, i, init, last, m.approvals[k]);
        } else {
          NotThereBefore(w, m, i, last.key);
          assert last in defs;
        }
      }
    }
  }

  lemma StillFresh(w: World, i: nat, init: seq<ApprovalDef>, last: ApprovalDef, a: Approval)
    requires i < |w.cases| && FreshRequest(w, i, init, a)
    ensures FreshRequest(w, i, init + [last], a)
  {
    var c := w.cases[i];
    var d :| d in init && ApprovalApplies(d, c.fields)
      && a == Approval(i, c.status, d.key, d.role, Pending, None, None)
      && forall k :: 0 <= k < |w.approvals| ==> !IsRow(w.approvals[k], i, c.status, d.key);
    assert d in init + [last];
  }

  lemma NotThereBefore(w: World, m: World, i: nat, key: Key)
    requires i < |w.cases| && w.approvals <= m.approvals && !HasRow(m.approvals, i, w.cases[i].status, key)
    ensures forall k :: 0 <= k < |w.approvals| ==> !IsRow(w.approvals[k], i, w.cases[i].status, key)
  {
    forall k | 0 <= k < |w.approvals| ensures !IsRow(w.approvals[k], i, w.cases[i].status, key) {
      assert m.approvals[k] == w.approvals[k];
    }
  }

  // ---------------------------------------------------------------- timers

  lemma PauseAcceptedIff(w: World, i: nat, actor: Actor, reason: string)
    ensures Perform(w, Pause(i, actor, reason)).Ok? <==>
      i < |w.cases| && actor.managesSla && w.cases[i].completedAt == None && w.cases[i].pausedAt == None && reason != ""
  {
  }

  /** A pause leaves its moment and the first 200 characters of its reason, and both deadlines. */
  lemma PauseLeaves(w: World, wait: nat, i: nat, actor: Actor, reason: string)
    requires Perform(Tick(w, wait), Pause(i, actor, reason)).Ok?
    ensures var r := Next(w, Timed(wait, Pause(i, actor, reason)));
      && i < |w.cases| && OnlyCase(w, r, i) && SameApprovals(w, r) && r.clock == w.clock + wait
      && r.cases[i] == w.cases[i].(pausedAt := Some(r.clock), pauseReason := r.cases[i].pauseReason)
      && r.cases[i].pauseReason <= reason
      && |r.cases[i].pauseReason| == (if |reason| < 200 then |reason| else 200)
      && Logs(w, r, i, Some(actor.id), SlaPaused(r.cases[i].pauseReason))
  {
  }

  lemma ResumeAcceptedIff(w: World, i: nat, actor: Actor)
    ensures Perform(w, Resume(i, actor)).Ok? <==> i < |w.cases| && actor.managesSla && w.cases[i].pausedAt.Some?
  {
  }

  /** A resume moves both deadlines later by the length of the pause. */
  lemma ResumeLeaves(w: World, wait: nat, i: nat, actor: Actor)
    requires Perform(Tick(w, wait), Resume(i, actor)).Ok?
    ensures var r := Next(w, Timed(wait, Resume(i, actor)));
      && i < |w.cases| && w.cases[i].pausedAt.Some? && OnlyCase(w, r, i) && SameApprovals(w, r)
      && r.clock == w.clock + wait
      && var c, d, paused := w.cases[i], r.cases[i], r.clock - w.cases[i].pausedAt.value;
         && d == c.(stageDue := d.stageDue, overallDue := d.overallDue, pausedAt := None, pauseReason := "")
         && (d.stageDue.Some? <==> c.stageDue.Some?) && (d.overallDue.Some? <==> c.overallDue.Some?)
         && (c.stageDue.Some? ==> d.stageDue.value == c.stageDue.value + paused)
         && (c.overallDue.Some? ==> d.overallDue.value == c.overallDue.value + paused)
         && Logs(w, r, i, Some(actor.id), SlaResumed(paused))
  {
  }

  // ---------------------------------------------------------------- relating and assigning

  /** Relating is refused only for a case and itself; it is done once. */
  lemma RelationLeaves(w: World, wait: nat, parent: nat, child: nat, kind: RelationKind, actor: Actor)
    requires parent < |w.cases| && child < |w.cases|
    ensures var t := Timed(wait, Relate(parent, child, kind, actor));
      && (Perform(Tick(w, wait), t.op).Ok? <==> parent != child)
      && var r := Next(w, t);
         && r.cases == w.cases && SameApprovals(w, r) && r.roster == w.roster && r.clock == w.clock + wait
         && if parent == child || Relation(parent, child, kind) in w.relations then
              r.relations == w.relations && r.log == w.log
            else
              && r.relations == w.relations + [Relation(parent, child, kind)]
              && r.log == w.log + [Event(parent, Some(actor.id), r.clock, CaseRelated(child, kind)),
                                   Event(child, Some(actor.id), r.clock, CaseRelated(parent, kind))]
  {
  }

  /** Relations are never taken back. */
  lemma StepKeepsRelations(w: World, t: Timed)
    ensures w.relations <= Next(w, t).relations
  {
    if t.op.Scan? {
      ScanKeepsRelations(Tick(w, t.wait), |w.cases|);
    }
  }

  lemma {:induction false} ScanKeepsRelations(w: World, n: nat)
    requires n <= |w.cases|
    ensures ScanUpTo(w, n).relations == w.relations
  {
    if n > 0 {
      ScanKeepsRelations(w, n - 1);
    }
  }

  lemma {:induction false} RunKeepsRelations(w: World, ops: seq<Timed>)
    ensures w.relations <= Run(w, ops).relations
  {
    if ops != [] {
      RunKeepsRelations(w, ops[..|ops| - 1]);
      StepKeepsRelations(Run(w, ops[..|ops| - 1]), ops[|ops| - 1]);
    }
  }

  lemma {:induction false} ReachableRunGoesOn(w: World, ops: seq<Timed>)
    requires Reachable(w)
    ensures Reachable(Run(w, ops))
  {
    if ops != [] {
      ReachableRunGoesOn(w, ops[..|ops| - 1]);
      ReachableGoesOn(Run(w, ops[..|ops| - 1]), ops[|ops| - 1]);
    }
  }

  /** Once a child is linked, in no continuation of the run does the parent take a transition
      that waits for children before that child is complete. */
  lemma LinkedChildHoldsParent(w: World, wait: nat, parent: nat, child: nat, clerk: Actor,
                               more: seq<Timed>, later: nat, actor: Actor, target: Key)
    requires Reachable(w) && Perform(Tick(w, wait), Relate(parent, child, ParentChild, clerk)).Ok?
    ensures var r := Run(Next(w, Timed(wait, Relate(parent, child, ParentChild, clerk))), more);
      && parent < |r.cases| && child < |r.cases|
      && (TransitionCase(Tick(r, later), parent, actor, target).Ok?
          && FindTransition(r.cases[parent].config.transitions, r.cases[parent].status, target).value.requiresChildren
          ==> r.cases[child].completedAt.Some?)
  {
    var t := Timed(wait, Relate(parent, child, ParentChild, clerk));
    var m := Next(w, t);
    RelationLeaves(w, wait, parent, child, ParentChild, clerk);
    ReachableGoesOn(w, t);
    ReachableIsGood(m);
    RunLasts(m, more);
    RunKeepsRelations(m, more);
    ReachableRunGoesOn(m, more);
    var r := Run(m, more);
    assert Relation(parent, child, ParentChild) in m.relations;
    if TransitionCase(Tick(r, later), parent, actor, target).Ok?
       && FindTransition(r.cases[parent].config.transitions, r.cases[parent].status, target).value.requiresChildren {
      ChildrenAreComplete(r, later, parent, actor, target, child);
    }
  }

  /** Assigning, changing the roster and recording do what they say and no more. */
  lemma SmallOperationsLeave(w: World, wait: nat, op: Operation)
    requires op.Reassign? || op.Staff? || op.Record?
    ensures var m, r := Tick(w, wait), Next(w, Timed(wait, op));
      match op
      case Reassign(i, actor, assignee) =>
        if i < |w.cases| && actor.assigns then
          && OnlyCase(w, r, i) && SameApprovals(w, r) && r.clock == m.clock
          && r.cases[i] == w.cases[i].(assignee := assignee)
          && Logs(w, r, i, Some(actor.id), AssignmentChanged(assignee))
        else r == m
      case Staff(roster) =>
        r == m.(roster := r.roster)
        && (r.roster == roster || (r.roster == w.roster && exists a, b ::
              0 <= a < b < |roster.users| && roster.users[a].id == roster.users[b].id))
      case Record(i, actor, what) =>
        if i < |w.cases| then r == m.(log := r.log) && Logs(w, r, i, Some(actor.id), Recorded(what)) else r == m
      case _ => true
  {
  }
}
