/** What holds over whole runs of the lifecycle, from the empty database on and without
    snapshot migration. */
module LifecycleRuns {
  import opened Common
  import opened WorkflowModel
  import opened WorkflowGraph
  import opened Lifecycle
  import opened LifecycleInvariant
  import Rules

  /** Some run leads from the empty database to w. */
  ghost predicate Reachable(w: World) {
    exists ops :: w == Run(EMPTY, ops)
  }

  lemma ReachableIsGood(w: World)
    requires Reachable(w)
    ensures Inv(w)
  {
    var ops :| w == Run(EMPTY, ops);
    RunKeeps(EMPTY, ops);
  }

  // ---------------------------------------------------------------- what one step cannot do

  /** A completed case can still be given to somebody. */
  predicate SameButAssignee(c: Case, d: Case) {
    d == c.(assignee := d.assignee)
  }

  /** From w to r no case loses its captured snapshot, no decided approval changes, and a
      completed case does not change but for its assignee. */
  ghost predicate Lasting(w: World, r: World) {
    && |w.cases| <= |r.cases| && |w.approvals| <= |r.approvals|
    && (forall j :: 0 <= j < |w.cases| ==>
          && r.cases[j].config == w.cases[j].config
          && r.cases[j].fields == w.cases[j].fields
          && r.cases[j].createdAt == w.cases[j].createdAt
          && (w.cases[j].completedAt.Some? ==> SameButAssignee(w.cases[j], r.cases[j])))
    && (forall k :: 0 <= k < |w.approvals| ==>
          && IsRow(r.approvals[k], w.approvals[k].caseId, w.approvals[k].stage, w.approvals[k].key)
          && (w.approvals[k].status != Pending ==> r.approvals[k] == w.approvals[k]))
    && w.log <= r.log
  }

  lemma LastingTransitive(a: World, b: World, c: World)
    requires Lasting(a, b) && Lasting(b, c)
    ensures Lasting(a, c)
  {
    forall k | 0 <= k < |a.approvals|
      ensures IsRow(c.approvals[k], a.approvals[k].caseId, a.approvals[k].stage, a.approvals[k].key)
      ensures a.approvals[k].status != Pending ==> c.approvals[k] == a.approvals[k]
    {
      assert IsRow(c.approvals[k], b.approvals[k].caseId, b.approvals[k].stage, b.approvals[k].key);
    }
  }

  lemma {:induction false} RequestAllLasts(w: World, i: nat, author: Option<nat>, defs: seq<ApprovalDef>)
    requires i < |w.cases|
    ensures Lasting(w, RequestAll(w, i, author, defs))
  {
    if defs != [] {
      RequestAllLasts(w, i, author, defs[..|defs| - 1]);
      LastingTransitive(w, RequestAll(w, i, author, defs[..|defs| - 1]), RequestAll(w, i, author, defs));
    }
  }

  lemma ScanOneLasts(w: World, i: nat)
    requires i < |w.cases|
    ensures Lasting(w, ScanOne(w, i))
  {
    if Watched(w.cases[i]) {
      assert Lasting(w, Warn(w, i));
      assert Lasting(Warn(w, i), Escalate(Warn(w, i), i));
      LastingTransitive(w, Warn(w, i), Escalate(Warn(w, i), i));
    }
  }

  lemma {:induction false} ScanLasts(w: World, n: nat)
    requires n <= |w.cases|
    ensures Lasting(w, ScanUpTo(w, n))
  {
    if n > 0 {
      ScanLasts(w, n - 1);
      OneMoreLasts(w, ScanUpTo(w, n - 1), n - 1, ScanUpTo(w, n));
    }
  }

  lemma OneMoreLasts(w: World, m: World, i: nat, r: World)
    requires Lasting(w, m) && i < |m.cases| && r == ScanOne(m, i)
    ensures Lasting(w, r)
  {
    ScanOneLasts(m, i);
    LastingTransitive(w, m, r);
  }

  lemma TransitionLasts(w: World, i: nat, actor: Actor, target: Key)
    requires i < |w.cases| && TransitionCase(w, i, actor, target).Ok?
    ensures Lasting(w, TransitionCase(w, i, actor, target).value)
  {
    var c := w.cases[i];
    var stage := StageOf(c.config, target).value;
    var m := Touch(w, i, Entered(c, stage, target, NextAssignee(w, stage), w.clock),
                   Event(i, Some(actor.id), w.clock, StatusChanged(c.status, target)));
    assert Lasting(w, m);
    RequestAllLasts(m, i, Some(actor.id), stage.approvals);
    LastingTransitive(w, m, RequestAll(m, i, Some(actor.id), stage.approvals));
  }

  lemma CreateLasts(w: World, op: Operation)
    requires op.Create? && Perform(w, op).Ok?
    ensures Lasting(w, Perform(w, op).value)
  {
    var outcome := Rules.Evaluate(op.config, op.sets, op.ctx, op.priority);
    var stage := StageOf(outcome.config, outcome.config.initial).value;
    var role := if outcome.routeRole.Some? then outcome.routeRole.value else stage.role;
    OpenedLasts(w, outcome.config, op.ctx.fields, stage, Assignee(w, role, stage.skills), op.author);
  }

  lemma OpenedLasts(w: World, cfg: Config, fields: map<Key, Json>, stage: Stage, assignee: Option<nat>,
                    author: Option<nat>)
    ensures Lasting(w, Opened(w, cfg, fields, stage, assignee, author))
  {
    var i := |w.cases|;
    var m := w.(cases := w.cases + [NewCase(cfg, fields, stage, assignee, w.clock)],
                log := w.log + [Event(i, author, w.clock, CaseCreated)]);
    assert Lasting(w, m);
    RequestAllLasts(m, i, author, stage.approvals);
    LastingTransitive(w, m, RequestAll(m, i, author, stage.approvals));
  }

  lemma PerformLasts(w: World, op: Operation)
    requires Inv(w) && Perform(w, op).Ok?
    ensures Lasting(w, Perform(w, op).value)
  {
    match op
    case Create(_, _, _, _, _) => CreateLasts(w, op);
    case Transit(i, actor, target) => TransitionLasts(w, i, actor, target);
    case Scan => ScanLasts(w, |w.cases|);
    case Decide(k, actor, decision) => DecideLasts(w, k, actor, decision);
    case Pause(i, actor, reason) => PauseLasts(w, i, actor, reason);
    case Resume(i, actor) => ResumeLasts(w, i, actor);
    case Reassign(i, actor, assignee) => ReassignLasts(w, i, actor, assignee);
    case Staff(_) => StaffLasts(w, op);
    case _ => SmallStepsLast(w, op);
  }

  lemma DecideLasts(w: World, k: nat, actor: Actor, decision: Decision)
    requires k < |w.approvals| && DecideApproval(w, k, actor, decision).Ok?
    ensures Lasting(w, DecideApproval(w, k, actor, decision).value)
  {
  }

  lemma ReassignLasts(w: World, i: nat, actor: Actor, assignee: Option<nat>)
    requires i < |w.cases| && AssignCase(w, i, actor, assignee).Ok?
    ensures Lasting(w, AssignCase(w, i, actor, assignee).value)
  {
  }

  lemma StaffLasts(w: World, op: Operation)
    requires op.Staff? && Perform(w, op).Ok?
    ensures Lasting(w, Perform(w, op).value)
  {
  }

  lemma PauseLasts(w: World, i: nat, actor: Actor, reason: string)
    requires i < |w.cases| && PauseSla(w, i, actor, reason).Ok?
    ensures Lasting(w, PauseSla(w, i, actor, reason).value)
  {
  }

  lemma ResumeLasts(w: World, i: nat, actor: Actor)
    requires Inv(w) && i < |w.cases| && ResumeSla(w, i, actor).Ok?
    ensures Lasting(w, ResumeSla(w, i, actor).value)
  {
    assert Good(w, i);
  }

  lemma SmallStepsLast(w: World, op: Operation)
    requires Perform(w, op).Ok? && (op.Relate? || op.Record?)
    ensures Lasting(w, Perform(w, op).value)
  {
  }

  /** Along every run snapshots, decisions and completed cases last, and the log only grows. */
  lemma {:induction false} RunLasts(w: World, ops: seq<Timed>)
    requires Inv(w)
    ensures Lasting(w, Run(w, ops))
  {
    if ops != [] {
      var init, last := ops[..|ops| - 1], ops[|ops| - 1];
      RunLasts(w, init);
      RunKeeps(w, init);
      var m := Run(w, init);
      TickKeeps(m, last.wait);
      assert Lasting(m, Tick(m, last.wait));
      if Perform(Tick(m, last.wait), last.op).Ok? {
        PerformLasts(Tick(m, last.wait), last.op);
        LastingTransitive(m, Tick(m, last.wait), Next(m, last));
      }
      LastingTransitive(w, m, Next(m, last));
    }
  }

  // ---------------------------------------------------------------- gates

  /** Row k is the one row for this approval, and it is approved. */
  ghost predicate ApprovedOnce(rows: seq<Approval>, i: nat, stage: Key, key: Key, k: nat) {
    && k < |rows| && IsRow(rows[k], i, stage, key) && rows[k].status == Approved
    && forall n :: 0 <= n < |rows| && IsRow(rows[n], i, stage, key) ==> n == k
  }

  lemma OneRow(rows: seq<Approval>, a: nat, b: nat, i: nat, stage: Key, key: Key)
    requires UniqueRows(rows) && a < |rows| && b < |rows|
    requires IsRow(rows[a], i, stage, key) && IsRow(rows[b], i, stage, key)
    ensures a == b
  {
  }

  /** Whenever a case crosses a transition that requires approvals, every approval the
      snapshot asks for in the stage it leaves has exactly one row, and that row is Approved. */
  lemma ApprovalGate(w: World, wait: nat, i: nat, actor: Actor, target: Key, def: ApprovalDef) returns (k: nat)
    requires Reachable(w) && i < |w.cases| && TransitionCase(Tick(w, wait), i, actor, target).Ok?
    requires var c := w.cases[i];
      && FindTransition(c.config.transitions, c.status, target).value.requiresApprovals
      && StageOf(c.config, c.status).Some? && def in StageOf(c.config, c.status).value.approvals
      && ApprovalApplies(def, c.fields)
    ensures ApprovedOnce(w.approvals, i, w.cases[i].status, def.key, k)
  {
    ReachableIsGood(w);
    RowWasRequested(w, i, def);
    GateWasClear(Tick(w, wait), i, actor, target);
    k := ClearedRow(w.approvals, i, w.cases[i].status, def.key);
  }

  lemma RowWasRequested(w: World, i: nat, def: ApprovalDef)
    requires Inv(w) && i < |w.cases|
    requires var c := w.cases[i];
      && StageOf(c.config, c.status).Some? && def in StageOf(c.config, c.status).value.approvals
      && ApprovalApplies(def, c.fields)
    ensures HasRow(w.approvals, i, w.cases[i].status, def.key)
  {
    assert Good(w, i);
  }

  lemma GateWasClear(w: World, i: nat, actor: Actor, target: Key)
    requires i < |w.cases| && TransitionRefusal(w, i, actor, target) == None
    requires FindTransition(w.cases[i].config.transitions, w.cases[i].status, target).value.requiresApprovals
    ensures !SomeApproval(w.approvals, i, w.cases[i].status, {Pending, Rejected})
  {
  }

  lemma ClearedRow(rows: seq<Approval>, i: nat, stage: Key, key: Key) returns (k: nat)
    requires UniqueRows(rows) && HasRow(rows, i, stage, key) && !SomeApproval(rows, i, stage, {Pending, Rejected})
    ensures ApprovedOnce(rows, i, stage, key, k)
  {
    k :| 0 <= k < |rows| && IsRow(rows[k], i, stage, key);
    assert rows[k].status !in {Pending, Rejected};
    forall n | 0 <= n < |rows| && IsRow(rows[n], i, stage, key) ensures n == k {
      OneRow(rows, n, k, i, stage, key);
    }
  }

  /** Whenever a case crosses a transition that requires complete children, every child linked
      at that moment is complete. */
  lemma ChildrenAreComplete(w: World, wait: nat, i: nat, actor: Actor, target: Key, child: nat)
    requires Reachable(w) && i < |w.cases| && TransitionCase(Tick(w, wait), i, actor, target).Ok?
    requires FindTransition(w.cases[i].config.transitions, w.cases[i].status, target).value.requiresChildren
    requires Relation(i, child, ParentChild) in w.relations
    ensures child < |w.cases| && w.cases[child].completedAt.Some?
  {
    ReachableIsGood(w);
    assert !HasIncompleteChild(Tick(w, wait), i);
    assert !IsIncompleteChild(Tick(w, wait), i, Relation(i, child, ParentChild));
  }

  /** And stays exactly as it is for the rest of the run. */
  lemma ChildrenGate(w: World, wait: nat, i: nat, actor: Actor, target: Key, child: nat, more: seq<Timed>)
    requires Reachable(w) && i < |w.cases| && TransitionCase(Tick(w, wait), i, actor, target).Ok?
    requires FindTransition(w.cases[i].config.transitions, w.cases[i].status, target).value.requiresChildren
    requires Relation(i, child, ParentChild) in w.relations
    ensures var r := Run(Next(w, Timed(wait, Transit(i, actor, target))), more);
      && child < |w.cases| && child < |r.cases| && w.cases[child].completedAt.Some?
      && SameButAssignee(w.cases[child], r.cases[child])
  {
    ReachableIsGood(w);
    ChildrenAreComplete(w, wait, i, actor, target, child);
    CompletedIsForEver(w, [Timed(wait, Transit(i, actor, target))], child);
    RunOneMore(w, [], Timed(wait, Transit(i, actor, target)));
    assert [] + [Timed(wait, Transit(i, actor, target))] == [Timed(wait, Transit(i, actor, target))];
    NextKeeps(w, Timed(wait, Transit(i, actor, target)));
    CompletedIsForEver(Next(w, Timed(wait, Transit(i, actor, target))), more, child);
  }

  /** A completed case never changes again but for its assignee. */
  lemma CompletedIsForEver(w: World, ops: seq<Timed>, j: nat)
    requires Inv(w) && j < |w.cases| && w.cases[j].completedAt.Some?
    ensures j < |Run(w, ops).cases| && SameButAssignee(w.cases[j], Run(w, ops).cases[j])
  {
    RunLasts(w, ops);
  }

  /** Once an approval of a (case, stage) is rejected, no later step of any run takes a
      transition out of that stage that requires approvals. */
  lemma RejectionIsPermanent(w: World, k: nat, more: seq<Timed>, wait: nat, actor: Actor, target: Key)
    requires Reachable(w) && k < |w.approvals| && w.approvals[k].status == Rejected
    ensures var a, r := w.approvals[k], Tick(Run(w, more), wait);
      && a.caseId < |r.cases|
      && (r.cases[a.caseId].status == a.stage
          && FindTransition(r.cases[a.caseId].config.transitions, a.stage, target).Some?
          && FindTransition(r.cases[a.caseId].config.transitions, a.stage, target).value.requiresApprovals
          ==> TransitionCase(r, a.caseId, actor, target).Err?)
  {
    ReachableIsGood(w);
    RunLasts(w, more);
    var r := Run(w, more);
    assert r.approvals[k] == w.approvals[k];
    assert r.cases[w.approvals[k].caseId].status == w.approvals[k].stage ==>
        SomeApproval(r.approvals, w.approvals[k].caseId, w.approvals[k].stage, {Rejected});
  }
}
