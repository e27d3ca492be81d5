/** Progress: what validation promises about running cases. */
module Progress {
  import opened Common
  import opened WorkflowModel
  import opened WorkflowGraph
  import opened Lifecycle
  import opened LifecycleInvariant
  import opened LifecycleRuns
  import Calendar
  import ServiceHours

  /** Every stage deadline can be computed for a stage entered now. */
  ghost predicate DeadlinesComputable(cfg: Config, now: int) {
    forall n :: 0 <= n < |cfg.stages| && !cfg.stages[n].terminal ==> Computable(cfg, cfg.stages[n].sla, now)
  }

  /** It is enough that the calendar opens before it closes and has fewer than 52 holidays. */
  lemma OrdinaryCalendarsCompute(cfg: Config, now: int)
    requires cfg.calendar.Some? ==>
      var cal := cfg.calendar.value; Calendar.WellFormed(cal) && cal.start < cal.end && |cal.holidays| < 52
    ensures DeadlinesComputable(cfg, now)
  {
    if cfg.calendar.Some? {
      forall n | 0 <= n < |cfg.stages| ensures Computable(cfg, cfg.stages[n].sla, now) {
        ServiceHours.FewHolidaysAlwaysServe(cfg.calendar.value, now, cfg.stages[n].sla);
      }
    }
  }

  ghost predicate NoneRejected(w: World, i: nat) {
    forall k :: 0 <= k < |w.approvals| && w.approvals[k].caseId == i ==> w.approvals[k].status != Rejected
  }

  /** An open case that nothing but pending approvals can hold up. */
  ghost predicate Unblocked(w: World, i: nat) {
    && i < |w.cases| && w.cases[i].completedAt == None
    && NoneRejected(w, i) && !HasIncompleteChild(w, i)
    && DeadlinesComputable(w.cases[i].config, w.clock)
  }

  function Transits(ops: seq<Timed>): nat {
    if ops == [] then 0 else Transits(ops[..|ops| - 1]) + (if ops[|ops| - 1].op.Transit? then 1 else 0)
  }

  lemma {:induction false} TransitsAdd(a: seq<Timed>, b: seq<Timed>)
    ensures Transits(a + b) == Transits(a) + Transits(b)
  {
    if b == [] {
      assert a + b == a;
    } else {
      TransitsAdd(a, b[..|b| - 1]);
      assert (a + b)[..|a + b| - 1] == a + b[..|b| - 1];
    }
  }

  predicate IsAdministrator(actor: Actor) {
    actor.role == ADMINISTRATOR
  }

  /** An approval or a transition of case i by this administrator, at once. */
  predicate ByHand(t: Timed, i: nat, admin: Actor) {
    t.wait == 0 &&
    match t.op
    case Decide(_, actor, decision) => actor == admin && decision == Approved
    case Transit(id, actor, _) => id == i && actor == admin
    case _ => false
  }

  predicate AllByHand(ops: seq<Timed>, i: nat, admin: Actor) {
    forall n :: 0 <= n < |ops| ==> ByHand(ops[n], i, admin)
  }

  /** From w to r no other case and none of its approvals has changed, and no time has passed. */
  ghost predicate OnlyThisCase(w: World, r: World, i: nat) {
    && r.clock == w.clock && |r.cases| == |w.cases| && |w.approvals| <= |r.approvals|
    && (forall j :: 0 <= j < |w.cases| && j != i ==> r.cases[j] == w.cases[j])
    && (forall k :: 0 <= k < |w.approvals| ==>
          r.approvals[k].caseId == w.approvals[k].caseId
          && (w.approvals[k].caseId != i ==> r.approvals[k] == w.approvals[k]))
  }

  lemma OnlyThisCaseTransitive(a: World, b: World, c: World, i: nat)
    requires OnlyThisCase(a, b, i) && OnlyThisCase(b, c, i)
    ensures OnlyThisCase(a, c, i)
  {
    forall k | 0 <= k < |a.approvals|
      ensures c.approvals[k].caseId == a.approvals[k].caseId
      ensures a.approvals[k].caseId != i ==> c.approvals[k] == a.approvals[k]
    {
      assert b.approvals[k].caseId == a.approvals[k].caseId;
    }
  }

  // ---------------------------------------------------------------- deciding what is pending

  /** Row b is row a, approved if it was a pending one of this case and stage. */
  ghost predicate Cleared(a: Approval, b: Approval, i: nat, stage: Key) {
    if a.caseId == i && a.stage == stage && a.status == Pending then
      IsRow(b, i, stage, a.key) && b.status == Approved
    else b == a
  }

  lemma AdministratorApproves(w: World, k: nat, admin: Actor)
    requires k < |w.approvals| && w.approvals[k].status == Pending && IsAdministrator(admin)
    ensures var r := Next(w, Timed(0, Decide(k, admin, Approved)));
      var a := w.approvals[k];
      && r.cases == w.cases && r.relations == w.relations && r.clock == w.clock
      && |r.approvals| == |w.approvals|
      && IsRow(r.approvals[k], a.caseId, a.stage, a.key) && r.approvals[k].status == Approved
      && forall n :: 0 <= n < |w.approvals| && n != k ==> r.approvals[n] == w.approvals[n]
  {
  }

  lemma {:induction false} ClearApprovals(w: World, i: nat, admin: Actor, n: nat) returns (ops: seq<Timed>)
    requires i < |w.cases| && n <= |w.approvals| && IsAdministrator(admin)
    ensures AllByHand(ops, i, admin) && Transits(ops) == 0
    ensures ClearedUpTo(w, Run(w, ops), i, n)
  {
    if n == 0 {
      ops := [];
    } else {
      ops := ClearApprovals(w, i, admin, n - 1);
      var a := w.approvals[n - 1];
      if a.caseId == i && a.stage == w.cases[i].status && a.status == Pending {
        ops := ClearOneMore(w, i, admin, n - 1, ops);
      }
    }
  }

  /** r is w with the first n approvals cleared. */
  ghost predicate ClearedUpTo(w: World, r: World, i: nat, n: nat)
    requires i < |w.cases| && n <= |w.approvals|
  {
    && r.cases == w.cases && r.relations == w.relations && r.clock == w.clock
    && |r.approvals| == |w.approvals|
    && (forall k :: 0 <= k < n ==> Cleared(w.approvals[k], r.approvals[k], i, w.cases[i].status))
    && (forall k :: n <= k < |w.approvals| ==> r.approvals[k] == w.approvals[k])
  }

  lemma ClearOneMore(w: World, i: nat, admin: Actor, k: nat, init: seq<Timed>) returns (ops: seq<Timed>)
    requires i < |w.cases| && k < |w.approvals| && IsAdministrator(admin)
    requires AllByHand(init, i, admin) && Transits(init) == 0 && ClearedUpTo(w, Run(w, init), i, k)
    requires w.approvals[k].caseId == i && w.approvals[k].stage == w.cases[i].status && w.approvals[k].status == Pending
    ensures AllByHand(ops, i, admin) && Transits(ops) == 0
    ensures ClearedUpTo(w, Run(w, ops), i, k + 1)
  {
    var t := Timed(0, Decide(k, admin, Approved));
    var m := Run(w, init);
    AdministratorApproves(m, k, admin);
    OneMoreCleared(w, m, Next(m, t), i, k);
    RunOneMore(w, init, t);
    ops := init + [t];
    assert ops[..|init|] == init;
  }

  lemma OneMoreCleared(w: World, m: World, r: World, i: nat, k: nat)
    requires i < |w.cases| && k < |w.approvals| && ClearedUpTo(w, m, i, k)
    requires r.cases == m.cases && r.relations == m.relations && r.clock == m.clock && |r.approvals| == |m.approvals|
    requires IsRow(r.approvals[k], i, w.cases[i].status, w.approvals[k].key) && r.approvals[k].status == Approved
    requires w.approvals[k].caseId == i && w.approvals[k].stage == w.cases[i].status && w.approvals[k].status == Pending
    requires forall n :: 0 <= n < |m.approvals| && n != k ==> r.approvals[n] == m.approvals[n]
    ensures ClearedUpTo(w, r, i, k + 1)
  {
  }

  // ---------------------------------------------------------------- one transition

  lemma StagesAgree(cfg: Config, k: Key)
    requires DistinctStages(cfg)
    ensures IsStage(cfg, k) <==> StageOf(cfg, k).Some?
    ensures StageOf(cfg, k).Some? ==>
              StageOf(cfg, k).value in cfg.stages && (IsTerminal(cfg, k) <==> StageOf(cfg, k).value.terminal)
  {
  }

  /** With the approvals of its stage cleared nothing refuses an administrator a configured
      transition of an unblocked case. */
  lemma NothingRefuses(w: World, i: nat, admin: Actor, target: Key)
    requires Inv(w) && Unblocked(w, i) && IsAdministrator(admin)
    requires !SomeApproval(w.approvals, i, w.cases[i].status, {Pending, Rejected})
    requires Edge(w.cases[i].config.transitions, w.cases[i].status, target)
    ensures TransitionCase(w, i, admin, target).Ok?
  {
    assert Good(w, i);
    var c := w.cases[i];
    EdgesStayInside(c.config);
    StagesAgree(c.config, target);
    assert !SomeApproval(w.approvals, i, c.status, {Rejected});
    assert TransitionRefusal(w, i, admin, target) == None;
  }

  /** And the case stays unblocked unless the transition completes it. */
  lemma Cross(w: World, i: nat, admin: Actor, target: Key)
    requires Inv(w) && Unblocked(w, i) && IsAdministrator(admin)
    requires !SomeApproval(w.approvals, i, w.cases[i].status, {Pending, Rejected})
    requires Edge(w.cases[i].config.transitions, w.cases[i].status, target)
    ensures TransitionCase(w, i, admin, target).Ok?
    ensures Advanced(w, TransitionCase(w, i, admin, target).value, i, target)
  {
    NothingRefuses(w, i, admin, target);
    TransitionKeeps(w, i, admin, target);
    StaysUnblocked(w, i, admin, target);
  }

  /** From w to r case i has moved on to this stage, and is complete or still unblocked. */
  ghost predicate Advanced(w: World, r: World, i: nat, target: Key) {
    && i < |w.cases| && Inv(r) && OnlyThisCase(w, r, i)
    && r.cases[i].status == target && r.cases[i].config == w.cases[i].config
    && (r.cases[i].completedAt.Some? || Unblocked(r, i))
  }

  lemma StaysUnblocked(w: World, i: nat, admin: Actor, target: Key)
    requires Inv(w) && Unblocked(w, i) && TransitionCase(w, i, admin, target).Ok?
    ensures var r := TransitionCase(w, i, admin, target).value;
      && OnlyThisCase(w, r, i)
      && r.cases[i].status == target && r.cases[i].config == w.cases[i].config
      && (r.cases[i].completedAt.Some? || Unblocked(r, i))
  {
    var c := w.cases[i];
    var stage := StageOf(c.config, target).value;
    var d := Entered(c, stage, target, NextAssignee(w, stage), w.clock);
    var e := Event(i, Some(admin.id), w.clock, StatusChanged(c.status, target));
    var m := Touch(w, i, d, e);
    var r := RequestAll(m, i, Some(admin.id), stage.approvals);
    TouchKeepsOthers(w, i, d, e);
    RequestAllEffect(m, i, Some(admin.id), stage.approvals);
    ChildrenStayComplete(w, r, i);
  }

  lemma ChildrenStayComplete(w: World, r: World, i: nat)
    requires References(w) && !HasIncompleteChild(w, i) && r.relations == w.relations
    requires |r.cases| == |w.cases| && forall j :: 0 <= j < |w.cases| && j != i ==> r.cases[j] == w.cases[j]
    ensures !HasIncompleteChild(r, i)
  {
    forall x | x in r.relations ensures !IsIncompleteChild(r, i, x) {
      assert !IsIncompleteChild(w, i, x);
    }
  }

  /** Clear the stage, then cross. */
  lemma Advance(w: World, i: nat, admin: Actor, target: Key) returns (ops: seq<Timed>)
    requires Inv(w) && Unblocked(w, i) && IsAdministrator(admin)
    requires Edge(w.cases[i].config.transitions, w.cases[i].status, target)
    ensures AllByHand(ops, i, admin) && Transits(ops) == 1
    ensures Advanced(w, Run(w, ops), i, target)
  {
    var clear := ClearApprovals(w, i, admin, |w.approvals|);
    var m := Run(w, clear);
    RunKeeps(w, clear);
    ClearedStage(w, m, i);
    ChildrenStayComplete(w, m, i);
    Cross(m, i, admin, target);
    OnlyThisCaseTransitive(w, m, TransitionCase(m, i, admin, target).value, i);
    var t := Timed(0, Transit(i, admin, target));
    ops := clear + [t];
    RunOneMore(w, clear, t);
    assert Tick(m, 0) == m;
    TransitsAdd(clear, [t]);
    assert Transits([t]) == Transits([]) + 1;
  }

  lemma ClearedStage(w: World, m: World, i: nat)
    requires Unblocked(w, i) && ClearedUpTo(w, m, i, |w.approvals|)
    ensures NoneRejected(m, i) && !SomeApproval(m.approvals, i, m.cases[i].status, {Pending, Rejected})
    ensures OnlyThisCase(w, m, i)
  {
    forall k | 0 <= k < |m.approvals|
      ensures m.approvals[k].caseId == w.approvals[k].caseId
      ensures w.approvals[k].caseId != i ==> m.approvals[k] == w.approvals[k]
      ensures m.approvals[k].caseId == i ==> m.approvals[k].status != Rejected
      ensures m.approvals[k].caseId == i && m.approvals[k].stage == m.cases[i].status ==>
                m.approvals[k].status == Approved
    {
      assert Cleared(w.approvals[k], m.approvals[k], i, w.cases[i].status);
    }
  }

  // ---------------------------------------------------------------- to the end

  lemma {:induction false} FollowPath(w: World, i: nat, admin: Actor, p: seq<Key>) returns (ops: seq<Timed>)
    requires Inv(w) && Unblocked(w, i) && IsAdministrator(admin)
    requires IsPath(w.cases[i].config.transitions, p) && p[0] == w.cases[i].status
    requires IsTerminal(w.cases[i].config, p[|p| - 1])
    ensures AllByHand(ops, i, admin) && Transits(ops) <= |p| - 1
    ensures OnlyThisCase(w, Run(w, ops), i) && Run(w, ops).cases[i].completedAt.Some?
    decreases |p|
  {
    var cfg := w.cases[i].config;
    OpenStageIsNotTerminal(w, i);
    assert |p| > 1;
    assert Edge(cfg.transitions, p[1 - 1], p[1]);
    ops := Advance(w, i, admin, p[1]);
    var r := Run(w, ops);
    if r.cases[i].completedAt == None {
      TailIsPath(cfg.transitions, p);
      var more := FollowPath(r, i, admin, p[1..]);
      RunAppends(w, ops, more);
      OnlyThisCaseTransitive(w, r, Run(r, more), i);
      TransitsAdd(ops, more);
      ops := ops + more;
    }
  }

  lemma OpenStageIsNotTerminal(w: World, i: nat)
    requires Inv(w) && i < |w.cases| && w.cases[i].completedAt == None
    ensures !IsTerminal(w.cases[i].config, w.cases[i].status)
    ensures IsStage(w.cases[i].config, w.cases[i].status) && Sound(w.cases[i].config)
  {
    assert Good(w, i);
    StagesAgree(w.cases[i].config, w.cases[i].status);
  }

  lemma TailIsPath(ts: seq<Transition>, p: seq<Key>)
    requires IsPath(ts, p) && |p| > 1
    ensures IsPath(ts, p[1..])
  {
    forall n | 0 < n < |p[1..]| ensures Edge(ts, p[1..][n - 1], p[1..][n]) {
      assert Edge(ts, p[n + 1 - 1], p[n + 1]);
    }
  }

  /** From every reachable world an administrator alone can complete an open case that has no
      rejected approval and no incomplete child: by deciding its approvals and moving it, at
      once, with at most |stages| - 1 transitions, and touching no other case. */
  lemma CanBeCompleted(w: World, i: nat, admin: Actor) returns (ops: seq<Timed>)
    requires Reachable(w) && Unblocked(w, i) && IsAdministrator(admin)
    ensures AllByHand(ops, i, admin)
    ensures Transits(ops) <= |w.cases[i].config.stages| - 1
    ensures OnlyThisCase(w, Run(w, ops), i) && Run(w, ops).cases[i].completedAt.Some?
  {
    ReachableIsGood(w);
    OpenStageIsNotTerminal(w, i);
    var p := ShortWayOut(w.cases[i].config, w.cases[i].status);
    ops := FollowPath(w, i, admin, p);
  }
}
