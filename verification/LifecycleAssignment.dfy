/** Who a case is given to along a run: the engine's own choices are the least loaded by the
    cases that are open at that moment. */
module LifecycleAssignment {
  import opened Common
  import opened WorkflowModel
  import opened WorkflowGraph
  import opened Assignment
  import opened Lifecycle
  import opened LifecycleInvariant
  import opened LifecycleRuns
  import Rules

  /** The open cases of a user. */
  function OpenCasesOf(cases: seq<Case>, id: nat): set<nat> {
    set i: nat | i < |cases| && cases[i].completedAt == None && cases[i].assignee == Some(id)
  }

  /** The grouped query counts exactly those. */
  lemma {:induction false} LoadsAreOpenCases(cases: seq<Case>, u: User)
    ensures LoadOf(OpenLoads(cases), u) == |OpenCasesOf(cases, u.id)|
  {
    if cases == [] {
      assert OpenCasesOf(cases, u.id) == {};
    } else {
      var init, last := cases[..|cases| - 1], cases[|cases| - 1];
      LoadsAreOpenCases(init, u);
      if last.completedAt == None && last.assignee == Some(u.id) {
        assert OpenCasesOf(cases, u.id) == OpenCasesOf(init, u.id) + {|init|};
      } else {
        assert OpenCasesOf(cases, u.id) == OpenCasesOf(init, u.id);
      }
    }
  }

  /** Active, of this role, and with every skill asked for that is not blank. */
  ghost predicate Fits(u: User, role: string, skills: seq<string>) {
    u.active && u.role == role && forall s :: s in skills && !Blank(s) ==> s in u.skills
  }

  /** u comes before v: by open cases per capacity, then by open cases, then by id. */
  ghost predicate LessBusy(cases: seq<Case>, u: User, v: User) {
    var a, b := |OpenCasesOf(cases, u.id)|, |OpenCasesOf(cases, v.id)|;
    var p, q := Capacity(u), Capacity(v);
    || a * q < b * p
    || (a * q == b * p && a < b)
    || (a * q == b * p && a == b && u.id < v.id)
  }

  /** The engine's choice in world w for work of this role and these skills: nobody exactly when
      nobody fits, and otherwise u or their active stand-in, where u is less busy than anybody
      else who fits, and has room if the team has. */
  ghost predicate Placed(w: World, role: string, skills: seq<string>, assignee: Option<nat>, u: Option<User>) {
    var users, delegates := w.roster.users, w.roster.delegates;
    var team, loads := Eligible(users, role, RequiredSkills(skills)), OpenLoads(w.cases);
    && (u == None <==> role == "" || forall v :: v in users ==> !Fits(v, role, skills))
    && (u == None ==> assignee == None)
    && (u.Some? ==>
          && assignee == Some(if u.value.id in delegates && delegates[u.value.id].active then delegates[u.value.id].id
                              else u.value.id)
          && u.value in users && Fits(u.value, role, skills)
          && (forall v :: v in users && Fits(v, role, skills) && v.id != u.value.id ==> LessBusy(w.cases, u.value, v))
          && (TotalLoad(loads, team) < TotalCapacity(team) ==>
                |OpenCasesOf(w.cases, u.value.id)| < Capacity(u.value)))
  }

  lemma ChoiceIsPlaced(w: World, role: string, skills: seq<string>) returns (u: Option<User>)
    requires DistinctIds(w.roster.users)
    ensures Placed(w, role, skills, Assignee(w, role, skills), u)
  {
    u := SelectsTheLeast(w.roster, role, RequiredSkills(skills), OpenLoads(w.cases));
    forall v: User ensures Fits(v, role, skills) <==> Suits(v, role, RequiredSkills(skills)) {
    }
    if u.Some? {
      LoadsAreOpenCases(w.cases, u.value);
      forall v | v in w.roster.users && Fits(v, role, skills) && v.id != u.value.id
        ensures LessBusy(w.cases, u.value, v)
      {
        LoadsAreOpenCases(w.cases, v);
        assert ComesBefore(OpenLoads(w.cases), u.value, v);
      }
    }
  }

  /** Entering a stage gives the case to the stage's least loaded user, and the last stage to
      nobody. */
  lemma AssignedOnEntry(w: World, wait: nat, i: nat, actor: Actor, target: Key) returns (u: Option<User>)
    requires Reachable(w) && i < |w.cases| && TransitionCase(Tick(w, wait), i, actor, target).Ok?
    ensures var stage := StageOf(w.cases[i].config, target).value;
      var d := TransitionCase(Tick(w, wait), i, actor, target).value.cases[i];
      if stage.terminal then d.assignee == None else Placed(w, stage.role, stage.skills, d.assignee, u)
  {
    ReachableIsGood(w);
    var stage := StageOf(w.cases[i].config, target).value;
    u := ChoiceIsPlaced(w, stage.role, stage.skills);
  }

  /** A new case goes to the least loaded user of the role the rules route it to, or of its
      first stage. */
  lemma AssignedOnCreation(w: World, wait: nat, op: Operation) returns (u: Option<User>)
    requires Reachable(w) && op.Create? && Perform(Tick(w, wait), op).Ok?
    ensures var outcome := Rules.Evaluate(op.config, op.sets, op.ctx, op.priority);
      var stage := StageOf(outcome.config, outcome.config.initial).value;
      var role := if outcome.routeRole.Some? then outcome.routeRole.value else stage.role;
      var r := Perform(Tick(w, wait), op).value;
      && |r.cases| == |w.cases| + 1 && r.cases[..|w.cases|] == w.cases
      && Placed(w, role, stage.skills, r.cases[|w.cases|].assignee, u)
  {
    ReachableIsGood(w);
    var outcome := Rules.Evaluate(op.config, op.sets, op.ctx, op.priority);
    var stage := StageOf(outcome.config, outcome.config.initial).value;
    u := ChoiceIsPlaced(w, if outcome.routeRole.Some? then outcome.routeRole.value else stage.role, stage.skills);
  }

  /** An escalation hands the case over only when it raises the level, only to the role the
      configuration names for the new level, and keeps it where it is when nobody there can
      take it. */
  lemma AssignedOnEscalation(w: World, i: nat) returns (u: Option<User>)
    requires DistinctIds(w.roster.users) && i < |w.cases|
    ensures var c, d := w.cases[i], Escalate(w, i).cases[i];
      if d.level == c.level then d.assignee == c.assignee
      else
        var role := if d.level in c.config.reassign then c.config.reassign[d.level] else "";
        if u == None then d.assignee == c.assignee && Placed(w, role, [], None, None)
        else Placed(w, role, [], d.assignee, u)
  {
    var c := w.cases[i];
    var level := RaisedLevel(c, w.clock);
    u := ChoiceIsPlaced(w, if level in c.config.reassign then c.config.reassign[level] else "", []);
  }
}
