/** Declarative rules: which fire, and what they do to the captured snapshot
    (app/services/rules.py:17-43, 97-155). */
module Rules {
  import opened Common
  import opened WorkflowModel
  import WorkflowGraph

  datatype Context = Context(fields: map<Key, Json>, facts: map<Key, Json>)

  datatype Action =
    | SetPriority(value: string)
    | AddTag(tag: string)
    | RouteRole(role: string)
    | RequireApproval(stage: Key, key: Key, name: string, approver: string)
    | Ignored

  datatype Rule = Rule(name: string, conditions: seq<Condition>, actions: seq<Action>, stop: bool)

  /** One entry of the `matched` list. */
  datatype Firing = Firing(key: Key, rule: Rule)

  datatype Outcome = Outcome(priority: string, tags: seq<string>, routeRole: Option<string>, config: Config)

  const PRIORITIES: set<string> := {"Low", "Medium", "High", "Critical"}

  function Cut(s: string, n: nat): (r: string)
    ensures r <= s && |r| == if |s| < n then |s| else n
  {
    if |s| <= n then s else s[..n]
  }

  /** A field name starting with "case." reads the case itself, any other an intake field. */
  function ValueOf(ctx: Context, field: Key): Json {
    if "case." <= field then
      if field[5..] in ctx.facts then ctx.facts[field[5..]] else NULL
    else if field in ctx.fields then ctx.fields[field] else NULL
  }

  predicate ConditionMatches(c: Condition, ctx: Context) {
    c.field != "" && c.operator != Unsupported && Holds(c.operator, ValueOf(ctx, c.field), c.expected)
  }

  predicate Fires(rule: Rule, ctx: Context) {
    forall i :: 0 <= i < |rule.conditions| ==> ConditionMatches(rule.conditions[i], ctx)
  }

  /** A condition reads the case for "case.x" and the intake field x for "x"; what is missing
      reads as null. A rule fires when all of its conditions hold of what they read. */
  lemma ConditionsMean(c: Condition, ctx: Context, name: Key, actual: Json)
    requires (c.field == "case." + name && actual == if name in ctx.facts then ctx.facts[name] else NULL)
          || (c.field == name != "" && !("case." <= name)
              && actual == if name in ctx.fields then ctx.fields[name] else NULL)
    ensures c.operator == Unsupported ==> !ConditionMatches(c, ctx)
    ensures c.operator != Unsupported ==> (ConditionMatches(c, ctx) <==> Holds(c.operator, actual, c.expected))
  {
    if c.field == "case." + name {
      assert c.field[5..] == name;
    }
  }

  lemma FiresMeans(rule: Rule, ctx: Context)
    ensures Fires(rule, ctx) <==> forall c :: c in rule.conditions ==> ConditionMatches(c, ctx)
  {
  }

  // ---------------------------------------------------------------- which rules fire

  /** preview_rules: the rules of one set that fire, up to the first that stops. */
  function Preview(rules: seq<Rule>, ctx: Context): seq<Rule> {
    if rules == [] then []
    else if !Fires(rules[0], ctx) then Preview(rules[1..], ctx)
    else if rules[0].stop then [rules[0]]
    else [rules[0]] + Preview(rules[1..], ctx)
  }

  method PreviewRules(rules: seq<Rule>, ctx: Context) returns (matched: seq<Rule>)
    ensures matched == Preview(rules, ctx)
  {
    matched := [];
    for n := 0 to |rules|
      invariant Preview(rules, ctx) == matched + Preview(rules[n..], ctx)
    {
      assert rules[n..][1..] == rules[n + 1..];
      if Fires(rules[n], ctx) {
        matched := matched + [rules[n]];
        if rules[n].stop {
          return;
        }
      }
    }
  }

  function Matching(rules: seq<Rule>, ctx: Context): seq<Rule> {
    if rules == [] then []
    else (if Fires(rules[0], ctx) then [rules[0]] else []) + Matching(rules[1..], ctx)
  }

  /** The first position holding a rule that fires and stops, or |rules|. */
  function StopsAt(rules: seq<Rule>, ctx: Context): (n: nat)
    ensures n <= |rules|
    ensures n < |rules| ==> Fires(rules[n], ctx) && rules[n].stop
    ensures forall i :: 0 <= i < n ==> !(Fires(rules[i], ctx) && rules[i].stop)
  {
    if rules == [] || (Fires(rules[0], ctx) && rules[0].stop) then 0
    else
      var n := StopsAt(rules[1..], ctx);
      assert forall i :: 0 < i < n + 1 ==> rules[i] == rules[1..][i - 1];
      n + 1
  }

  /** Independently: every matching rule up to and including the first stopping one. */
  function UpToStop(rules: seq<Rule>, ctx: Context): seq<Rule> {
    var n := StopsAt(rules, ctx);
    if n < |rules| then rules[..n + 1] else rules
  }

  lemma {:induction false} PreviewIsMatchingPrefix(rules: seq<Rule>, ctx: Context)
    ensures Preview(rules, ctx) == Matching(UpToStop(rules, ctx), ctx)
  {
    if rules != [] {
      var upTo := UpToStop(rules, ctx);
      if Fires(rules[0], ctx) && rules[0].stop {
        assert upTo == [rules[0]];
        assert Matching(upTo[1..], ctx) == [];
      } else {
        PreviewIsMatchingPrefix(rules[1..], ctx);
        assert upTo[0] == rules[0] && upTo[1..] == UpToStop(rules[1..], ctx);
      }
    }
  }

  /** What fires over a list of rule-set keys: stopping is local to a set, and a key without an
      active set contributes nothing. */
  function Fired(keys: seq<Key>, sets: map<Key, seq<Rule>>, ctx: Context): seq<Firing> {
    if keys == [] then []
    else (if keys[0] in sets then Tagged(keys[0], Preview(sets[keys[0]], ctx)) else [])
         + Fired(keys[1..], sets, ctx)
  }

  /** Key by key in order, each active set with its own preview whatever the sets before it did. */
  lemma {:induction false} FiredIsConcatenation(a: seq<Key>, b: seq<Key>, sets: map<Key, seq<Rule>>, ctx: Context)
    ensures Fired(a + b, sets, ctx) == Fired(a, sets, ctx) + Fired(b, sets, ctx)
  {
    if a == [] {
      assert a + b == b;
    } else {
      FiredIsConcatenation(a[1..], b, sets, ctx);
      assert (a + b)[1..] == a[1..] + b && (a + b)[0] == a[0];
      Associative(if a[0] in sets then Tagged(a[0], Preview(sets[a[0]], ctx)) else [],
                  Fired(a[1..], sets, ctx), Fired(b, sets, ctx));
    }
  }

  lemma FiredByOneSet(key: Key, sets: map<Key, seq<Rule>>, ctx: Context)
    ensures key in sets ==> Fired([key], sets, ctx) == Tagged(key, Preview(sets[key], ctx))
    ensures key !in sets ==> Fired([key], sets, ctx) == []
  {
    assert Fired([key][1..], sets, ctx) == [];
  }

  function Tagged(key: Key, rules: seq<Rule>): (r: seq<Firing>)
    ensures |r| == |rules|
    ensures forall i :: 0 <= i < |r| ==> r[i] == Firing(key, rules[i])
  {
    seq(|rules|, i requires 0 <= i < |rules| => Firing(key, rules[i]))
  }

  // ---------------------------------------------------------------- what they do

  /** The approval a rule asks for. */
  function Required(a: Action): ApprovalDef
    requires a.RequireApproval?
  {
    ApprovalDef(Cut(a.key, 80), Cut(a.name, 180), Cut(a.approver, 80), None)
  }

  function AddApproval(defs: seq<ApprovalDef>, d: ApprovalDef): seq<ApprovalDef> {
    if exists i :: 0 <= i < |defs| && defs[i].key == d.key then defs else defs + [d]
  }

  function Apply(o: Outcome, a: Action): Outcome {
    match a
    case SetPriority(value) => if value in PRIORITIES then o.(priority := value) else o
    case AddTag(tag) =>
      if tag == "" || Cut(tag, 60) in o.tags then o else o.(tags := o.tags + [Cut(tag, 60)])
    case RouteRole(role) => if role == "" then o else o.(routeRole := Some(Cut(role, 80)))
    case RequireApproval(stage, _, _, _) =>
      var i := FindStage(o.config.stages, stage);
      if i == |o.config.stages| then o else
        var st := o.config.stages[i];
        o.(config := o.config.(stages := o.config.stages[i :=
          st.(approvals := AddApproval(st.approvals, Required(a)))]))
    case Ignored => o
  }

  function ApplyAll(o: Outcome, actions: seq<Action>): Outcome {
    if actions == [] then o else Apply(ApplyAll(o, actions[..|actions| - 1]), actions[|actions| - 1])
  }

  function ActionsOf(fired: seq<Firing>): seq<Action> {
    if fired == [] then [] else fired[0].rule.actions + ActionsOf(fired[1..])
  }

  lemma {:induction false} ApplyAllAppends(o: Outcome, a: seq<Action>, b: seq<Action>)
    ensures ApplyAll(o, a + b) == ApplyAll(ApplyAll(o, a), b)
  {
    if b == [] {
      assert a + b == a;
    } else {
      ApplyAllAppends(o, a, b[..|b| - 1]);
      assert (a + b)[..|a + b| - 1] == a + b[..|b| - 1];
    }
  }

  lemma Associative<T>(a: seq<T>, b: seq<T>, c: seq<T>)
    ensures a + (b + c) == (a + b) + c
  {
  }

  lemma {:induction false} ActionsOfAppends(a: seq<Firing>, b: seq<Firing>)
    ensures ActionsOf(a + b) == ActionsOf(a) + ActionsOf(b)
  {
    if a == [] {
      assert a + b == b;
    } else {
      ActionsOfAppends(a[1..], b);
      assert (a + b)[1..] == a[1..] + b && (a + b)[0] == a[0];
      Associative(a[0].rule.actions, ActionsOf(a[1..]), ActionsOf(b));
    }
  }

  /** The whole evaluation as a function. */
  function Evaluate(config: Config, sets: map<Key, seq<Rule>>, ctx: Context, priority: string): Outcome {
    ApplyAll(Outcome(priority, [], None, config), ActionsOf(Fired(config.ruleSets, sets, ctx)))
  }

  lemma FiringAppends(start: Outcome, a: seq<Firing>, b: seq<Firing>)
    ensures ApplyAll(start, ActionsOf(a + b)) == ApplyAll(ApplyAll(start, ActionsOf(a)), ActionsOf(b))
  {
    ActionsOfAppends(a, b);
    ApplyAllAppends(start, ActionsOf(a), ActionsOf(b));
  }

  lemma OneFiring(key: Key, rule: Rule)
    ensures ActionsOf([Firing(key, rule)]) == rule.actions
  {
    assert ActionsOf([Firing(key, rule)]) == rule.actions + ActionsOf([]);
  }

  lemma OneMoreKey(keys: seq<Key>, k: nat, sets: map<Key, seq<Rule>>, ctx: Context)
    requires k < |keys|
    ensures Fired(keys[k..], sets, ctx)
         == (if keys[k] in sets then Tagged(keys[k], Preview(sets[keys[k]], ctx)) else [])
            + Fired(keys[k + 1..], sets, ctx)
  {
    assert keys[k..][1..] == keys[k + 1..];
  }

  /** evaluate_rule_sets: the nested loops fire exactly what preview_rules reports for each
      active set, in key order, and do exactly the actions of what fired, in order. */
  method EvaluateRuleSets(config: Config, sets: map<Key, seq<Rule>>, ctx: Context, priority: string)
    returns (result: Outcome, matched: seq<Firing>)
    ensures matched == Fired(config.ruleSets, sets, ctx)
    ensures result == Evaluate(config, sets, ctx, priority)
  {
    var start := Outcome(priority, [], None, config);
    result, matched := start, [];
    var keys := config.ruleSets;
    for k := 0 to |keys|
      invariant Fired(keys, sets, ctx) == matched + Fired(keys[k..], sets, ctx)
      invariant result == ApplyAll(start, ActionsOf(matched))
    {
      OneMoreKey(keys, k, sets, ctx);
      if keys[k] in sets {
        var fired;
        result, fired := EvaluateOneSet(keys[k], sets[keys[k]], ctx, result);
        FiringAppends(start, matched, fired);
        Associative(matched, fired, Fired(keys[k + 1..], sets, ctx));
        matched := matched + fired;
      }
    }
  }

  lemma OneMoreRule(key: Key, rules: seq<Rule>, n: nat, ctx: Context)
    requires n < |rules|
    ensures var rest := Tagged(key, Preview(rules[n + 1..], ctx));
      Tagged(key, Preview(rules[n..], ctx))
      == (if !Fires(rules[n], ctx) then rest
          else if rules[n].stop then [Firing(key, rules[n])]
          else [Firing(key, rules[n])] + rest)
  {
    assert rules[n..][1..] == rules[n + 1..];
  }

  method EvaluateOneSet(key: Key, rules: seq<Rule>, ctx: Context, start: Outcome)
    returns (result: Outcome, matched: seq<Firing>)
    ensures matched == Tagged(key, Preview(rules, ctx))
    ensures result == ApplyAll(start, ActionsOf(matched))
  {
    result, matched := start, [];
    for n := 0 to |rules|
      invariant Tagged(key, Preview(rules, ctx)) == matched + Tagged(key, Preview(rules[n..], ctx))
      invariant result == ApplyAll(start, ActionsOf(matched))
    {
      var rule := rules[n];
      OneMoreRule(key, rules, n, ctx);
      if Fires(rule, ctx) {
        result := DoActions(result, rule.actions);
        OneFiring(key, rule);
        FiringAppends(start, matched, [Firing(key, rule)]);
        Associative(matched, [Firing(key, rule)], Tagged(key, Preview(rules[n + 1..], ctx)));
        matched := matched + [Firing(key, rule)];
        if rule.stop {
          return;
        }
      }
    }
  }

  method DoActions(start: Outcome, actions: seq<Action>) returns (o: Outcome)
    ensures o == ApplyAll(start, actions)
  {
    o := start;
    for n := 0 to |actions|
      invariant o == ApplyAll(start, actions[..n])
    {
      assert actions[..n + 1][..n] == actions[..n];
      o := Apply(o, actions[n]);
    }
    assert actions[..|actions|] == actions;
  }

  // ---------------------------------------------------------------- the snapshot stays valid

  /** Same graph, every approval list extended by a suffix. */
  ghost predicate Extends(cfg: Config, ext: Config) {
    && ext == cfg.(stages := ext.stages)
    && |ext.stages| == |cfg.stages|
    && forall i :: 0 <= i < |cfg.stages| ==>
         && ext.stages[i] == cfg.stages[i].(approvals := ext.stages[i].approvals)
         && cfg.stages[i].approvals <= ext.stages[i].approvals
         && (WorkflowGraph.DistinctApprovals(cfg.stages[i].approvals) ==>
               WorkflowGraph.DistinctApprovals(ext.stages[i].approvals))
  }

  lemma AddApprovalExtends(defs: seq<ApprovalDef>, d: ApprovalDef)
    ensures var ext := AddApproval(defs, d);
      && defs <= ext
      && (exists i :: 0 <= i < |ext| && ext[i].key == d.key)
      && (WorkflowGraph.DistinctApprovals(defs) ==> WorkflowGraph.DistinctApprovals(ext))
  {
    var ext := AddApproval(defs, d);
    if ext != defs {
      assert ext[|defs|].key == d.key;
    }
  }

  lemma ActionExtends(o: Outcome, a: Action)
    ensures Extends(o.config, Apply(o, a).config)
  {
    if a.RequireApproval? {
      var i := FindStage(o.config.stages, a.stage);
      if i < |o.config.stages| {
        AddApprovalExtends(o.config.stages[i].approvals, Required(a));
      }
    }
  }

  lemma {:induction false} ActionsExtend(o: Outcome, actions: seq<Action>)
    ensures Extends(o.config, ApplyAll(o, actions).config)
  {
    if actions != [] {
      ActionsExtend(o, actions[..|actions| - 1]);
      ActionExtends(ApplyAll(o, actions[..|actions| - 1]), actions[|actions| - 1]);
    }
  }

  lemma ExtensionKeepsStages(cfg: Config, ext: Config)
    requires Extends(cfg, ext)
    ensures forall k :: IsStage(ext, k) <==> IsStage(cfg, k)
    ensures forall k :: WorkflowGraph.IsTerminal(ext, k) <==> WorkflowGraph.IsTerminal(cfg, k)
  {
    forall k ensures IsStage(ext, k) <==> IsStage(cfg, k) {
      if i :| 0 <= i < |cfg.stages| && cfg.stages[i].key == k {
        assert ext.stages[i].key == k;
      }
    }
    forall k ensures WorkflowGraph.IsTerminal(ext, k) <==> WorkflowGraph.IsTerminal(cfg, k) {
      if i :| 0 <= i < |cfg.stages| && cfg.stages[i].key == k && cfg.stages[i].terminal {
        assert ext.stages[i].key == k && ext.stages[i].terminal;
      }
    }
  }

  lemma ExtensionKeepsFinishing(cfg: Config, ext: Config)
    requires Extends(cfg, ext) && WorkflowGraph.AllReachable(cfg) && WorkflowGraph.AllFinish(cfg)
    ensures WorkflowGraph.AllReachable(ext) && WorkflowGraph.AllFinish(ext)
  {
    ExtensionKeepsStages(cfg, ext);
    forall k | IsStage(ext, k) ensures WorkflowGraph.CanFinish(ext, k) {
      assert WorkflowGraph.CanFinish(cfg, k);
      var z :| WorkflowGraph.IsTerminal(cfg, z) && WorkflowGraph.Reaches(cfg.transitions, k, z);
    }
  }

  lemma ExtensionKeepsTransitions(cfg: Config, ext: Config)
    requires Extends(cfg, ext) && WorkflowGraph.TransitionsFit(cfg)
    ensures WorkflowGraph.TransitionsFit(ext)
  {
    ExtensionKeepsStages(cfg, ext);
    forall t | t in ext.transitions ensures WorkflowGraph.TransitionFits(ext, t) {
      assert WorkflowGraph.TransitionFits(cfg, t);
    }
  }

  lemma ExtensionKeepsShape(cfg: Config, ext: Config)
    requires Extends(cfg, ext) && WorkflowGraph.WellShaped(cfg)
    ensures WorkflowGraph.WellShaped(ext)
  {
    ExtensionKeepsStages(cfg, ext);
    ExtensionKeepsTransitions(cfg, ext);
    var z :| WorkflowGraph.IsTerminal(cfg, z);
    assert WorkflowGraph.IsTerminal(ext, z);
    forall i | 0 <= i < |ext.stages|
      ensures WorkflowGraph.ValidKey(ext.stages[i].key) && WorkflowGraph.StageFits(ext.stages[i])
      ensures WorkflowGraph.DistinctApprovals(ext.stages[i].approvals)
    {
      assert ext.stages[i] == cfg.stages[i].(approvals := ext.stages[i].approvals);
    }
  }

  /** The snapshot of a sound configuration is sound, whatever the rules do. */
  lemma SnapshotStaysSound(config: Config, sets: map<Key, seq<Rule>>, ctx: Context, priority: string)
    requires WorkflowGraph.Sound(config)
    ensures var snapshot := Evaluate(config, sets, ctx, priority).config;
      WorkflowGraph.Sound(snapshot) && Extends(config, snapshot)
  {
    var snapshot := Evaluate(config, sets, ctx, priority).config;
    ActionsExtend(Outcome(priority, [], None, config), ActionsOf(Fired(config.ruleSets, sets, ctx)));
    ExtensionKeepsShape(config, snapshot);
    ExtensionKeepsFinishing(config, snapshot);
  }

  // ---------------------------------------------------------------- what the outcome says

  /** The value of the last effective set_priority, looked for from the end. */
  function LastPriority(actions: seq<Action>, default: string): string {
    if actions == [] then default
    else
      var a := actions[|actions| - 1];
      if a.SetPriority? && a.value in {"Low", "Medium", "High", "Critical"} then a.value
      else LastPriority(actions[..|actions| - 1], default)
  }

  function LastRole(actions: seq<Action>): Option<string> {
    if actions == [] then None
    else
      var a := actions[|actions| - 1];
      if a.RouteRole? && a.role != "" then Some(Cut(a.role, 80))
      else LastRole(actions[..|actions| - 1])
  }

  ghost predicate NoRepeats(tags: seq<string>) {
    forall i, j :: 0 <= i < j < |tags| ==> tags[i] != tags[j]
  }

  /** The last effective priority and role win; the tags are exactly those asked for, once. */
  lemma {:induction false} LastActionWins(o: Outcome, actions: seq<Action>)
    requires o.tags == [] && o.routeRole == None
    ensures var r := ApplyAll(o, actions);
      && r.priority == LastPriority(actions, o.priority)
      && r.routeRole == LastRole(actions)
      && NoRepeats(r.tags)
      && forall t :: t in r.tags <==> exists a :: a in actions && a.AddTag? && a.tag != "" && t == Cut(a.tag, 60)
  {
    if actions != [] {
      var init, last := actions[..|actions| - 1], actions[|actions| - 1];
      LastActionWins(o, init);
      assert actions == init + [last];
      assert forall a :: a in actions <==> a in init || a == last;
    }
  }

  ghost predicate HasApproval(cfg: Config, stage: Key, key: Key) {
    var i := FindStage(cfg.stages, stage);
    i < |cfg.stages| && exists j :: 0 <= j < |cfg.stages[i].approvals| && cfg.stages[i].approvals[j].key == key
  }

  lemma {:induction false} FindStageAgrees(a: seq<Stage>, b: seq<Stage>, k: Key)
    requires |a| == |b| && forall i :: 0 <= i < |a| ==> a[i].key == b[i].key
    ensures FindStage(a, k) == FindStage(b, k)
  {
    if a != [] {
      FindStageAgrees(a[1..], b[1..], k);
    }
  }

  lemma ExtensionKeepsApprovals(cfg: Config, ext: Config, stage: Key, key: Key)
    requires Extends(cfg, ext) && HasApproval(cfg, stage, key)
    ensures HasApproval(ext, stage, key)
  {
    FindStageAgrees(cfg.stages, ext.stages, stage);
    var i := FindStage(cfg.stages, stage);
    var j :| 0 <= j < |cfg.stages[i].approvals| && cfg.stages[i].approvals[j].key == key;
    assert ext.stages[i].approvals[j].key == key;
  }

  /** Every approval a fired rule requires of an existing stage is in the snapshot. */
  lemma {:induction false} RequiredApprovalsAreAdded(o: Outcome, actions: seq<Action>, a: Action)
    requires a in actions && a.RequireApproval? && IsStage(o.config, a.stage)
    ensures HasApproval(ApplyAll(o, actions).config, a.stage, Cut(a.key, 80))
  {
    var init, last := actions[..|actions| - 1], actions[|actions| - 1];
    var before := ApplyAll(o, init);
    ActionsExtend(o, init);
    ActionExtends(before, last);
    if a in init {
      RequiredApprovalsAreAdded(o, init, a);
      ExtensionKeepsApprovals(before.config, Apply(before, last).config, a.stage, Cut(a.key, 80));
    } else {
      assert last == a;
      FindStageAgrees(o.config.stages, before.config.stages, a.stage);
      var i := FindStage(before.config.stages, a.stage);
      AddApprovalExtends(before.config.stages[i].approvals, Required(a));
      FindStageAgrees(before.config.stages, Apply(before, a).config.stages, a.stage);
    }
  }

  /** And nothing else is added: an approval beyond the configured ones was required by a fired rule. */
  lemma {:induction false} AddedApprovalsWereRequired(o: Outcome, actions: seq<Action>, i: nat, j: nat)
    returns (a: Action)
    requires i < |o.config.stages|
    requires var r := ApplyAll(o, actions).config;
      i < |r.stages| && |o.config.stages[i].approvals| <= j < |r.stages[i].approvals|
    ensures a in actions && a.RequireApproval? && a.stage == o.config.stages[i].key
    ensures ApplyAll(o, actions).config.stages[i].approvals[j]
         == ApprovalDef(Cut(a.key, 80), Cut(a.name, 180), Cut(a.approver, 80), None)
  {
    var init, last := actions[..|actions| - 1], actions[|actions| - 1];
    var before := ApplyAll(o, init);
    ActionsExtend(o, init);
    ActionExtends(before, last);
    if j < |before.config.stages[i].approvals| {
      a := AddedApprovalsWereRequired(o, init, i, j);
    } else {
      a := last;
    }
  }

  // ---------------------------------------------------------------- what the rules may spoil

  predicate Asks(a: Action, stage: Key) {
    a.RequireApproval? && a.stage == stage
  }

  predicate HasKey(defs: seq<ApprovalDef>, k: Key) {
    exists i :: 0 <= i < |defs| && defs[i].key == k
  }

  /** What the actions make of one stage's approvals. */
  function AddAll(defs: seq<ApprovalDef>, stage: Key, actions: seq<Action>): seq<ApprovalDef> {
    if actions == [] then defs
    else
      var before, a := AddAll(defs, stage, actions[..|actions| - 1]), actions[|actions| - 1];
      if Asks(a, stage) then AddApproval(before, Required(a)) else before
  }

  lemma {:induction false} ApprovalsOfStage(o: Outcome, actions: seq<Action>, i: nat)
    requires WorkflowGraph.DistinctStages(o.config) && i < |o.config.stages|
    ensures var r := ApplyAll(o, actions).config;
      |r.stages| == |o.config.stages|
      && r.stages[i].approvals == AddAll(o.config.stages[i].approvals, o.config.stages[i].key, actions)
  {
    if actions != [] {
      var init := actions[..|actions| - 1];
      ApprovalsOfStage(o, init, i);
      ActionsExtend(o, init);
      var before := ApplyAll(o, init);
      var last := actions[|actions| - 1];
      if last.RequireApproval? {
        FindStageAgrees(o.config.stages, before.config.stages, last.stage);
        assert last.stage == o.config.stages[i].key ==> FindStage(before.config.stages, last.stage) == i;
      }
    }
  }

  /** Action n is the first to ask for an approval that the stage does not have. */
  predicate FirstRequest(defs: seq<ApprovalDef>, stage: Key, actions: seq<Action>, n: nat)
    requires n < |actions|
  {
    Asks(actions[n], stage) &&
    var k := Required(actions[n]).key;
    !HasKey(defs, k) && forall m :: 0 <= m < n && Asks(actions[m], stage) ==> Required(actions[m]).key != k
  }

  lemma {:induction false} KeysAdded(defs: seq<ApprovalDef>, stage: Key, actions: seq<Action>, k: Key)
    ensures HasKey(AddAll(defs, stage, actions), k) <==>
      HasKey(defs, k) || exists m :: 0 <= m < |actions| && Asks(actions[m], stage) && Required(actions[m]).key == k
  {
    if actions != [] {
      var init, last := actions[..|actions| - 1], actions[|actions| - 1];
      KeysAdded(defs, stage, init, k);
      assert actions == init + [last];
      if Asks(last, stage) {
        AddedKey(AddAll(defs, stage, init), Required(last), k);
        assert Required(last).key == k ==> Asks(actions[|init|], stage);
      }
      if m :| 0 <= m < |init| && Asks(init[m], stage) && Required(init[m]).key == k {
        assert Asks(actions[m], stage);
      }
    }
  }

  lemma AddedKey(defs: seq<ApprovalDef>, d: ApprovalDef, k: Key)
    ensures HasKey(AddApproval(defs, d), k) <==> HasKey(defs, k) || d.key == k
  {
    var r := AddApproval(defs, d);
    if r != defs {
      assert r[|defs|] == d && forall i :: 0 <= i < |defs| ==> r[i] == defs[i];
    }
  }

  ghost predicate AllFit(fields: set<Key>, defs: seq<ApprovalDef>) {
    forall j :: 0 <= j < |defs| ==> WorkflowGraph.ApprovalFits(fields, defs[j])
  }

  ghost predicate RequestsFit(fields: set<Key>, defs: seq<ApprovalDef>, stage: Key, actions: seq<Action>) {
    forall n :: 0 <= n < |actions| && FirstRequest(defs, stage, actions, n) ==>
      WorkflowGraph.ApprovalFits(fields, Required(actions[n]))
  }

  lemma {:induction false} AddedFitIff(fields: set<Key>, defs: seq<ApprovalDef>, stage: Key, actions: seq<Action>)
    requires AllFit(fields, defs)
    ensures AllFit(fields, AddAll(defs, stage, actions)) <==> RequestsFit(fields, defs, stage, actions)
  {
    if actions != [] {
      var init, last := actions[..|actions| - 1], actions[|actions| - 1];
      AddedFitIff(fields, defs, stage, init);
      assert forall n :: 0 <= n < |init| ==>
        FirstRequest(defs, stage, init, n) == FirstRequest(defs, stage, actions, n);
      if Asks(last, stage) {
        var before := AddAll(defs, stage, init);
        KeysAdded(defs, stage, init, Required(last).key);
        assert FirstRequest(defs, stage, actions, |init|) <==> !HasKey(before, Required(last).key);
        OneMoreFits(fields, before, Required(last));
      }
    }
  }

  lemma OneMoreFits(fields: set<Key>, defs: seq<ApprovalDef>, d: ApprovalDef)
    ensures AllFit(fields, AddApproval(defs, d))
       <==> AllFit(fields, defs) && (HasKey(defs, d.key) || WorkflowGraph.ApprovalFits(fields, d))
  {
    var r := AddApproval(defs, d);
    if r != defs {
      assert r[|defs|] == d && forall i :: 0 <= i < |defs| ==> r[i] == defs[i];
    }
  }

  /** The snapshot of a validated configuration passes the whole validation again exactly when
      every approval that a fired rule is the first to ask for would have been accepted: rules
      are not checked for the key pattern, a name or a role. */
  lemma SnapshotAcceptableIff(config: Config, sets: map<Key, seq<Rule>>, ctx: Context, priority: string)
    requires WorkflowGraph.Acceptable(config)
    ensures var actions := ActionsOf(Fired(config.ruleSets, sets, ctx));
      WorkflowGraph.Acceptable(Evaluate(config, sets, ctx, priority).config)
      <==> forall i :: 0 <= i < |config.stages| ==>
             RequestsFit(config.fields, config.stages[i].approvals, config.stages[i].key, actions)
  {
    SnapshotStaysSound(config, sets, ctx, priority);
    var actions := ActionsOf(Fired(config.ruleSets, sets, ctx));
    FitIff(Outcome(priority, [], None, config), actions);
  }

  lemma FitIff(o: Outcome, actions: seq<Action>)
    requires WorkflowGraph.DistinctStages(o.config) && WorkflowGraph.ApprovalsFit(o.config)
    ensures WorkflowGraph.ApprovalsFit(ApplyAll(o, actions).config)
       <==> forall i :: 0 <= i < |o.config.stages| ==>
              RequestsFit(o.config.fields, o.config.stages[i].approvals, o.config.stages[i].key, actions)
  {
    var cfg, r := o.config, ApplyAll(o, actions).config;
    ActionsExtend(o, actions);
    forall i | 0 <= i < |cfg.stages|
      ensures AllFit(cfg.fields, r.stages[i].approvals)
         <==> RequestsFit(cfg.fields, cfg.stages[i].approvals, cfg.stages[i].key, actions)
    {
      ApprovalsOfStage(o, actions, i);
      AddedFitIff(cfg.fields, cfg.stages[i].approvals, cfg.stages[i].key, actions);
    }
    assert WorkflowGraph.ApprovalsFit(r)
      <==> forall i :: 0 <= i < |r.stages| ==> AllFit(r.fields, r.stages[i].approvals);
  }

  lemma UnfitKeyIsNew(fields: set<Key>, defs: seq<ApprovalDef>, k: Key)
    requires AllFit(fields, defs) && !WorkflowGraph.ValidKey(k)
    ensures !HasKey(defs, k)
  {
  }

  /** It does happen, with one rule that asks for an approval whose key is not a key. */
  lemma BadKeySpoilsSnapshot(config: Config, key: Key, i: nat, a: Action, ctx: Context, priority: string)
    requires WorkflowGraph.Acceptable(config) && config.ruleSets == [key] && i < |config.stages|
    requires Asks(a, config.stages[i].key) && !WorkflowGraph.ValidKey(Required(a).key)
    ensures !WorkflowGraph.Acceptable(Evaluate(config, map[key := [Rule("", [], [a], false)]], ctx, priority).config)
  {
    var rule, s := Rule("", [], [a], false), config.stages[i];
    OneRuleFires(key, rule, ctx);
    OneFiring(key, rule);
    SnapshotAcceptableIff(config, map[key := [rule]], ctx, priority);
    UnfitKeyIsNew(config.fields, s.approvals, Required(a).key);
    assert FirstRequest(s.approvals, s.key, [a], 0);
  }

  /** "Legal review" is such a key. */
  lemma LegalReviewIsNoKey(stage: Key, name: string, approver: string)
    ensures !WorkflowGraph.ValidKey(Required(RequireApproval(stage, "Legal review", name, approver)).key)
  {
    assert Required(RequireApproval(stage, "Legal review", name, approver)).key[0] == 'L';
  }

  lemma OneRuleFires(key: Key, rule: Rule, ctx: Context)
    requires rule.conditions == [] && !rule.stop
    ensures Fired([key], map[key := [rule]], ctx) == [Firing(key, rule)]
  {
    assert Preview([rule], ctx) == [rule];
    assert Fired([key], map[key := [rule]], ctx) == Tagged(key, [rule]) + Fired([], map[key := [rule]], ctx);
  }
}
