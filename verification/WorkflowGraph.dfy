/** The structural checks of validate_workflow_config (app/services/workflow_engine.py:141-259)
    against a specification by paths. */
module WorkflowGraph {
  import opened Common
  import opened WorkflowModel

  // ---------------------------------------------------------------- paths

  ghost predicate Edge(ts: seq<Transition>, a: Key, b: Key) {
    exists t :: t in ts && t.source == a && t.target == b
  }

  ghost predicate IsPath(ts: seq<Transition>, p: seq<Key>) {
    |p| > 0 && forall i :: 0 < i < |p| ==> Edge(ts, p[i - 1], p[i])
  }

  ghost predicate PathBetween(ts: seq<Transition>, p: seq<Key>, a: Key, b: Key) {
    IsPath(ts, p) && p[0] == a && p[|p| - 1] == b
  }

  ghost predicate Reaches(ts: seq<Transition>, a: Key, b: Key) {
    exists p :: PathBetween(ts, p, a, b)
  }

  ghost predicate IsTerminal(cfg: Config, k: Key) {
    exists i :: 0 <= i < |cfg.stages| && cfg.stages[i].key == k && cfg.stages[i].terminal
  }

  ghost predicate CanFinish(cfg: Config, k: Key) {
    exists z :: IsTerminal(cfg, z) && Reaches(cfg.transitions, k, z)
  }

  lemma ReachesItself(ts: seq<Transition>, a: Key)
    ensures Reaches(ts, a, a)
  {
    assert PathBetween(ts, [a], a, a);
  }

  lemma ReachesThen(ts: seq<Transition>, a: Key, b: Key, c: Key)
    requires Reaches(ts, a, b) && Edge(ts, b, c)
    ensures Reaches(ts, a, c)
  {
    var p :| PathBetween(ts, p, a, b);
    assert PathBetween(ts, p + [c], a, c);
  }

  lemma ReachesFrom(ts: seq<Transition>, a: Key, b: Key, c: Key)
    requires Edge(ts, a, b) && Reaches(ts, b, c)
    ensures Reaches(ts, a, c)
  {
    var p :| PathBetween(ts, p, b, c);
    var q := [a] + p;
    forall i | 0 < i < |q| ensures Edge(ts, q[i - 1], q[i]) {
      if i > 1 {
        assert Edge(ts, p[i - 2], p[i - 1]);
      }
    }
    assert PathBetween(ts, q, a, c);
  }

  /** A set closed under edges keeps every path that starts in it. */
  lemma {:induction false} PathStaysIn(ts: seq<Transition>, s: set<Key>, p: seq<Key>, i: nat)
    requires forall a, b :: a in s && Edge(ts, a, b) ==> b in s
    requires IsPath(ts, p) && p[0] in s && i < |p|
    ensures p[i] in s
  {
    if i > 0 {
      PathStaysIn(ts, s, p, i - 1);
    }
  }

  // ---------------------------------------------------------------- the specification

  ghost predicate DistinctStages(cfg: Config) {
    forall i, j :: 0 <= i < j < |cfg.stages| ==> cfg.stages[i].key != cfg.stages[j].key
  }

  ghost predicate DistinctApprovals(defs: seq<ApprovalDef>) {
    forall i, j :: 0 <= i < j < |defs| ==> defs[i].key != defs[j].key
  }

  ghost predicate DistinctTransitions(ts: seq<Transition>) {
    forall i, j :: 0 <= i < j < |ts| ==> ts[i].source != ts[j].source || ts[i].target != ts[j].target
  }

  predicate KeyText(k: Key) {
    2 <= |k| <= 80 && 'a' <= k[0] <= 'z'
    && forall i :: 0 <= i < |k| ==> 'a' <= k[i] <= 'z' || '0' <= k[i] <= '9' || k[i] == '_'
  }

  /** KEY_PATTERN; its closing `$` also accepts one trailing line feed. */
  predicate ValidKey(k: Key) {
    KeyText(k) || (k != "" && k[|k| - 1] == '\n' && KeyText(k[..|k| - 1]))
  }

  /** By code points: two to eighty of a-z (97-122), 0-9 (48-57) and '_' (95), the first of a-z. */
  ghost predicate Named(body: string) {
    && 2 <= |body| <= 80 && 97 <= body[0] as int <= 122
    && forall i :: 0 <= i < |body| ==>
         97 <= body[i] as int <= 122 || 48 <= body[i] as int <= 57 || body[i] as int == 95
  }

  lemma NamedIsKeyText(body: string)
    ensures Named(body) <==> KeyText(body)
  {
  }

  /** A key is such a name, by itself or before one line feed. */
  lemma KeysAreNames(k: Key)
    ensures ValidKey(k) <==> Named(k) || exists body :: Named(body) && k == body + "\n"
  {
    NamedIsKeyText(k);
    if k != "" && k[|k| - 1] == '\n' {
      NamedIsKeyText(k[..|k| - 1]);
      assert k == k[..|k| - 1] + "\n";
    }
    if body :| Named(body) && k == body + "\n" {
      assert k[..|k| - 1] == body;
    }
  }

  ghost predicate ValidStageKeys(cfg: Config) {
    forall i :: 0 <= i < |cfg.stages| ==> ValidKey(cfg.stages[i].key)
  }

  /** What str.strip() removes. */
  predicate IsSpace(c: char) {
    '\t' <= c <= '\r' || '\U{1c}' <= c <= ' ' || c in "\U{85}\U{a0}\U{1680}\U{2028}\U{2029}\U{202f}\U{205f}\U{3000}"
    || '\U{2000}' <= c <= '\U{200a}'
  }

  predicate Blank(text: string) {
    forall i :: 0 <= i < |text| ==> IsSpace(text[i])
  }

  /** Nothing but spaces is blank, and nothing with a visible ASCII character in it. */
  lemma BlankMeans(text: string)
    ensures (forall c :: c in text ==> c == ' ') ==> Blank(text)
    ensures (exists c :: c in text && '!' <= c <= '~') ==> !Blank(text)
  {
    if forall c :: c in text ==> c == ' ' {
      forall i | 0 <= i < |text| ensures IsSpace(text[i]) {
        assert text[i] in text;
      }
    }
    if c :| c in text && '!' <= c <= '~' {
      var i :| 0 <= i < |text| && text[i] == c;
      assert !IsSpace(text[i]);
    }
  }

  /** The checks on one stage that do not concern its approvals. */
  predicate StageFits(s: Stage) {
    !Blank(s.title)
    && (s.terminal || (!Blank(s.role) && (forall i :: 0 <= i < |s.skills| ==> !Blank(s.skills[i])) && s.sla >= 0))
  }

  /** The checks on one approval. */
  predicate ApprovalFits(fields: set<Key>, d: ApprovalDef) {
    && ValidKey(d.key) && d.name != "" && d.role != ""
    && (d.condition.Some? ==> d.condition.value.field in fields && d.condition.value.operator in APPROVAL_OPERATORS)
  }

  ghost predicate ApprovalsFit(cfg: Config) {
    forall i, j :: 0 <= i < |cfg.stages| && 0 <= j < |cfg.stages[i].approvals| ==>
      ApprovalFits(cfg.fields, cfg.stages[i].approvals[j])
  }

  /** The checks made before the graph is walked. */
  ghost predicate WellShaped(cfg: Config) {
    && |cfg.stages| >= 2
    && ValidStageKeys(cfg)
    && DistinctStages(cfg)
    && (forall i :: 0 <= i < |cfg.stages| ==> StageFits(cfg.stages[i]) && DistinctApprovals(cfg.stages[i].approvals))
    && IsStage(cfg, cfg.initial)
    && (exists k :: IsTerminal(cfg, k))
    && |cfg.transitions| > 0
    && TransitionsFit(cfg)
    && DistinctTransitions(cfg.transitions)
    && !IsTerminal(cfg, cfg.initial)
  }

  predicate RolesNamed(t: Transition) {
    t.roles != [] && "" !in t.roles
  }

  predicate ConnectorsNamed(t: Transition) {
    forall i :: 0 <= i < |t.connectors| ==> ValidKey(t.connectors[i])
  }

  predicate TransitionText(t: Transition) {
    RolesNamed(t) && !Blank(t.title) && ConnectorsNamed(t)
  }

  ghost predicate TransitionFits(cfg: Config, t: Transition) {
    IsStage(cfg, t.source) && IsStage(cfg, t.target) && TransitionText(t) && !IsTerminal(cfg, t.source)
  }

  ghost predicate TransitionsFit(cfg: Config) {
    forall t :: t in cfg.transitions ==> TransitionFits(cfg, t)
  }

  ghost predicate AllReachable(cfg: Config) {
    forall k :: IsStage(cfg, k) ==> Reaches(cfg.transitions, cfg.initial, k)
  }

  ghost predicate AllFinish(cfg: Config) {
    forall k :: IsStage(cfg, k) ==> CanFinish(cfg, k)
  }

  /** A configuration the engine can run: well shaped, every stage on some way from the
      initial stage and on some way to a terminal one. */
  ghost predicate Sound(cfg: Config) {
    WellShaped(cfg) && AllReachable(cfg) && AllFinish(cfg)
  }

  /** What the validator accepts: the approvals, which rules may add to later, fit as well. */
  ghost predicate Acceptable(cfg: Config) {
    Sound(cfg) && ApprovalsFit(cfg)
  }

  // ---------------------------------------------------------------- the worklist

  ghost predicate Closed(adj: map<Key, set<Key>>, s: set<Key>) {
    forall k :: k in s && k in adj ==> adj[k] <= s
  }

  function Members(ks: seq<Key>): set<Key> {
    set k | k in ks
  }

  /** Both worklist loops: the least closed set around the seed. */
  method Grow(adj: map<Key, set<Key>>, seed: seq<Key>) returns (found: set<Key>)
    requires Members(seed) <= adj.Keys
    requires forall k :: k in adj ==> adj[k] <= adj.Keys
    ensures Members(seed) <= found <= adj.Keys
    ensures Closed(adj, found)
    ensures forall s :: Members(seed) <= s && Closed(adj, s) ==> found <= s
  {
    found := Members(seed);
    var pending := seed;
    while |pending| > 0
      invariant Members(seed) <= found <= adj.Keys
      invariant forall k :: k in pending ==> k in found
      invariant forall k :: k in found && k !in pending ==> adj[k] <= found
      invariant forall s :: Members(seed) <= s && Closed(adj, s) ==> found <= s
      decreases adj.Keys - found, |pending|
    {
      var source := pending[|pending| - 1];
      ghost var before, stack := found, pending;
      pending := pending[..|pending| - 1];
      assert stack == pending + [source];
      var targets := adj[source];
      while targets != {}
        invariant targets <= adj[source] && adj[source] - targets <= found
        invariant before <= found <= adj.Keys && source in found
        invariant forall k :: k in pending ==> k in found
        invariant forall k :: k in found && k !in pending && k != source ==> adj[k] <= found
        invariant forall s :: Members(seed) <= s && Closed(adj, s) ==> found <= s
        invariant found == before ==> |pending| < |stack|
        decreases targets
      {
        var target :| target in targets;
        targets := targets - {target};
        if target !in found {
          ghost var earlier := pending;
          found := found + {target};
          pending := pending + [target];
          assert forall k :: k in pending <==> k in earlier || k == target;
        }
      }
      if found != before {
        assert adj.Keys - found < adj.Keys - before;
      }
    }
  }

  // ---------------------------------------------------------------- the validator

  ghost predicate KeysOf(cfg: Config, keys: set<Key>) {
    forall k :: k in keys <==> IsStage(cfg, k)
  }

  ghost predicate TerminalsOf(cfg: Config, ks: seq<Key>) {
    forall k :: k in ks <==> IsTerminal(cfg, k)
  }

  ghost predicate Forward(ts: seq<Transition>, adj: map<Key, set<Key>>) {
    forall a, b :: a in adj ==> (b in adj[a] <==> Edge(ts, a, b))
  }

  ghost predicate Backward(ts: seq<Transition>, adj: map<Key, set<Key>>) {
    forall a, b :: b in adj ==> (a in adj[b] <==> Edge(ts, a, b))
  }

  datatype StageFlaw =
    | NoLabel
    | NoRole
    | BlankSkill
    | NegativeSla
    | BadApprovalKey(key: Key)
    | RepeatedApproval(key: Key)
    | NoNameOrRole(key: Key)
    | BadConditionField(key: Key)
    | BadOperator(key: Key)

  datatype Defect =
    | TooFewStages
    | BadKey(key: Key)
    | DuplicateStage(key: Key)
    | BadStage(key: Key, flaw: StageFlaw)
    | UnknownInitial
    | NoTerminal
    | NoTransitions
    | UnknownEndpoint(source: Key, target: Key)
    | DuplicateTransition(source: Key, target: Key)
    | NoRoles(source: Key, target: Key)
    | NoTransitionLabel(source: Key, target: Key)
    | BadConnector(source: Key, target: Key)
    | TerminalHasExit(key: Key)
    | InitialIsTerminal
    | NoExit(key: Key)
    | Unreachable(keys: set<Key>)
    | DeadEnds(keys: set<Key>)

  /** What a reported flaw says about the stage. */
  ghost predicate HasFlaw(fields: set<Key>, s: Stage, f: StageFlaw) {
    match f
    case NoLabel => Blank(s.title)
    case NoRole => !s.terminal && Blank(s.role)
    case BlankSkill => !s.terminal && exists i :: 0 <= i < |s.skills| && Blank(s.skills[i])
    case NegativeSla => !s.terminal && s.sla < 0
    case BadApprovalKey(k) => !ValidKey(k) && exists d :: d in s.approvals && d.key == k
    case RepeatedApproval(k) => Repeats(s.approvals, k)
    case NoNameOrRole(k) => exists d :: d in s.approvals && d.key == k && (d.name == "" || d.role == "")
    case BadConditionField(k) =>
      exists d :: d in s.approvals && d.key == k && d.condition.Some? && d.condition.value.field !in fields
    case BadOperator(k) =>
      exists d :: d in s.approvals && d.key == k && d.condition.Some?
        && d.condition.value.operator !in APPROVAL_OPERATORS
  }

  /** What a reported defect says about the configuration. */
  ghost predicate Exhibits(cfg: Config, d: Defect) {
    match d
    case TooFewStages => |cfg.stages| < 2
    case BadKey(k) => !ValidKey(k) && IsStage(cfg, k)
    case DuplicateStage(k) =>
      exists i, j :: 0 <= i < j < |cfg.stages| && cfg.stages[i].key == cfg.stages[j].key == k
    case BadStage(k, flaw) =>
      exists i :: 0 <= i < |cfg.stages| && cfg.stages[i].key == k && HasFlaw(cfg.fields, cfg.stages[i], flaw)
    case UnknownInitial => !IsStage(cfg, cfg.initial)
    case NoTerminal => forall k :: !IsTerminal(cfg, k)
    case NoTransitions => cfg.transitions == []
    case UnknownEndpoint(a, b) => Edge(cfg.transitions, a, b) && !(IsStage(cfg, a) && IsStage(cfg, b))
    case DuplicateTransition(a, b) =>
      exists i, j :: 0 <= i < j < |cfg.transitions|
        && Joins(cfg.transitions[i], a, b) && Joins(cfg.transitions[j], a, b)
    case NoRoles(a, b) => exists t :: t in cfg.transitions && Joins(t, a, b) && !RolesNamed(t)
    case NoTransitionLabel(a, b) => exists t :: t in cfg.transitions && Joins(t, a, b) && Blank(t.title)
    case BadConnector(a, b) => exists t :: t in cfg.transitions && Joins(t, a, b) && !ConnectorsNamed(t)
    case TerminalHasExit(k) => IsTerminal(cfg, k) && exists b :: Edge(cfg.transitions, k, b)
    case InitialIsTerminal => IsTerminal(cfg, cfg.initial)
    case NoExit(k) => IsStage(cfg, k) && !IsTerminal(cfg, k) && forall b :: !Edge(cfg.transitions, k, b)
    case Unreachable(ks) =>
      ks != {} && forall k :: k in ks <==> IsStage(cfg, k) && !Reaches(cfg.transitions, cfg.initial, k)
    case DeadEnds(ks) =>
      ks != {} && forall k :: k in ks <==> IsStage(cfg, k) && !CanFinish(cfg, k)
  }

  predicate Joins(t: Transition, a: Key, b: Key) {
    t.source == a && t.target == b
  }

  ghost predicate Repeats(defs: seq<ApprovalDef>, k: Key) {
    exists i, j :: 0 <= i < j < |defs| && defs[i].key == defs[j].key == k
  }

  lemma LongPathsLeave(ts: seq<Transition>, p: seq<Key>)
    ensures IsPath(ts, p) && |p| > 1 ==> exists b :: Edge(ts, p[0], b)
  {
    if IsPath(ts, p) && |p| > 1 {
      assert Edge(ts, p[1 - 1], p[1]);
    }
  }

  /** A non-terminal stage without an exit cannot finish: its own check is subsumed by the
      dead-end check. */
  lemma NoExitIsDeadEnd(cfg: Config, k: Key)
    requires !IsTerminal(cfg, k) && forall b :: !Edge(cfg.transitions, k, b)
    ensures !CanFinish(cfg, k)
  {
    forall z, p | PathBetween(cfg.transitions, p, k, z) ensures z == k {
      LongPathsLeave(cfg.transitions, p);
    }
  }

  /** A flawed stage rules the configuration out. */
  lemma FlawsAreUnacceptable(cfg: Config, i: nat, f: StageFlaw)
    requires i < |cfg.stages| && HasFlaw(cfg.fields, cfg.stages[i], f)
    ensures !Acceptable(cfg)
  {
    var s := cfg.stages[i];
    if f.RepeatedApproval? {
      assert !DistinctApprovals(s.approvals);
    } else if f.BadApprovalKey? || f.NoNameOrRole? || f.BadConditionField? || f.BadOperator? {
      var d :| d in s.approvals && d.key == f.key && !ApprovalFits(cfg.fields, d);
      var j :| 0 <= j < |s.approvals| && s.approvals[j] == d;
      assert !ApprovalFits(cfg.fields, cfg.stages[i].approvals[j]);
    } else {
      assert !StageFits(s);
    }
  }

  /** Every defect the validator can report rules the configuration out. */
  lemma DefectsAreUnsound(cfg: Config, d: Defect)
    requires Exhibits(cfg, d)
    ensures !Acceptable(cfg)
  {
    if d.NoExit? {
      NoExitIsDeadEnd(cfg, d.key);
    } else if d.BadStage? {
      var i :| 0 <= i < |cfg.stages| && cfg.stages[i].key == d.key && HasFlaw(cfg.fields, cfg.stages[i], d.flaw);
      FlawsAreUnacceptable(cfg, i, d.flaw);
    } else {
      assert !Sound(cfg);
    }
  }

  /** The least closed set around the initial stage is what it reaches. */
  lemma GrowFindsReachable(cfg: Config, adj: map<Key, set<Key>>, found: set<Key>)
    requires IsStage(cfg, cfg.initial)
    requires TransitionsFit(cfg)
    requires KeysOf(cfg, adj.Keys) && Forward(cfg.transitions, adj)
    requires cfg.initial in found && found <= adj.Keys && Closed(adj, found)
    requires forall s :: Members([cfg.initial]) <= s && Closed(adj, s) ==> found <= s
    ensures forall k :: k in found <==> IsStage(cfg, k) && Reaches(cfg.transitions, cfg.initial, k)
  {
    var ts := cfg.transitions;
    var s := set k | k in adj && Reaches(ts, cfg.initial, k);
    ReachesItself(ts, cfg.initial);
    EdgesStayInside(cfg);
    forall a, b | a in s && a in adj && b in adj[a] ensures b in s {
      ReachesThen(ts, cfg.initial, a, b);
      assert Edge(ts, a, b);
    }
    assert Members([cfg.initial]) <= s && Closed(adj, s);
    forall k | Reaches(ts, cfg.initial, k) ensures k in found {
      var p :| PathBetween(ts, p, cfg.initial, k);
      PathStaysIn(ts, found, p, |p| - 1);
    }
  }

  /** The least set closed backwards around the terminal stages is what can finish. */
  lemma GrowFindsFinishing(cfg: Config, adj: map<Key, set<Key>>, seed: seq<Key>, found: set<Key>)
    requires TransitionsFit(cfg)
    requires KeysOf(cfg, adj.Keys) && Backward(cfg.transitions, adj)
    requires TerminalsOf(cfg, seed)
    requires Members(seed) <= found <= adj.Keys && Closed(adj, found)
    requires forall s :: Members(seed) <= s && Closed(adj, s) ==> found <= s
    ensures forall k :: k in found <==> IsStage(cfg, k) && CanFinish(cfg, k)
  {
    var ts := cfg.transitions;
    var s := set k | k in adj && CanFinish(cfg, k);
    forall k | k in seed ensures k in s {
      ReachesItself(ts, k);
    }
    forall a, b | b in s && b in adj && a in adj[b] ensures a in s {
      var z :| IsTerminal(cfg, z) && Reaches(ts, b, z);
      ReachesFrom(ts, a, b, z);
    }
    assert Members(seed) <= s && Closed(adj, s);
    forall k | CanFinish(cfg, k) ensures k in found {
      var z :| IsTerminal(cfg, z) && Reaches(ts, k, z);
      var p :| PathBetween(ts, p, k, z);
      BackAlongPath(cfg, adj, found, p, 0);
    }
  }

  lemma {:induction false} BackAlongPath(cfg: Config, adj: map<Key, set<Key>>, found: set<Key>, p: seq<Key>, i: nat)
    requires Backward(cfg.transitions, adj)
    requires found <= adj.Keys && Closed(adj, found)
    requires IsPath(cfg.transitions, p) && i < |p| && p[|p| - 1] in found
    ensures p[i] in found
    decreases |p| - i
  {
    if i < |p| - 1 {
      BackAlongPath(cfg, adj, found, p, i + 1);
      assert Edge(cfg.transitions, p[i], p[i + 1]);
    }
  }

  /** The stage loop: the keys seen and the terminal ones among them, or the first defect. */
  method CheckStages(cfg: Config) returns (keys: set<Key>, terminals: seq<Key>, r: Option<Defect>)
    ensures r == None <==> StagesChecked(cfg, |cfg.stages|)
    ensures r == None ==> KeysOf(cfg, keys) && TerminalsOf(cfg, terminals)
    ensures r.Some? ==> Exhibits(cfg, r.value)
  {
    keys, terminals, r := {}, [], None;
    for n := 0 to |cfg.stages|
      invariant forall k :: k in keys <==> exists i :: 0 <= i < n && cfg.stages[i].key == k
      invariant forall k :: k in terminals <==>
        exists i :: 0 <= i < n && cfg.stages[i].key == k && cfg.stages[i].terminal
      invariant StagesChecked(cfg, n)
    {
      var stage := cfg.stages[n];
      if !ValidKey(stage.key) {
        return keys, terminals, Some(BadKey(stage.key));
      }
      if stage.key in keys {
        return keys, terminals, Some(DuplicateStage(stage.key));
      }
      ghost var before := terminals;
      keys := keys + {stage.key};
      if stage.terminal {
        terminals := terminals + [stage.key];
      }
      assert forall k :: k in terminals <==> k in before || (stage.terminal && k == stage.key);
      var flaw := CheckStage(cfg.fields, stage);
      if flaw.Some? {
        return keys, terminals, Some(BadStage(stage.key, flaw.value));
      }
    }
  }

  ghost predicate StageChecked(fields: set<Key>, s: Stage) {
    && StageFits(s) && DistinctApprovals(s.approvals)
    && forall j :: 0 <= j < |s.approvals| ==> ApprovalFits(fields, s.approvals[j])
  }

  /** The first n stages pass their checks. */
  ghost predicate StagesChecked(cfg: Config, n: nat)
    requires n <= |cfg.stages|
  {
    && (forall i :: 0 <= i < n ==> ValidKey(cfg.stages[i].key) && StageChecked(cfg.fields, cfg.stages[i]))
    && (forall i, j :: 0 <= i < j < n ==> cfg.stages[i].key != cfg.stages[j].key)
  }

  /** The checks on one stage: none fails, or the first that does. */
  method CheckStage(fields: set<Key>, s: Stage) returns (r: Option<StageFlaw>)
    ensures r == None <==> StageChecked(fields, s)
    ensures r.Some? ==> HasFlaw(fields, s, r.value)
  {
    if Blank(s.title) {
      return Some(NoLabel);
    }
    if !s.terminal {
      if Blank(s.role) {
        return Some(NoRole);
      }
      if exists i :: 0 <= i < |s.skills| && Blank(s.skills[i]) {
        return Some(BlankSkill);
      }
      if s.sla < 0 {
        return Some(NegativeSla);
      }
    }
    r := CheckApprovals(fields, s);
  }

  method CheckApprovals(fields: set<Key>, s: Stage) returns (r: Option<StageFlaw>)
    ensures r == None <==>
      DistinctApprovals(s.approvals) && forall j :: 0 <= j < |s.approvals| ==> ApprovalFits(fields, s.approvals[j])
    ensures r.Some? ==> HasFlaw(fields, s, r.value)
  {
    var seen: set<Key> := {};
    for n := 0 to |s.approvals|
      invariant forall k :: k in seen <==> exists i :: 0 <= i < n && s.approvals[i].key == k
      invariant forall i, j :: 0 <= i < j < n ==> s.approvals[i].key != s.approvals[j].key
      invariant forall j :: 0 <= j < n ==> ApprovalFits(fields, s.approvals[j])
    {
      var d := s.approvals[n];
      assert d in s.approvals;
      if !ValidKey(d.key) {
        return Some(BadApprovalKey(d.key));
      }
      if d.key in seen {
        return Some(RepeatedApproval(d.key));
      }
      seen := seen + {d.key};
      if d.name == "" || d.role == "" {
        return Some(NoNameOrRole(d.key));
      }
      if d.condition.Some? {
        if d.condition.value.field !in fields {
          return Some(BadConditionField(d.key));
        }
        if d.condition.value.operator !in APPROVAL_OPERATORS {
          return Some(BadOperator(d.key));
        }
      }
    }
    return None;
  }

  method CheckTransitionText(t: Transition) returns (r: Option<Defect>)
    ensures r == None <==> TransitionText(t)
    ensures r.Some? ==> forall cfg: Config :: t in cfg.transitions ==> Exhibits(cfg, r.value)
  {
    assert Joins(t, t.source, t.target);
    if !RolesNamed(t) {
      return Some(NoRoles(t.source, t.target));
    }
    if Blank(t.title) {
      return Some(NoTransitionLabel(t.source, t.target));
    }
    if !ConnectorsNamed(t) {
      return Some(BadConnector(t.source, t.target));
    }
    return None;
  }

  /** The transition loop. */
  method CheckTransitions(cfg: Config, keys: set<Key>, terminals: seq<Key>) returns (r: Option<Defect>)
    requires KeysOf(cfg, keys)
    requires TerminalsOf(cfg, terminals)
    ensures r == None <==> TransitionsFit(cfg) && DistinctTransitions(cfg.transitions)
    ensures r.Some? ==> Exhibits(cfg, r.value)
  {
    var ts := cfg.transitions;
    var seen: set<(Key, Key)> := {};
    for n := 0 to |ts|
      invariant forall a, b :: (a, b) in seen <==> exists i :: 0 <= i < n && Joins(ts[i], a, b)
      invariant forall i :: 0 <= i < n ==> TransitionFits(cfg, ts[i])
      invariant forall i, j :: 0 <= i < j < n ==> ts[i].source != ts[j].source || ts[i].target != ts[j].target
    {
      var t := ts[n];
      assert t in ts && Joins(t, t.source, t.target) && Edge(ts, t.source, t.target);
      if t.source !in keys || t.target !in keys {
        return Some(UnknownEndpoint(t.source, t.target));
      }
      if (t.source, t.target) in seen {
        return Some(DuplicateTransition(t.source, t.target));
      }
      seen := seen + {(t.source, t.target)};
      var text := CheckTransitionText(t);
      if text.Some? {
        return text;
      }
      if t.source in terminals {
        return Some(TerminalHasExit(t.source));
      }
    }
    return None;
  }

  /** The adjacency maps `outgoing` and `reverse`. */
  method BuildGraph(cfg: Config, keys: set<Key>) returns (outgoing: map<Key, set<Key>>, reverse: map<Key, set<Key>>)
    requires TransitionsFit(cfg) && KeysOf(cfg, keys)
    ensures outgoing.Keys == keys == reverse.Keys
    ensures Forward(cfg.transitions, outgoing) && Backward(cfg.transitions, reverse)
  {
    outgoing := map k | k in keys :: {};
    reverse := map k | k in keys :: {};
    for n := 0 to |cfg.transitions|
      invariant outgoing.Keys == keys == reverse.Keys
      invariant Forward(cfg.transitions[..n], outgoing) && Backward(cfg.transitions[..n], reverse)
    {
      var t := cfg.transitions[n];
      assert TransitionFits(cfg, t);
      EdgesGrow(cfg.transitions[..n], t);
      assert cfg.transitions[..n + 1] == cfg.transitions[..n] + [t];
      outgoing := Link(outgoing, t.source, t.target);
      reverse := Link(reverse, t.target, t.source);
    }
    assert cfg.transitions[..|cfg.transitions|] == cfg.transitions;
  }

  function Link(adj: map<Key, set<Key>>, a: Key, b: Key): (r: map<Key, set<Key>>)
    requires a in adj
    ensures r.Keys == adj.Keys
    ensures forall k, x :: k in adj ==> (x in r[k] <==> x in adj[k] || (k == a && x == b))
  {
    adj[a := adj[a] + {b}]
  }

  lemma EdgesGrow(ts: seq<Transition>, t: Transition)
    ensures forall a, b :: Edge(ts + [t], a, b) <==> Edge(ts, a, b) || Joins(t, a, b)
  {
    forall a, b ensures Edge(ts + [t], a, b) <==> Edge(ts, a, b) || Joins(t, a, b) {
      if Edge(ts, a, b) {
        var u :| u in ts && u.source == a && u.target == b;
        assert u in ts + [t];
      }
      if Joins(t, a, b) {
        assert t in ts + [t];
      }
    }
  }

  /** Accepts exactly the acceptable configurations, and what it reports is there. */
  method Validate(cfg: Config) returns (r: Option<Defect>)
    ensures r == None <==> Acceptable(cfg)
    ensures r.Some? ==> Exhibits(cfg, r.value)
  {
    if |cfg.stages| < 2 {
      return Some(TooFewStages);
    }
    var keys, terminals, defect := CheckStages(cfg);
    if defect.Some? {
      DefectsAreUnsound(cfg, defect.value);
      return defect;
    }
    if cfg.initial !in keys {
      return Some(UnknownInitial);
    }
    if |terminals| < 1 {
      return Some(NoTerminal);
    }
    assert IsTerminal(cfg, terminals[0]);
    if cfg.transitions == [] {
      return Some(NoTransitions);
    }
    defect := CheckTransitions(cfg, keys, terminals);
    if defect.Some? {
      return defect;
    }
    if cfg.initial in terminals {
      return Some(InitialIsTerminal);
    }
    r := CheckGraph(cfg, keys, terminals);
  }

  /** The part that walks the graph. */
  method CheckGraph(cfg: Config, keys: set<Key>, terminals: seq<Key>) returns (r: Option<Defect>)
    requires WellShaped(cfg) && KeysOf(cfg, keys) && TerminalsOf(cfg, terminals)
    ensures r == None <==> AllReachable(cfg) && AllFinish(cfg)
    ensures r.Some? ==> Exhibits(cfg, r.value)
  {
    var outgoing, reverse := BuildGraph(cfg, keys);
    for n := 0 to |cfg.stages| {
      var stage := cfg.stages[n];
      if !stage.terminal && outgoing[stage.key] == {} {
        OneTerminalFlag(cfg, n);
        NoExitIsDeadEnd(cfg, stage.key);
        return Some(NoExit(stage.key));
      }
    }
    EdgesStayInside(cfg);
    r := CheckReachable(cfg, keys, outgoing);
    if r == None {
      r := CheckFinishing(cfg, keys, terminals, reverse);
    }
  }

  lemma OneTerminalFlag(cfg: Config, n: nat)
    requires DistinctStages(cfg) && n < |cfg.stages|
    ensures IsTerminal(cfg, cfg.stages[n].key) <==> cfg.stages[n].terminal
  {
  }

  /** The forward walk. */
  method CheckReachable(cfg: Config, keys: set<Key>, outgoing: map<Key, set<Key>>) returns (r: Option<Defect>)
    requires IsStage(cfg, cfg.initial)
    requires TransitionsFit(cfg)
    requires KeysOf(cfg, keys)
    requires outgoing.Keys == keys && Forward(cfg.transitions, outgoing)
    ensures r == None <==> AllReachable(cfg)
    ensures r.Some? ==> Exhibits(cfg, r.value)
  {
    EdgesStayInside(cfg);
    var reachable := Grow(outgoing, [cfg.initial]);
    assert cfg.initial in Members([cfg.initial]);
    GrowFindsReachable(cfg, outgoing, reachable);
    var unreachable := keys - reachable;
    if unreachable == {} {
      NothingLeft(keys, reachable);
      return None;
    }
    NonEmpty(unreachable);
    return Some(Unreachable(unreachable));
  }

  /** The backward walk. */
  method CheckFinishing(cfg: Config, keys: set<Key>, terminals: seq<Key>, reverse: map<Key, set<Key>>)
    returns (r: Option<Defect>)
    requires TransitionsFit(cfg)
    requires KeysOf(cfg, keys)
    requires TerminalsOf(cfg, terminals)
    requires reverse.Keys == keys && Backward(cfg.transitions, reverse)
    ensures r == None <==> AllFinish(cfg)
    ensures r.Some? ==> Exhibits(cfg, r.value)
  {
    EdgesStayInside(cfg);
    TerminalsAreStages(cfg);
    var canFinish := Grow(reverse, terminals);
    GrowFindsFinishing(cfg, reverse, terminals, canFinish);
    var deadEnds := keys - canFinish;
    if deadEnds == {} {
      NothingLeft(keys, canFinish);
      return None;
    }
    NonEmpty(deadEnds);
    return Some(DeadEnds(deadEnds));
  }

  lemma EdgesStayInside(cfg: Config)
    requires TransitionsFit(cfg)
    ensures forall a, b :: Edge(cfg.transitions, a, b) ==> IsStage(cfg, a) && IsStage(cfg, b)
  {
  }

  lemma TerminalsAreStages(cfg: Config)
    ensures forall k :: IsTerminal(cfg, k) ==> IsStage(cfg, k)
  {
  }

  lemma NothingLeft<T>(a: set<T>, b: set<T>)
    requires a - b == {}
    ensures forall x :: x in a ==> x in b
  {
    forall x | x in a ensures x in b {
      assert x in b || x in a - b;
    }
  }

  lemma NonEmpty<T>(s: set<T>)
    requires s != {}
    ensures exists x :: x in s
  {
  }

  // ---------------------------------------------------------------- short ways out

  ghost predicate NoRepeat(p: seq<Key>) {
    forall i, j :: 0 <= i < j < |p| ==> p[i] != p[j]
  }

  /** Cutting the cycles out of a path. */
  lemma {:induction false} CutCycles(ts: seq<Transition>, p: seq<Key>, a: Key, b: Key) returns (q: seq<Key>)
    requires PathBetween(ts, p, a, b)
    ensures PathBetween(ts, q, a, b) && NoRepeat(q)
    decreases |p|
  {
    if NoRepeat(p) {
      q := p;
    } else {
      var i, j :| 0 <= i < j < |p| && p[i] == p[j];
      var shorter := p[..i] + p[j..];
      CutOne(ts, p, i, j);
      q := CutCycles(ts, shorter, a, b);
    }
  }

  lemma CutOne(ts: seq<Transition>, p: seq<Key>, i: nat, j: nat)
    requires IsPath(ts, p) && i < j < |p| && p[i] == p[j]
    ensures var q := p[..i] + p[j..]; IsPath(ts, q) && q[0] == p[0] && q[|q| - 1] == p[|p| - 1]
  {
    var q := p[..i] + p[j..];
    forall n | 0 < n < |q| ensures Edge(ts, q[n - 1], q[n]) {
      if n < i {
        assert q[n - 1] == p[n - 1] && q[n] == p[n];
      } else if n == i {
        assert q[n - 1] == p[i - 1] && q[n] == p[j] == p[i];
        assert Edge(ts, p[i - 1], p[i]);
      } else {
        assert q[n] == p[n + (j - i)] && q[n - 1] == p[n + (j - i) - 1];
      }
    }
  }

  lemma {:induction false} NoRepeatFits(p: seq<Key>, keys: set<Key>)
    requires NoRepeat(p) && forall i :: 0 <= i < |p| ==> p[i] in keys
    ensures |p| <= |keys|
  {
    if p != [] {
      var last := p[|p| - 1];
      NoRepeatFits(p[..|p| - 1], keys - {last});
    }
  }

  lemma {:induction false} FewKeys(stages: seq<Stage>) returns (keys: set<Key>)
    ensures forall i :: 0 <= i < |stages| ==> stages[i].key in keys
    ensures |keys| <= |stages|
  {
    keys := {};
    if stages != [] {
      var rest := FewKeys(stages[1..]);
      keys := rest + {stages[0].key};
      forall i | 0 <= i < |stages| ensures stages[i].key in keys {
        assert i > 0 ==> stages[i] == stages[1..][i - 1];
      }
    }
  }

  /** From every stage of a sound configuration a terminal one is at most |stages| - 1
      transitions away. */
  lemma ShortWayOut(cfg: Config, k: Key) returns (p: seq<Key>)
    requires Sound(cfg) && IsStage(cfg, k)
    ensures IsPath(cfg.transitions, p) && p[0] == k && IsTerminal(cfg, p[|p| - 1])
    ensures |p| - 1 <= |cfg.stages| - 1
  {
    assert CanFinish(cfg, k);
    var z :| IsTerminal(cfg, z) && Reaches(cfg.transitions, k, z);
    var long :| PathBetween(cfg.transitions, long, k, z);
    p := CutCycles(cfg.transitions, long, k, z);
    var keys := FewKeys(cfg.stages);
    EdgesStayInside(cfg);
    forall i | 0 <= i < |p| ensures p[i] in keys {
      assert i > 0 ==> Edge(cfg.transitions, p[i - 1], p[i]);
      assert IsStage(cfg, p[i]);
    }
    NoRepeatFits(p, keys);
  }
}
