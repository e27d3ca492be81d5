/** The workflow configuration a case captures, and the conditions evaluated on its fields. */
module WorkflowModel {
  import opened Common
  import opened Calendar

  /** A JSON value, seen through the four observations the engine makes of it: equality class,
      truth value, float() reading (None when float() raises) and case-folded str() text. */
  datatype Json = Json(eqClass: int, truthy: bool, number: Option<real>, text: string, items: seq<int>)

  /** What a missing field reads as. */
  const NULL := Json(0, false, None, "none", [])

  datatype Operator = Eq | Neq | Truthy | Falsy | Gte | Gt | Lte | Lt | Contains | In | Unsupported

  datatype Condition = Condition(field: Key, operator: Operator, expected: Json)

  datatype ApprovalDef = ApprovalDef(key: Key, name: string, role: string, condition: Option<Condition>)

  /** A setting read with float(): missing, not a number, or a duration. */
  datatype Setting = Missing | Unreadable | Of(duration: int)

  datatype Stage = Stage(key: Key, title: string, terminal: bool, role: string, skills: seq<string>,
                         sla: int, warning: Setting, approvals: seq<ApprovalDef>)

  datatype Transition = Transition(source: Key, target: Key, title: string, roles: seq<string>,
                                   requiresApprovals: bool, requiresChildren: bool, connectors: seq<Key>)

  /** `fields` are the keys of the intake fields, `reassign` the role an escalation level hands
      the case to. */
  datatype Config = Config(initial: Key, fields: set<Key>, stages: seq<Stage>, transitions: seq<Transition>,
                           totalSla: int, warning: Setting, reassign: map<nat, string>,
                           calendar: Option<Hours>, ruleSets: seq<Key>)

  predicate IsStage(cfg: Config, k: Key) {
    exists i :: 0 <= i < |cfg.stages| && cfg.stages[i].key == k
  }

  /** The position of the first stage with key k, or |stages|. */
  function FindStage(stages: seq<Stage>, k: Key): (i: nat)
    ensures i <= |stages|
    ensures forall j :: 0 <= j < i ==> stages[j].key != k
    ensures i < |stages| ==> stages[i].key == k
  {
    if stages == [] || stages[0].key == k then 0 else
      var i := FindStage(stages[1..], k);
      assert forall j :: 0 < j < i + 1 ==> stages[j] == stages[1..][j - 1];
      i + 1
  }

  function StageOf(cfg: Config, k: Key): Option<Stage> {
    var i := FindStage(cfg.stages, k);
    if i < |cfg.stages| then Some(cfg.stages[i]) else None
  }

  /** The first configured transition between two stages. */
  function FindTransition(ts: seq<Transition>, source: Key, target: Key): (r: Option<Transition>)
    ensures r.Some? ==> r.value in ts && r.value.source == source && r.value.target == target
    ensures r == None ==> forall t :: t in ts ==> t.source != source || t.target != target
  {
    if ts == [] then None
    else if ts[0].source == source && ts[0].target == target then Some(ts[0])
    else FindTransition(ts[1..], source, target)
  }

  const APPROVAL_OPERATORS: set<Operator> := {Truthy, Eq, Gte, Lte, Contains}

  /** _condition_matches: no condition always matches; what raises, or is not one of the five
      operators an approval may use, never does. */
  predicate ApprovalApplies(def: ApprovalDef, fields: map<Key, Json>) {
    def.condition == None ||
    var c := def.condition.value;
    var actual := if c.field in fields then fields[c.field] else NULL;
    c.operator in APPROVAL_OPERATORS && Holds(c.operator, actual, c.expected)
  }

  predicate Holds(op: Operator, actual: Json, expected: Json) {
    match op
    case Eq => actual.eqClass == expected.eqClass
    case Neq => actual.eqClass != expected.eqClass
    case Truthy => actual.truthy
    case Falsy => !actual.truthy
    case Gte => actual.number.Some? && expected.number.Some? && actual.number.value >= expected.number.value
    case Gt => actual.number.Some? && expected.number.Some? && actual.number.value > expected.number.value
    case Lte => actual.number.Some? && expected.number.Some? && actual.number.value <= expected.number.value
    case Lt => actual.number.Some? && expected.number.Some? && actual.number.value < expected.number.value
    case Contains => Within(expected.text, actual.text)
    case In => actual.eqClass in expected.items
    case Unsupported => false
  }

  /** What the operators mean: equality by class; truth; numbers compared only when both can be
      read; one text inside the other; membership. Each but the last comes with its opposite. */
  lemma OperatorsMean(actual: Json, expected: Json)
    ensures Holds(Eq, actual, actual) && (Holds(Eq, actual, expected) <==> Holds(Eq, expected, actual))
    ensures Holds(Neq, actual, expected) != Holds(Eq, actual, expected)
    ensures Holds(Falsy, actual, expected) != Holds(Truthy, actual, expected)
    ensures Holds(Truthy, actual, expected) <==> actual.truthy
    ensures actual.eqClass != expected.eqClass ==> !Holds(Eq, actual, expected)
    ensures forall x: real, y: real :: actual.number == Some(x) && expected.number == Some(y) ==>
      && (Holds(Gte, actual, expected) <==> x >= y) && (Holds(Lte, actual, expected) <==> x <= y)
      && (Holds(Gt, actual, expected) <==> x > y) && (Holds(Lt, actual, expected) <==> x < y)
    ensures actual.number == None || expected.number == None ==>
      forall op :: op in {Gte, Gt, Lte, Lt} ==> !Holds(op, actual, expected)
    ensures Holds(Contains, actual, expected) <==>
      exists before, after :: before + expected.text + after == actual.text
    ensures Holds(In, actual, expected) <==>
      exists i :: 0 <= i < |expected.items| && expected.items[i] == actual.eqClass
    ensures !Holds(Unsupported, actual, expected)
  {
    WithinMeans(expected.text, actual.text);
  }

  lemma {:induction false} WithinMeans(needle: string, hay: string)
    ensures Within(needle, hay) <==> exists before, after :: before + needle + after == hay
  {
    if needle <= hay {
      assert "" + needle + hay[|needle|..] == hay;
    } else if hay != [] {
      WithinMeans(needle, hay[1..]);
      if before, after :| before + needle + after == hay[1..] {
        assert ([hay[0]] + before) + needle + after == hay;
      }
      if before, after :| before + needle + after == hay {
        assert before != "" by {
          assert needle + after == hay ==> needle <= hay;
        }
        assert before[1..] + needle + after == hay[1..];
      }
    }
  }

  /** An approval with a threshold is asked for exactly when the field is there, can be read as a
      number and reaches it; one without a condition always; one whose condition uses another
      operator than the five never. */
  lemma ThresholdApproval(d: ApprovalDef, fields: map<Key, Json>, c: Condition, limit: real)
    requires d.condition == Some(c) && c.expected.number == Some(limit)
    ensures c.operator == Gte ==>
      (ApprovalApplies(d, fields) <==>
         c.field in fields && fields[c.field].number.Some? && fields[c.field].number.value >= limit)
    ensures c.operator == Lte ==>
      (ApprovalApplies(d, fields) <==>
         c.field in fields && fields[c.field].number.Some? && fields[c.field].number.value <= limit)
    ensures c.operator in {Truthy, Eq, Contains} && c.field in fields ==>
      (ApprovalApplies(d, fields) <==> Holds(c.operator, fields[c.field], c.expected))
    ensures c.operator !in {Truthy, Eq, Gte, Lte, Contains} ==> !ApprovalApplies(d, fields)
    ensures ApprovalApplies(d.(condition := None), fields)
  {
  }

  /** Python's substring test. */
  predicate Within(needle: string, hay: string) {
    needle <= hay || (hay != [] && Within(needle, hay[1..]))
  }

  /** warning_window_hours: never negative, four hours when the setting cannot be read. */
  function WarningWindow(cfg: Config, stage: Stage): int {
    var chosen := if stage.warning == Missing then cfg.warning else stage.warning;
    match chosen
    case Missing => 4 * HOUR
    case Unreadable => 4 * HOUR
    case Of(d) => if d > 0 then d else 0
  }
}
