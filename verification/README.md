# Workflow case manager: a verified model of the service layer

The application runs configurable workflows: cases move through the stages of a captured
configuration, gated by approvals and child cases, timed by service-level deadlines on a business
calendar, recorded in a hash-linked activity log, with background work in a durable outbox. This
project models that service layer in Dafny and proves what it promises over whole runs.

| File | Models |
|---|---|
| `Calendar.dfy`, `ServiceHours.dfy` | business-calendar arithmetic: the day search and the loop that spends hours |
| `WorkflowModel.dfy`, `WorkflowGraph.dfy` | the captured configuration and the graph validator with its two worklists |
| `Rules.dfy` | declarative rules and what they do to the snapshot of a new case |
| `Lifecycle.dfy` | every case operation as a step of a state machine over cases, approvals, relations and the event log |
| `LifecycleInvariant.dfy`, `LifecycleRuns.dfy`, `LifecycleSla.dfy`, `LifecycleAssignment.dfy`, `Progress.dfy` | what every step keeps, and what holds over whole runs |
| `LifecycleLaws.dfy`, `LifecycleScanLaws.dfy` | what each operation promises, on columns and numbers: who may do it, what it leaves, what it leaves alone |
| `LifecycleRows.dfy` | the same operations on mutable rows, refined to the state machine |
| `ProcessReplay.dfy` | process intelligence: replaying the events gives back the case |
| `Outbox.dfy`, `OutboxBatch.dfy` | the lease / dispatch / commit protocol with crashes, and one batch of it |
| `AuditChain.dfy`, `AuditCodec.dfy` | the hash chain: appending, verifying, and what verification can see; a codec that meets its assumptions |
| `Revisions.dfy`, `RevisionRows.dfy` | draft, publish and import governance, on values and on mutable rows |
| `Assignment.dfy` | capacity-aware assignment |

Two kinds of results. The run theorems say what holds whatever is done. The laws of single
operations say what each of them does, in terms of row columns and numbers, so that a run theorem
cannot be met by an operation that does less: a rejection is recorded as one and closes the gate
from then on (`LifecycleLaws.RejectionCloses`), a failed job is retried after 2, 4, 8, 16, 32 and 60
seconds (`Outbox.FailureLeaves`), what is published is the draft (`Revisions.PublishesTheDraft`).

How the pieces fit. A `Session` operation on rows (`LifecycleRows`) is equal to a step of
`Lifecycle`; every run of such steps keeps `LifecycleInvariant.Inv`; the run theorems follow from
it. Case creation there really validates (`WorkflowGraph.Validate`) and really evaluates the rules
(`Rules.EvaluateRuleSets`), deadlines are those of `ServiceHours`, and every choice of an assignee is
`Assignment.SelectAssignee` on the cases open at that moment. So `Progress.CanBeCompleted`
rests on the validator's two walks, on rules keeping a snapshot sound, on the approval gate and on
the termination of the calendar arithmetic.

Findings, each with its exact condition:

- Calendar arithmetic need not return. It returns exactly when the calendar opens before it closes
  and no open day that closes before the hours are spent is followed by 369 days without an open
  one (`ServiceHours.FinishesIffCanServe`). Fewer than 52 holidays are enough, 52 are not
  (`FewHolidaysAlwaysServe`, `FiftyTwoHolidaysCanHang`). A configured calendar can have an empty
  window exactly when it opens at 17:00 or later and not before its configured closing
  (`Calendar.CalendarConfig`).
- Enqueueing with a dedupe key is idempotent exactly for keys of at most 180 characters: the lookup
  uses the whole key, the row stores the first 180 (`Outbox.DedupeIsIdempotentIff`).
- Importing a version held by the pending draft leaves a workflow without a published revision;
  any other import above the current version keeps the governance invariant
  (`Revisions.ImportKeepsIff`, `Revisions.ImportOverDraftBreaks`).
- Deleting an audit entry goes unnoticed exactly when it is the last one
  (`AuditChain.DeletionUnnoticedIffLast`).
- The snapshot of a validated configuration always keeps its graph sound, but rules are not checked
  for what they ask for: it passes the whole validation again exactly when every approval that a
  fired rule is the first to ask for has a valid key, a name and a role
  (`Rules.SnapshotAcceptableIff`, `Rules.BadKeySpoilsSnapshot`).
- A completed case can still be given to somebody, and nothing else about it can change
  (`LifecycleRuns.CompletedIsForEver`).

Conventions. Instants and durations are whole milliseconds on one wall-clock line, day 0 is a
Monday. An operation that raises leaves the tables unchanged. The clock is part of the state and
never goes back; a run is a sequence of operations with the time waited before each. `NeverReturns`
is the model's name for an operation whose deadline computation does not return. `SHA-256` and the
JSON encoding are functions assumed injective, as `AuditChain.Trusted` spells out.

## Model

| member | source | states |
|---|---|---|
| `Calendar.CalendarConfig` | app/services/calendar_sla.py:21-43 | the calendar read from a raw block: weekdays, parsed holidays, defaults; usable exactly when it opens before 17:00 or before its configured closing |
| `Calendar.FindNextOpen` | app/services/calendar_sla.py:50-66 | the 370-day search loop computes the search function |
| `Calendar.NextOpenOutcome` | app/services/calendar_sla.py:50-66 | the search finds the first usable day among the 370 or falls through with its argument unchanged and no open day in the next 369 |
| `Calendar.NothingSkipped` | app/services/calendar_sla.py:50-66 | no open instant lies between the argument of the search and its result |
| `Calendar.DueIsLeast` | app/services/calendar_sla.py:69-88 | the promised instant is the least by which the requested open time has passed |
| `Calendar.DueIsUnique` | app/services/calendar_sla.py:69-88 | there is only one such instant |
| `Calendar.DueLiesInWindow` | app/services/calendar_sla.py:82-85 | it lies on an open day, after opening and not after closing |
| `ServiceHours.AddServiceHours` | app/services/calendar_sla.py:69-88 | the loop returns nothing for no hours and otherwise the instant at which exactly the requested open time has passed |
| `ServiceHours.StepKeepsTheAccount` | app/services/calendar_sla.py:78-87 | on any calendar, each iteration keeps time left plus open time passed equal to the hours asked for, unless the walk can never end |
| `ServiceHours.ReturnsTheDueInstant` | app/services/calendar_sla.py:78-88 | on any calendar, whatever the loop returns is the promised instant |
| `ServiceHours.FinishesIffCanServe` | app/services/calendar_sla.py:50-88 | the call returns if and only if the window is not empty and no gap of 369 days comes before the hours are spent |
| `ServiceHours.NeverCrossesGap` | app/services/calendar_sla.py:78-87 | after the last open day before such a gap the loop stays where it is for ever |
| `ServiceHours.FewHolidaysLeaveNoGap` | app/services/calendar_sla.py:46-66 | with fewer than 52 holidays the day search never falls through |
| `ServiceHours.FewHolidaysAlwaysServe` | app/services/calendar_sla.py:69-88 | with an opening before the closing and fewer than 52 holidays every request returns |
| `ServiceHours.FiftyTwoHolidaysCanHang` | app/services/calendar_sla.py:50-88 | for every number of holidays from 52 on there is a calendar on which a request never returns |
| `ServiceHours.IterationBound` | app/services/calendar_sla.py:78-87 | with fewer than 52 holidays the loop returns within ceil(hours / window) + 1 iterations |
| `ServiceHours.Composition` | app/services/calendar_sla.py:69-88 | adding a + b hours is adding b to the result of adding a, also from a closing instant, and one side returns exactly when the other does |
| `ServiceHours.Monotone` | app/services/calendar_sla.py:69-88 | the due instant is monotone in the start and strictly monotone in the hours |
| `WorkflowGraph.Grow` | app/services/workflow_engine.py:235-254 | the worklist computes the least closed set around its seed |
| `WorkflowGraph.GrowFindsReachable` | app/services/workflow_engine.py:235-243 | seeded with the initial stage that set is exactly the stages with a path from it |
| `WorkflowGraph.GrowFindsFinishing` | app/services/workflow_engine.py:247-255 | seeded with the terminal stages, backwards, it is exactly the stages with a path to a terminal one |
| `WorkflowGraph.CheckStages` | app/services/workflow_engine.py:144-181 | the stage loop passes exactly stages with valid, distinct keys that pass their own checks, and then has their keys and the terminal ones; otherwise it reports a bad or repeated key or a flaw that is there |
| `WorkflowGraph.CheckStage` | app/services/workflow_engine.py:155-181 | label, and outside terminal stages role, skills and hours; each approval's key pattern, uniqueness, name, role, condition field and operator: none is flawed, or one that is is reported |
| `WorkflowGraph.CheckTransitions` | app/services/workflow_engine.py:199-221 | the transition loop accepts exactly distinct transitions between known stages, with named roles, a label and valid connector keys, out of non-terminal stages |
| `WorkflowGraph.BuildGraph` | app/services/workflow_engine.py:226-230 | `outgoing` and `reverse` hold exactly the configured edges |
| `WorkflowGraph.Validate` | app/services/workflow_engine.py:141-259 | accepts exactly the acceptable configurations; a reported defect is really there, and the reported unreachable or dead-end stages are exactly those |
| `WorkflowGraph.DefectsAreUnsound` | app/services/workflow_engine.py:141-259 | every reportable defect rules a configuration out |
| `WorkflowGraph.NoExitIsDeadEnd` | app/services/workflow_engine.py:231-233 | the outgoing-transition check is implied by the dead-end check |
| `WorkflowGraph.KeysAreNames` | app/services/workflow_engine.py:27 | a key is two to eighty of a-z, 0-9 and `_`, the first a letter, by itself or before one line feed |
| `WorkflowGraph.ShortWayOut` | app/services/workflow_engine.py:247-257 | in a sound configuration a terminal stage is at most one transition per other stage away |
| `WorkflowModel.FindTransition` | app/services/workflow_engine.py:621-625 | the configured transition between two stages, or none exactly when there is none |
| `WorkflowModel.OperatorsMean` | app/services/rules.py:31-42 | equality, truth, the four numeric comparisons on numbers that can be read, substring and membership |
| `WorkflowModel.ThresholdApproval` | app/services/workflow_engine.py:391-411 | an approval with a threshold is asked for exactly when the field is there, is a number and reaches it; one without a condition always; other operators never |
| `Rules.PreviewRules` | app/services/rules.py:142-155 | the loop computes the rules of a set that fire |
| `Rules.PreviewIsMatchingPrefix` | app/services/rules.py:146-154 | those are the matching rules up to and including the first that stops |
| `Rules.ConditionsMean` | app/services/rules.py:17-43 | a condition reads the case for `case.x` and the intake field otherwise, what is missing reads as null, and holds as its operator says |
| `Rules.EvaluateOneSet` | app/services/rules.py:109-137 | one set fires what its preview says and applies the actions of what fired; stopping is local to the set |
| `Rules.EvaluateRuleSets` | app/services/rules.py:97-139 | over the keys in order, the fired rules are the concatenated previews of the active sets and the result is their actions applied in order |
| `Rules.FiredIsConcatenation` | app/services/rules.py:105-112 | what fires over a list of keys is what fires over its parts, so no set depends on those before it |
| `Rules.FiredByOneSet` | app/services/rules.py:105-112 | an active set fires its own preview, a key without one nothing |
| `Rules.LastActionWins` | app/services/rules.py:114-123 | the last effective priority and role win, the tags are exactly those asked for, each once |
| `Rules.RequiredApprovalsAreAdded` | app/services/rules.py:124-135 | an approval a fired rule requires of an existing stage is in the snapshot |
| `Rules.AddedApprovalsWereRequired` | app/services/rules.py:124-135 | an approval beyond the configured ones was required by a fired rule, with its key, name and role cut to 80, 180 and 80 characters and no condition |
| `Rules.ActionsExtend` | app/services/rules.py:97-139 | the snapshot has the same stages and transitions, every approval list only grows at its end, and no key repeats |
| `Rules.SnapshotStaysSound` | app/services/rules.py:97-139 | the snapshot of a validated configuration still passes the graph checks |
| `Rules.SnapshotAcceptableIff` | app/services/rules.py:124-135 | it passes the whole validation again if and only if every approval a fired rule is the first to ask for would have been accepted |
| `Rules.BadKeySpoilsSnapshot` | app/services/rules.py:124-135 | the failing case exists: one rule asking for an approval whose key is not a key |
| `Rules.LegalReviewIsNoKey` | app/services/rules.py:128-132 | "Legal review" is such a key |
| `LifecycleInvariant.RequestAllEffect` | app/services/workflow_engine.py:484-523 | requesting approvals adds only pending rows of this case and stage, and afterwards every applicable definition has its row |
| `LifecycleInvariant.CreateKeeps` | app/services/workflow_engine.py:526-619 | creating a case keeps the invariant |
| `LifecycleInvariant.TransitionKeeps` | app/services/workflow_engine.py:632-704 | a transition keeps the invariant |
| `LifecycleInvariant.DecideKeeps` | app/services/workflow_engine.py:706-738 | a decision keeps the invariant |
| `LifecycleInvariant.PauseKeeps` | app/services/workflow_engine.py:801-816 | a pause keeps the invariant, in particular pauses never overlap |
| `LifecycleInvariant.ResumeKeeps` | app/services/workflow_engine.py:819-837 | a resume keeps the invariant, in particular the log accounts for the moved deadlines |
| `LifecycleInvariant.ScanKeeps` | app/services/workflow_engine.py:839-922 | the escalation scan keeps the invariant |
| `LifecycleInvariant.RelateKeeps` | app/services/relations.py:16-29 | relating two cases keeps the invariant |
| `LifecycleInvariant.RunKeeps` | app/services/workflow_engine.py:484-922 | every run keeps it: unique approval rows, every applicable approval of the current stage requested, completion exactly at terminal stages, events agreeing with the row |
| `LifecycleRuns.RunLasts` | app/services/workflow_engine.py:53-58 | along every run the captured snapshot and fields of a case never change, decided approvals never change, completed cases change only their assignee, the log only grows |
| `LifecycleRuns.ApprovalGate` | app/services/workflow_engine.py:643-650 | whenever a transition requiring approvals is taken, each applicable approval of the stage left has exactly one row and it is Approved |
| `LifecycleRuns.ChildrenGate` | app/services/workflow_engine.py:651-658 | whenever a transition requiring complete children is taken, each linked child is complete and stays as it is, but for its assignee, for the rest of the run |
| `LifecycleRuns.ChildrenAreComplete` | app/services/workflow_engine.py:651-658 | at the moment such a transition is taken from a reachable world, every linked child is complete |
| `LifecycleRuns.CompletedIsForEver` | app/services/workflow_engine.py:633-634 | a completed case stays as it is, but for its assignee, for the rest of the run |
| `LifecycleRuns.RejectionIsPermanent` | app/services/workflow_engine.py:643-650 | once an approval of a case and stage is rejected, no later step of any run takes a transition requiring approvals out of that stage |
| `LifecycleLaws.DecisionAcceptedIff` | app/services/workflow_engine.py:707-712 | a decision is accepted exactly on a pending row, from an administrator or the role asked for, as Approved or Rejected |
| `LifecycleLaws.DecisionIsRecorded` | app/services/workflow_engine.py:713-731 | in every reachable world it is recorded as made, with who and when, and every other row and case is as it was |
| `LifecycleLaws.RejectionCloses` | app/services/workflow_engine.py:643-650 | from an accepted rejection on, no continuation of the run takes a transition requiring approvals out of that stage of that case |
| `LifecycleLaws.TransitionAcceptedIff` | app/services/workflow_engine.py:633-658 | in every reachable world a transition is accepted exactly when the case is open, it is configured, the actor is an administrator or in its roles, approvals and children are as it asks, and the next deadline can be computed |
| `LifecycleLaws.TransitionLeaves` | app/services/workflow_engine.py:660-700 | the row just entered: stage, moment, level, warning and pause reset, completion and timeliness or the promised stage deadline; other cases, relations and earlier approvals as they were; the event first in the log |
| `LifecycleLaws.DeadlineIsPromised` | app/services/calendar_sla.py:69-96 | a deadline is none for no hours, plain elapsed time without a calendar, and otherwise the end of the last open millisecond asked for |
| `LifecycleLaws.CreationLeaves` | app/services/workflow_engine.py:570-617 | the row just created: snapshot, fields, initial stage, moment and both promised deadlines; everything else as it was |
| `LifecycleLaws.RequestsAreExact` | app/services/workflow_engine.py:484-523 | exactly the definitions that apply and had no row get one, pending and for their role, each with its event; nothing else is added |
| `LifecycleLaws.PauseAcceptedIff` | app/services/workflow_engine.py:803-812 | who may pause what |
| `LifecycleLaws.PauseLeaves` | app/services/workflow_engine.py:811-816 | a pause leaves its moment and the first 200 characters of its reason, and both deadlines as they were |
| `LifecycleLaws.ResumeAcceptedIff` | app/services/workflow_engine.py:820-825 | who may resume what |
| `LifecycleLaws.ResumeLeaves` | app/services/workflow_engine.py:826-837 | a resume moves both deadlines later by the length of the pause |
| `LifecycleLaws.RelationLeaves` | app/services/relations.py:16-29 | refused only for a case and itself, added once, source and target as given, one event on each side |
| `LifecycleLaws.LinkedChildHoldsParent` | app/services/workflow_engine.py:651-658 | from the moment a child is linked, in no continuation of the run does the parent take a transition that waits for children before that child is complete |
| `LifecycleLaws.SmallOperationsLeave` | app/services/workflow_engine.py:741-760 | assigning sets the assignee and nothing else, for those who may |
| `LifecycleScanLaws.ScanLeaves` | app/services/workflow_engine.py:839-922 | every case after a scan: level 2 past the overall deadline, at least 1 past the stage deadline, warned when the earliest deadline is within the notice, nothing when paused or complete; and exactly the events that say so |
| `LifecycleSla.ScanIsIdempotent` | app/services/workflow_engine.py:839-922 | a second scan at the same instant changes nothing, one scan raises at most one alert per case, paused and completed cases are untouched |
| `LifecycleSla.OneVisit` | app/services/workflow_engine.py:858-921 | visiting a case leaves nothing more to do for it at that instant and touches no other case |
| `LifecycleSla.LevelOnlyClimbs` | app/services/workflow_engine.py:876-887 | over any run in which the case does not change stage its escalation level only climbs and never passes 2 |
| `LifecycleSla.AlertsAreBounded` | app/services/workflow_engine.py:865-921 | in every stage visit of every run a case raises at most three alerts: at no point of the log have there been more since it last entered a stage |
| `LifecycleSla.PausesAreConserved` | app/services/workflow_engine.py:826-831 | over any run the overall deadline is the one computed at creation plus the total length of the resumed pauses, the stage deadline of an open case the one computed on entry plus that of those resumed since, and closing on time means not after the overall deadline |
| `LifecycleSla.ResumeRestoresWhatWasLeft` | app/services/workflow_engine.py:801-837 | whatever happens in between, after resuming both deadlines are as far from the clock as they were when the pause began |
| `Progress.OrdinaryCalendarsCompute` | app/services/calendar_sla.py:91-96 | a calendar that opens before it closes and has fewer than 52 holidays lets every stage deadline be computed at any moment |
| `Progress.Cross` | app/services/workflow_engine.py:632-704 | with the stage's approvals cleared an administrator can take any configured transition of an unblocked case, and it stays unblocked unless that completes it |
| `Progress.CanBeCompleted` | app/services/workflow_engine.py:628-717 | from every reachable world an administrator alone, by approving and moving only this case, without waiting, completes an open case without rejected approvals or incomplete children, in at most one transition per other stage; no other case is touched |
| `LifecycleAssignment.LoadsAreOpenCases` | app/services/workflow_engine.py:444-451 | the grouped query counts exactly the open cases of each user |
| `LifecycleAssignment.AssignedOnEntry` | app/services/workflow_engine.py:672-680 | a case entering a stage goes to the user, or their active stand-in, who is least busy by open cases per capacity, open cases and id among those of the role with the skills, with room if the team has room; to nobody in the last stage |
| `LifecycleAssignment.AssignedOnCreation` | app/services/workflow_engine.py:568-586 | so does a new case, for the role the rules route it to or else that of its first stage |
| `LifecycleAssignment.AssignedOnEscalation` | app/services/workflow_engine.py:889-897 | an escalation hands the case over only to the role configured for the level it reaches, and leaves it where it is when nobody there can take it |
| `LifecycleRows.ComputeDeadline` | app/services/calendar_sla.py:69-96 | the deadline computed for a row is the due instant of its captured calendar |
| `LifecycleRows.Session.CreateStageApprovals` | app/services/workflow_engine.py:484-523 | the loop over the definitions does to the tables what the state machine says |
| `LifecycleRows.Session.CountOpen` | app/services/workflow_engine.py:444-451 | the count over the rows is that of the state machine |
| `LifecycleRows.Session.ReassignRow` | app/services/workflow_engine.py:741-760 | a reassignment on rows is the state machine's step, refusals included |
| `LifecycleRows.Session.CreateCaseRow` | app/services/workflow_engine.py:526-619 | creation on rows is the state machine's step: validation, rules, both deadlines, the assignee and the approvals, refusals included |
| `LifecycleRows.Session.TransitionRow` | app/services/workflow_engine.py:632-704 | a transition on rows is the state machine's step, the next assignee included; a refusal is the right one and leaves everything unchanged |
| `LifecycleRows.Session.CheckTransition` | app/services/workflow_engine.py:633-658 | the refusal is the first failing check in order |
| `LifecycleRows.Session.DecideRow` | app/services/workflow_engine.py:706-738 | a decision on rows is the state machine's step, refusals included |
| `LifecycleRows.Session.PauseRow` | app/services/workflow_engine.py:801-816 | a pause on rows is the state machine's step, refusals included |
| `LifecycleRows.Session.ResumeRow` | app/services/workflow_engine.py:819-837 | a resume on rows is the state machine's step, refusals included |
| `LifecycleRows.Session.ProcessSlaEscalations` | app/services/workflow_engine.py:839-922 | the scan over rows is the state machine's scan, handing over included, and returns the number of alerts it logged |
| `LifecycleRows.Session.CreateRelationRow` | app/services/relations.py:16-29 | relating rows is the state machine's step: no self relation, no duplicate, two log entries |
| `LifecycleRows.Session.IncompleteChild` | app/services/relations.py:48-50 | the query finds an incomplete child exactly when there is one |
| `ProcessReplay.CollectEvents` | app/services/insights.py:40-42 | the events of one case, in order |
| `ProcessReplay.ReplayCase` | app/services/insights.py:52-89 | the replay loop computes path and dwell observations, counts events with and without an actor, and reports rework exactly when a stage was visited twice |
| `ProcessReplay.ReplayAgreesWithState` | app/services/insights.py:55-88 | for every reachable case the replayed path is a walk of configured transitions from the initial to the current stage, complete exactly at terminal stages, and the dwell observations add up to the cycle time or the age of the case |
| `ProcessReplay.EachDwellIsAStay` | app/services/insights.py:72-85 | each dwell observation names a stage of the path and is the time from entering it to entering the next, or to now |
| `Outbox.NextDue` | app/services/outbox.py:85-111 | the chosen job is due and before every other due job by priority, availability and id; none is chosen exactly when none is due |
| `Outbox.EnqueueKeeps` | app/services/outbox.py:34-58 | enqueueing keeps the invariant, in particular unique stored keys |
| `Outbox.DedupeIsIdempotentIff` | app/services/outbox.py:43-50 | enqueueing a key again returns the same row and changes nothing exactly when the key has at most 180 characters, and fails otherwise |
| `Outbox.LeaseKeeps` | app/services/outbox.py:146-154 | the lease transaction keeps the invariant |
| `Outbox.FinishKeeps` | app/services/outbox.py:157-186 | the completion transaction, committed or rolled back, keeps the invariant |
| `Outbox.ExactlyOnceCommit` | app/services/outbox.py:143-186 | with crashes anywhere, a completed job has exactly one committed dispatch and any other none; attempts are bounded by the limit plus stale reclaims; a pending job has attempts left and a failed one has none |
| `Outbox.FinalIsForEver` | app/services/outbox.py:163-183 | completed and failed rows never change again |
| `Outbox.NothingIsStranded` | app/services/outbox.py:85-101 | a job that is not final becomes due again if nothing touches it |
| `Outbox.LeaseLeaves` | app/services/outbox.py:85-101 | a lease takes the job that goes first by priority, availability and id among those waiting and available or taken over 120 seconds ago, counts the attempt and notes the moment; none exactly when there is none |
| `Outbox.FailureLeaves` | app/services/outbox.py:170-186 | in every reachable store a dispatch that raises or cannot commit leaves its job pending exactly while attempts are left, available after 2, 4, 8, 16, 32 or 60 seconds, and failed otherwise; no order of its own remains |
| `Outbox.CommitLeaves` | app/services/outbox.py:163-169 | a dispatch that commits completes its job at this moment, together with its orders |
| `Outbox.EveryOrderIsPlaced` | app/services/outbox.py:34-58 | every order of a dispatch that commits has its row |
| `Outbox.EnqueueLeaves` | app/services/outbox.py:43-58 | the row with the key if there is one, an error if only its stored part is taken, otherwise a new pending row, available at once, with priority brought into 0 to 1000 and at least one attempt |
| `OutboxBatch.Writer.ProcessBatch` | app/services/outbox.py:134-187 | the batch loop, for any outcome of every dispatch, is the iterated protocol, and the three counters are right |
| `OutboxBatch.ReportOneMeans` | app/services/outbox.py:164-186 | an iteration counts as processed with its changes exactly when its job ends completed, and as failed otherwise |
| `OutboxBatch.BatchIsARun` | app/services/outbox.py:143-186 | a batch is a run of the protocol |
| `OutboxBatch.LeaseOrderIsRecorded` | app/services/outbox.py:146-154 | the order of leases is what the batch adds to the recorded leases |
| `OutboxBatch.BatchDrains` | app/services/outbox.py:144-186 | due at the end = due at the start + enqueued - leased; a batch that leases fewer jobs than its limit, or whose limit covers what is due and enqueued, leaves none due |
| `OutboxBatch.LeasedAtMostOnce` | app/services/outbox.py:144-186 | with the clock frozen a batch leases each job at most once |
| `OutboxBatch.LeasedInOrder` | app/services/outbox.py:100-101 | jobs present at the start are leased by smaller priority number, then earlier availability, then smaller id |
| `OutboxBatch.NoStarvation` | app/services/outbox.py:85-105 | a due job with fewer due jobs ahead than the limit is leased, even when dispatches enqueue jobs of no smaller priority number |
| `AuditChain.AuditLog.Append` | app/services/audit.py:46-83 | appending records what was given, column by column, in one entry linked to the last of its case, changes no other chain, and leaves all valid |
| `AuditChain.AppendsStayValid` | app/services/audit.py:46-83 | any interleaving of appends over many cases records what was given, in order, and leaves every chain valid |
| `AuditChain.AuditLog.Verify` | app/services/audit.py:86-131 | the loop reports exactly the issues of each entry, in order, with verdict, count and latest hash |
| `AuditChain.ValidByColumns` | app/services/audit.py:94-125 | valid means that every entry carries the hash of the one before it and the digest of that hash and its own columns |
| `AuditChain.SameHashSameHistory` | app/services/audit.py:41-43 | two valid chains with the same latest hash agree in case, actor, kind, summary, details, time and both hashes of every entry |
| `AuditChain.EditsAreLocated` | app/services/audit.py:96-125 | editing payload columns is reported as an entry-hash mismatch on exactly the entries in which case, actor, kind, summary, details or time changed |
| `AuditChain.DeletionIsLocated` | app/services/audit.py:106-125 | deleting an entry that is not the last is reported at exactly its successor, with both mismatches |
| `AuditChain.DeletionUnnoticedIffLast` | app/services/audit.py:86-131 | a deletion goes unnoticed if and only if it removes the last entry |
| `AuditCodec.SomeCodecIsTrusted` | app/services/audit.py:22-43 | the assumptions made of the digest and the encodings can be met |
| `Revisions.SaveKeeps` | app/services/workflow_versions.py:44-63 | saving a draft keeps the governance invariant and the current workflow |
| `Revisions.SavesTheDraft` | app/services/workflow_versions.py:44-63 | the one draft is then the document given, at the next version or its own if later, in place of the old draft if there was one; every other row is as it was |
| `Revisions.SaveAcceptedIff` | app/services/workflow_versions.py:45 | a document is saved exactly when it passes validation |
| `Revisions.PublishKeeps` | app/services/workflow_versions.py:66-90 | publishing keeps the invariant and strictly raises the version |
| `Revisions.PublishesTheDraft` | app/services/workflow_versions.py:69-90 | what is deployed and stands published is the draft's content, under the next version or the draft's own if later; what was published is archived |
| `Revisions.PublishAcceptedIff` | app/services/workflow_versions.py:67-69 | only a draft whose document passes validation can be published |
| `Revisions.ImportKeeps` | app/services/workflow_engine.py:262-306 | importing a version no revision holds keeps the invariant |
| `Revisions.ImportsTheDocument` | app/services/workflow_engine.py:272-306 | what is deployed and stands published in a new row is the document given; importing the current document again changes nothing |
| `Revisions.ImportAcceptedIff` | app/services/workflow_engine.py:262-284 | a valid document with a version, a free reference prefix, and a version that is new, later, or the current one unchanged |
| `Revisions.ImportKeepsIff` | app/services/workflow_engine.py:272-293 | an import above the current version keeps the invariant if and only if no revision holds its version |
| `Revisions.ImportOverDraftBreaks` | app/services/workflow_versions.py:20-33 | the failing case is reached from nothing: a version is imported, a newer one drafted, and that newer one imported |
| `Revisions.NoFallback` | app/services/workflow_versions.py:49-75 | both version-collision fallbacks are unreachable |
| `Revisions.EnsuredChangesNothing` | app/services/workflow_versions.py:20-33 | under the invariant the published revision is found and none is added |
| `Revisions.RunKeeps` | app/services/workflow_versions.py:20-90 | over every run the invariant holds, the version never decreases, and what was once published keeps its version and content |
| `Revisions.ContentWasGiven` | app/services/workflow_versions.py:20-90 | over any run at all, whatever is drafted, published, archived or deployed has the content of a document that was saved or imported |
| `RevisionRows.Tables.ImportDefinition` | app/services/workflow_engine.py:262-306 | the import on rows is the governance step, the taken reference prefix and the other refusals included |
| `RevisionRows.Tables.EnsurePublished` | app/services/workflow_versions.py:20-33 | the published revision is found or added |
| `RevisionRows.Tables.SaveDraftRow` | app/services/workflow_versions.py:44-63 | saving on rows is the governance step, refusals included |
| `RevisionRows.Tables.PublishDraftRow` | app/services/workflow_versions.py:66-90 | publishing on rows is the governance step, refusals included |
| `RevisionRows.Tables.ArchivePublished` | app/services/workflow_versions.py:82-83 | the loop archives exactly the published rows |
| `Assignment.SelectsTheLeast` | app/services/workflow_engine.py:433-456 | there is an assignee exactly when somebody suits the work, and it is the user who comes before all others by cases per capacity, cases and id, or their active stand-in; that user has room if the team has |
| `Assignment.TwoTiersAreOne` | app/services/workflow_engine.py:452-454 | "below capacity, else all" picks the single global minimum by ratio, load and id |
| `Assignment.MinIsLeast` | app/services/workflow_engine.py:454 | the minimum is a candidate and before every other one |
| `Assignment.PickHasRoom` | app/services/workflow_engine.py:452-454 | while total load is below total capacity the pick is below capacity |
| `Assignment.RunsAreFair` | app/services/workflow_engine.py:438-454 | in an assignment-only run nobody is more than one case ahead of anybody's share |
| `Assignment.SharesAreFair` | app/services/workflow_engine.py:438-454 | in plain numbers for users whose capacity is set |
| `Assignment.NobodyIsOverloaded` | app/services/workflow_engine.py:438-454 | in such a run of no more cases than the team's capacity nobody exceeds their own |
| `Assignment.LoadsStayWithin` | app/services/workflow_engine.py:453 | in plain numbers: at most the capacity set, ten where none is |

## Left out

- Time zones and daylight saving: the calendar works on one wall-clock line; the sub-millisecond part of clock readings and the rounding of fractional hours are dropped, and a positive request that rounds to no time at all is not modelled.
- Clock readings: each lifecycle operation reads the clock once, where the application reads it again a moment later for the log entry.
- `migrate_case_snapshot`: it neither creates the approvals of the stage it lands in nor compares terminal flags, so the run theorems are for runs without it.
- Notifications, tags, priority and comments are not part of the lifecycle rows; other logged operations appear as `Record`, which only appends an event.
- WorkflowGraph.Validate: covers lines 141-259; what those lines check of JSON types holds by typing here, and lines 61-140 (names, prefix, version, calendar and intake-field text) are not modelled, the intake fields being given as the set of their keys.
- LifecycleRows.Session.CreateCaseRow: does not model the checks of title, requester, description, priority and field values, nor the reference, tags and notification of the new case, and requires that the deadline computation returns.
- LifecycleRows.Session.TransitionRow: requires that the stage deadline computation returns, because a call that never returns has no resulting state; does not model the note, the notification and the connector jobs, which are outbox orders.
- LifecycleRows.Session.ProcessSlaEscalations: does not model who is notified.
- Canary selection of a baseline revision (`select_deployed_config`): the configuration given to `CreateCase` is the one selected.
- Role permission tables: `managesSla` and `assigns` are the answers to `sla.manage` and `case.assign`. Delegations are seen as who stands in for whom at the moment.
- JSON values are seen through equality class, truth value, numeric reading and folded text; rule texts, pause reasons and skills are taken as already stripped and, where the source folds case, folded; `validate_rules` and `save_rule_set` are not modelled.
- The rules work on values, so that the input configuration is not modified holds by construction and is not a theorem.
- Outbox.EnqueueKeeps: does not model the 80-character cut of a job's kind or the error text of a failed job.
- OutboxBatch.LeasedInOrder: is stated with the clock frozen during the batch, as are draining and the absence of starvation; a moving clock makes further jobs due in between.
- Several workers on one database: the exactly-once result is for the single writer that holds the write lock, since a finished lease is not checked for ownership.
- Connector delivery: a dispatch is an all-or-nothing effect; effects outside the database are not counted. Rows deleted between the two transactions are not modelled.
- RevisionRows.Tables.ImportDefinition: is about one workflow, with the reference prefixes of the others given; that publishing a draft may take a prefix already in use is outside it.
- Assignment.SelectsTheLeast: compares exact ratios where the application divides in floating point.
- Percentiles, variants and opportunity texts of process intelligence; the row is one case at a time.
- The instance lock, the web and API layers, identity, search, backup and release tooling.
