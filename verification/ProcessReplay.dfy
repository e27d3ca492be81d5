/** Process intelligence (app/services/insights.py:52-89): replaying a case's events gives back
    the case. */
module ProcessReplay {
  import opened Common
  import opened WorkflowModel
  import opened WorkflowGraph
  import opened Lifecycle
  import opened LifecycleInvariant
  import opened LifecycleRuns

  /** by_case: the events of one case, in order. */
  function EventsOf(log: seq<Event>, i: nat): seq<Event> {
    if log == [] then []
    else EventsOf(log[..|log| - 1], i) + (if log[|log| - 1].caseId == i then [log[|log| - 1]] else [])
  }

  method CollectEvents(log: seq<Event>, i: nat) returns (events: seq<Event>)
    ensures events == EventsOf(log, i)
  {
    events := [];
    for n := 0 to |log|
      invariant events == EventsOf(log[..n], i)
    {
      assert log[..n + 1][..n] == log[..n];
      if log[n].caseId == i {
        events := events + [log[n]];
      }
    }
    assert log[..|log|] == log;
  }

  /** How many of the events somebody caused. */
  function ByHand(events: seq<Event>): nat {
    if events == [] then 0 else ByHand(events[..|events| - 1]) + (if events[|events| - 1].actor.Some? then 1 else 0)
  }

  datatype Replay = Replay(path: seq<Key>, stage: Key, started: int, dwell: seq<(Key, int)>)

  function NotNegative(x: int): nat {
    if x < 0 then 0 else x
  }

  function Begin(initial: Key, created: int): Replay {
    Replay(if initial != "" then [initial] else [], initial, created, [])
  }

  function Observe(r: Replay, e: Event): Replay {
    if !e.kind.StatusChanged? then r
    else
      var dwell := if e.kind.source != "" then r.dwell + [(e.kind.source, NotNegative(e.at - r.started))] else r.dwell;
      if e.kind.target == "" then r.(dwell := dwell)
      else Replay(r.path + [e.kind.target], e.kind.target, e.at, dwell)
  }

  function ReplayOf(initial: Key, created: int, events: seq<Event>): Replay {
    if events == [] then Begin(initial, created)
    else Observe(ReplayOf(initial, created, events[..|events| - 1]), events[|events| - 1])
  }

  /** The trailing observation of a case that is still open. */
  function Dwells(r: Replay, completedAt: Option<int>, now: int): seq<(Key, int)> {
    if completedAt.Some? || r.stage == "" then r.dwell else r.dwell + [(r.stage, NotNegative(now - r.started))]
  }

  /** The replay loop: path, dwell observations, whether some stage was visited twice, and the
      number of events with and without an actor. */
  method ReplayCase(initial: Key, created: int, completedAt: Option<int>, events: seq<Event>, now: int)
    returns (path: seq<Key>, dwell: seq<(Key, int)>, rework: bool, manual: nat, automatic: nat)
    ensures var r := ReplayOf(initial, created, events);
      path == r.path && dwell == Dwells(r, completedAt, now)
    ensures rework <==> exists a, b :: 0 <= a < b < |path| && path[a] == path[b]
    ensures manual == ByHand(events) && automatic == |events| - ByHand(events)
  {
    var r, seen;
    r, seen, manual, automatic := ReplayEvents(initial, created, events);
    path, dwell := r.path, r.dwell;
    if completedAt == None && r.stage != "" {
      dwell := dwell + [(r.stage, NotNegative(now - r.started))];
    }
    rework := exists k :: k in seen && seen[k] > 1;
    CountsShowRepeats(path, seen);
  }

  /** The loop over the events. */
  method ReplayEvents(initial: Key, created: int, events: seq<Event>)
    returns (r: Replay, seen: map<Key, nat>, manual: nat, automatic: nat)
    ensures r == ReplayOf(initial, created, events) && Counted(r.path, seen)
    ensures manual == ByHand(events) && automatic == |events| - ByHand(events)
  {
    manual, automatic := 0, 0;
    r, seen := Begin(initial, created), map[];
    if initial != "" {
      assert r.path == [] + [initial];
      seen := Visit([], seen, initial);
    }
    for n := 0 to |events|
      invariant r == ReplayOf(initial, created, events[..n]) && Counted(r.path, seen)
      invariant manual == ByHand(events[..n]) && automatic == n - manual
    {
      var e := events[n];
      assert events[..n + 1] == events[..n] + [e];
      ReplayOneMore(initial, created, events[..n], e);
      ByHandOneMore(events[..n], e);
      if e.actor == None {
        automatic := automatic + 1;
      } else {
        manual := manual + 1;
      }
      if e.kind.StatusChanged? {
        r, seen := FollowChange(r, seen, e);
      }
    }
    assert events[..|events|] == events;
  }

  lemma ByHandOneMore(events: seq<Event>, e: Event)
    ensures ByHand(events + [e]) == ByHand(events) + (if e.actor.Some? then 1 else 0)
  {
    assert (events + [e])[..|events|] == events;
  }

  lemma ReplayOneMore(initial: Key, created: int, events: seq<Event>, e: Event)
    ensures ReplayOf(initial, created, events + [e]) == Observe(ReplayOf(initial, created, events), e)
  {
    assert (events + [e])[..|events|] == events;
  }

  /** `seen` counts the visits along the path. */
  ghost predicate Counted(path: seq<Key>, seen: map<Key, nat>) {
    forall k :: multiset(path)[k] == if k in seen then seen[k] else 0
  }

  function Visit(path: seq<Key>, seen: map<Key, nat>, k: Key): (r: map<Key, nat>)
    requires Counted(path, seen)
    ensures Counted(path + [k], r)
  {
    seen[k := (if k in seen then seen[k] else 0) + 1]
  }

  method FollowChange(r: Replay, seen: map<Key, nat>, e: Event) returns (next: Replay, counts: map<Key, nat>)
    requires e.kind.StatusChanged? && Counted(r.path, seen)
    ensures next == Observe(r, e) && Counted(next.path, counts)
  {
    next, counts := r, seen;
    var source, target := e.kind.source, e.kind.target;
    if source != "" {
      next := next.(dwell := next.dwell + [(source, NotNegative(e.at - next.started))]);
    }
    if target != "" {
      counts := Visit(next.path, counts, target);
      next := next.(path := next.path + [target], stage := target, started := e.at);
    }
  }

  lemma CountsShowRepeats(path: seq<Key>, seen: map<Key, nat>)
    requires Counted(path, seen)
    ensures (exists k :: k in seen && seen[k] > 1) <==> exists a, b :: 0 <= a < b < |path| && path[a] == path[b]
  {
    RepeatsAreCounted(path);
    if k :| multiset(path)[k] > 1 {
      assert k in seen && seen[k] > 1;
    }
    if k :| k in seen && seen[k] > 1 {
      assert multiset(path)[k] > 1;
    }
  }

  lemma {:induction false} RepeatsAreCounted(p: seq<Key>)
    ensures (exists k :: multiset(p)[k] > 1) <==> exists a, b :: 0 <= a < b < |p| && p[a] == p[b]
  {
    if p != [] {
      var init, last := p[..|p| - 1], p[|p| - 1];
      assert p == init + [last];
      RepeatsAreCounted(init);
      if k :| multiset(p)[k] > 1 {
        if multiset(init)[k] <= 1 {
          assert last == k && k in multiset(init);
          var a :| 0 <= a < |init| && init[a] == k;
          assert p[a] == p[|p| - 1];
        } else {
          var a, b :| 0 <= a < b < |init| && init[a] == init[b];
          assert p[a] == p[b];
        }
      }
      if a, b :| 0 <= a < b < |p| && p[a] == p[b] {
        if b < |init| {
          assert init[a] == init[b];
          var k :| multiset(init)[k] > 1;
          assert multiset(p)[k] > 1;
        } else {
          assert last in multiset(init) by {
            assert init[a] == last;
          }
          assert multiset(p)[last] > 1;
        }
      }
    }
  }

  // ---------------------------------------------------------------- agreement

  function Total(dwell: seq<(Key, int)>): int {
    if dwell == [] then 0 else Total(dwell[..|dwell| - 1]) + dwell[|dwell| - 1].1
  }

  /** The replay so far and the ledger so far say the same. */
  ghost predicate Agree(cfg: Config, r: Replay, l: Ledger) {
    && r.path == l.path && r.path != [] && r.stage == l.path[|l.path| - 1] && IsStage(cfg, r.stage)
    && r.started == l.started && Total(r.dwell) == l.dwell
    && |r.dwell| == |r.path| - 1 && forall n :: 0 <= n < |r.dwell| ==> r.dwell[n].0 == r.path[n]
  }

  /** When the case was created and when it entered each later stage. */
  function EntryTimes(created: int, events: seq<Event>): (times: seq<int>)
    ensures times != []
  {
    if events == [] then [created]
    else
      var e := events[|events| - 1];
      EntryTimes(created, events[..|events| - 1]) + (if e.kind.StatusChanged? then [e.at] else [])
  }

  /** Each dwell observation is the time from one entry to the next. */
  ghost predicate Timely(r: Replay, times: seq<int>) {
    && |times| == |r.dwell| + 1 && r.started == times[|r.dwell|]
    && forall n :: 0 <= n < |r.dwell| ==> r.dwell[n].1 == times[n + 1] - times[n] >= 0
  }

  lemma {:induction false} DwellIsTimely(c: Case, log: seq<Event>, i: nat)
    requires Sound(c.config) && LedgerOf(c, log, i).orderly
    ensures Timely(ReplayOf(c.config.initial, c.createdAt, EventsOf(log, i)), EntryTimes(c.createdAt, EventsOf(log, i)))
  {
    if log != [] {
      var init, e := log[..|log| - 1], log[|log| - 1];
      assert log == init + [e];
      LedgerBefore(c, init, i, e);
      DwellIsTimely(c, init, i);
      LedgerPosts(c, init, i, e);
      if e.caseId == i {
        assert EventsOf(log, i) == EventsOf(init, i) + [e];
        ReplayIsTheLedger(c, init, i);
        var r := ReplayOf(c.config.initial, c.createdAt, EventsOf(init, i));
        ReplayOneMore(c.config.initial, c.createdAt, EventsOf(init, i), e);
        EntryTimesOneMore(c.createdAt, EventsOf(init, i), e);
        if e.kind.StatusChanged? {
          NamesAreNotEmpty(c.config, e.kind.source, e.kind.target);
          MoveIsTimely(r, e, EntryTimes(c.createdAt, EventsOf(init, i)));
        }
      } else {
        assert EventsOf(log, i) == EventsOf(init, i);
      }
    }
  }

  lemma MoveIsTimely(r: Replay, e: Event, times: seq<int>)
    requires e.kind.StatusChanged? && e.kind.source != "" && e.kind.target != "" && r.started <= e.at
    requires Timely(r, times)
    ensures Timely(Observe(r, e), times + [e.at])
  {
  }

  lemma EntryTimesOneMore(created: int, events: seq<Event>, e: Event)
    ensures EntryTimes(created, events + [e])
         == EntryTimes(created, events) + (if e.kind.StatusChanged? then [e.at] else [])
  {
    assert (events + [e])[..|events|] == events;
  }

  lemma TotalGrows(dwell: seq<(Key, int)>, last: (Key, int))
    ensures Total(dwell + [last]) == Total(dwell) + last.1
  {
    assert (dwell + [last])[..|dwell|] == dwell;
  }

  lemma MoveIsPosted(cfg: Config, r: Replay, l: Ledger, ts: seq<Transition>, e: Event)
    requires Agree(cfg, r, l) && e.kind.StatusChanged? && l.started <= e.at && e.kind.source == l.path[|l.path| - 1]
    requires e.kind.source != "" && e.kind.target != "" && IsStage(cfg, e.kind.target)
    ensures Agree(cfg, Observe(r, e), Post(l, ts, e))
  {
    TotalGrows(r.dwell, (e.kind.source, e.at - r.started));
  }

  lemma ObservedIsPosted(cfg: Config, r: Replay, l: Ledger, e: Event)
    requires Sound(cfg) && Agree(cfg, r, l) && Post(l, cfg.transitions, e).orderly
    ensures Agree(cfg, Observe(r, e), Post(l, cfg.transitions, e))
  {
    if e.kind.StatusChanged? {
      NamesAreNotEmpty(cfg, e.kind.source, e.kind.target);
      MoveIsPosted(cfg, r, l, cfg.transitions, e);
    } else {
      OnlyMovesMatter(l, cfg.transitions, e);
    }
  }

  lemma OnlyMovesMatter(l: Ledger, ts: seq<Transition>, e: Event)
    requires !e.kind.StatusChanged?
    ensures var m := Post(l, ts, e); m.path == l.path && m.started == l.started && m.dwell == l.dwell
  {
  }

  /** The replay and the ledger read the same events. */
  lemma {:induction false} ReplayIsTheLedger(c: Case, log: seq<Event>, i: nat)
    requires Sound(c.config) && LedgerOf(c, log, i).orderly
    ensures Agree(c.config, ReplayOf(c.config.initial, c.createdAt, EventsOf(log, i)), LedgerOf(c, log, i))
  {
    if log != [] {
      var init, e := log[..|log| - 1], log[|log| - 1];
      assert log == init + [e];
      LedgerBefore(c, init, i, e);
      ReplayIsTheLedger(c, init, i);
      LedgerPosts(c, init, i, e);
      if e.caseId == i {
        assert EventsOf(log, i) == EventsOf(init, i) + [e];
        var r := ReplayOf(c.config.initial, c.createdAt, EventsOf(init, i));
        ReplayOneMore(c.config.initial, c.createdAt, EventsOf(init, i), e);
        ObservedIsPosted(c.config, r, LedgerOf(c, init, i), e);
      } else {
        assert EventsOf(log, i) == EventsOf(init, i);
      }
    } else {
      assert IsStage(c.config, c.config.initial);
    }
  }

  lemma LedgerBefore(c: Case, log: seq<Event>, i: nat, e: Event)
    requires LedgerOf(c, log + [e], i).orderly
    ensures LedgerOf(c, log, i).orderly
  {
    LedgerPosts(c, log, i, e);
  }

  lemma NamesAreNotEmpty(cfg: Config, source: Key, target: Key)
    requires Sound(cfg) && FindTransition(cfg.transitions, source, target).Some?
    ensures source != "" && target != "" && IsStage(cfg, source) && IsStage(cfg, target)
  {
    assert TransitionFits(cfg, FindTransition(cfg.transitions, source, target).value);
  }

  /** For every reachable case: the replayed path is a walk of configured transitions from the
      initial stage to the current one, the case is complete exactly when that stage is
      terminal, and the dwell observations add up to its whole life so far: to the cycle time
      once complete, to its age at `now` while open. */
  lemma ReplayAgreesWithState(w: World, i: nat, now: int)
    requires Reachable(w) && i < |w.cases| && w.clock <= now
    ensures var c := w.cases[i];
      var r := ReplayOf(c.config.initial, c.createdAt, EventsOf(w.log, i));
      && PathBetween(c.config.transitions, r.path, c.config.initial, c.status)
      && (c.completedAt.Some? <==> IsTerminal(c.config, c.status))
      && Total(Dwells(r, c.completedAt, now))
         == (if c.completedAt.Some? then c.completedAt.value else now) - c.createdAt
  {
    ReachableIsGood(w);
    assert Good(w, i);
    var c := w.cases[i];
    ReplayIsTheLedger(c, w.log, i);
    var r := ReplayOf(c.config.initial, c.createdAt, EventsOf(w.log, i));
    StageNamed(c.config, r.stage);
    var all := Dwells(r, c.completedAt, now);
    if c.completedAt == None {
      assert all[..|all| - 1] == r.dwell;
    }
  }

  /** Observation n is the stay in the n-th stage of the path. */
  ghost predicate AreStays(dwells: seq<(Key, int)>, path: seq<Key>, times: seq<int>, now: int) {
    |dwells| <= |path| == |times| && forall n :: 0 <= n < |dwells| ==>
      dwells[n] == (path[n], (if n + 1 < |times| then times[n + 1] else now) - times[n])
  }

  /** And each observation on its own names a stage of the path and is the time from entering it
      to entering the next, or to now for the stage an open case is in. */
  lemma EachDwellIsAStay(w: World, i: nat, now: int)
    requires Reachable(w) && i < |w.cases| && w.clock <= now
    ensures var c := w.cases[i];
      var es := EventsOf(w.log, i);
      var path := ReplayOf(c.config.initial, c.createdAt, es).path;
      var dwells := Dwells(ReplayOf(c.config.initial, c.createdAt, es), c.completedAt, now);
      var times := EntryTimes(c.createdAt, es);
      && |dwells| == (if c.completedAt.Some? then |path| - 1 else |path|)
      && AreStays(dwells, path, times, now)
  {
    ReachableIsGood(w);
    RowIsAccounted(w, i);
    var c := w.cases[i];
    ReplayIsTheLedger(c, w.log, i);
    DwellIsTimely(c, w.log, i);
    StageNamed(c.config, c.status);
    DwellsAreStays(ReplayOf(c.config.initial, c.createdAt, EventsOf(w.log, i)),
                   EntryTimes(c.createdAt, EventsOf(w.log, i)), c.completedAt, now);
  }

  lemma DwellsAreStays(r: Replay, times: seq<int>, completedAt: Option<int>, now: int)
    requires Timely(r, times) && |r.dwell| == |r.path| - 1 && r.stage == r.path[|r.path| - 1] != "" && r.started <= now
    requires forall n :: 0 <= n < |r.dwell| ==> r.dwell[n].0 == r.path[n]
    ensures var dwells := Dwells(r, completedAt, now);
      && |dwells| == (if completedAt.Some? then |r.path| - 1 else |r.path|)
      && AreStays(dwells, r.path, times, now)
  {
  }

  lemma RowIsAccounted(w: World, i: nat)
    requires Inv(w) && i < |w.cases|
    ensures var c, l := w.cases[i], LedgerOf(w.cases[i], w.log, i);
      && Sound(c.config) && StageOf(c.config, c.status).Some? && l.orderly
      && l.path != [] && l.path[|l.path| - 1] == c.status && l.started == c.stageStartedAt <= w.clock
  {
    assert Good(w, i);
  }

  lemma StageNamed(cfg: Config, k: Key)
    requires Sound(cfg) && StageOf(cfg, k).Some?
    ensures k != "" && (IsTerminal(cfg, k) <==> StageOf(cfg, k).value.terminal)
  {
    var i := FindStage(cfg.stages, k);
    assert ValidKey(cfg.stages[i].key);
  }
}
