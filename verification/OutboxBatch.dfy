/** One batch of process_outbox_batch: the loop itself, and what it guarantees about order,
    starvation and draining while the clock stands still. */
module OutboxBatch {
  import opened Common
  import opened Outbox

  /** The outcome of each dispatch, by iteration, and how long it took. */
  datatype Trial = Trial(took: nat, outcome: Dispatch)

  type Oracle = nat -> Trial

  function Due(s: Store): Option<nat> {
    NextDue(s.jobs, s.clock, |s.jobs|)
  }

  /** One iteration: lease the next due job, dispatch it, finish it. */
  function Iterate(s: Store, t: Trial): Store {
    var k := Due(s);
    if k == None then s
    else
      var leased := Lease(s, k.value);
      Finish(leased.(clock := leased.clock + t.took), k.value, t.outcome)
  }

  /** The store after n iterations. */
  function Batch(s: Store, oracle: Oracle, n: nat): Store {
    if n == 0 then s else Iterate(Batch(s, oracle, n - 1), oracle(n - 1))
  }

  datatype Summary = Summary(processed: nat, failed: nat, changes: nat)

  function Plus(a: Summary, b: Summary): Summary {
    Summary(a.processed + b.processed, a.failed + b.failed, a.changes + b.changes)
  }

  /** What one iteration adds to the counters. */
  function ReportOne(s: Store, t: Trial): Summary {
    var k := Due(s);
    if k == None then Summary(0, 0, 0)
    else
      var leased := Lease(s, k.value);
      if Commits(leased.(clock := leased.clock + t.took), t.outcome) then Summary(1, 0, t.outcome.changes)
      else Summary(0, 1, 0)
  }

  /** The stores a batch goes through. */
  function Trace(s: Store, oracle: Oracle, n: nat): (ss: seq<Store>)
    ensures |ss| == n + 1 && forall x :: 0 <= x <= n ==> ss[x] == Batch(s, oracle, x)
  {
    seq(n + 1, x requires 0 <= x <= n => Batch(s, oracle, x))
  }

  /** What a batch reports, counted over the stores it goes through. */
  function ReportAlong(ss: seq<Store>, oracle: Oracle): Summary {
    if |ss| <= 1 then Summary(0, 0, 0)
    else Plus(ReportAlong(ss[..|ss| - 1], oracle), ReportOne(ss[|ss| - 2], oracle(|ss| - 2)))
  }

  function Report(s: Store, oracle: Oracle, n: nat): Summary {
    ReportAlong(Trace(s, oracle, n), oracle)
  }

  function EffectiveLimit(limit: int): nat {
    var n := if limit < 500 then limit else 500;
    if n < 1 then 1 else n
  }

  /** The counters move with the rows: a job that ends completed counts as processed with its
      changes, any other that was taken as failed, and none when none was taken. */
  lemma ReportOneMeans(s: Store, t: Trial)
    ensures Due(s) == None ==> ReportOne(s, t) == Summary(0, 0, 0)
    ensures Due(s).Some? ==> Due(s).value < |Iterate(s, t).jobs|
    ensures Due(s).Some? && Iterate(s, t).jobs[Due(s).value].status == Completed ==>
      t.outcome.Succeeds? && ReportOne(s, t) == Summary(1, 0, t.outcome.changes)
    ensures Due(s).Some? && Iterate(s, t).jobs[Due(s).value].status != Completed ==>
      ReportOne(s, t) == Summary(0, 1, 0)
  {
  }

  lemma IdleIteration(s: Store, t: Trial)
    requires Due(s) == None
    ensures Iterate(s, t) == s && ReportOne(s, t) == Summary(0, 0, 0)
  {
  }

  lemma {:induction false} StaysIdle(ss: seq<Store>, i: nat, n: nat)
    requires i <= n < |ss| && Due(ss[i]) == None
    requires forall x :: 0 < x < |ss| ==> Due(ss[x - 1]) == None ==> ss[x] == ss[x - 1]
    ensures ss[n] == ss[i]
    decreases n
  {
    if i < n {
      StaysIdle(ss, i, n - 1);
      assert ss[n - 1 + 1] == ss[n - 1];
    }
  }

  /** Once nothing is due the remaining iterations do nothing. */
  lemma NothingMore(s: Store, oracle: Oracle, i: nat, n: nat)
    requires i <= n && Due(Batch(s, oracle, i)) == None
    ensures Batch(s, oracle, n) == Batch(s, oracle, i)
  {
    var ss := Trace(s, oracle, n);
    forall x | 0 < x < |ss| && Due(ss[x - 1]) == None ensures ss[x] == ss[x - 1] {
      IdleIteration(Batch(s, oracle, x - 1), oracle(x - 1));
    }
    StaysIdle(ss, i, n);
  }

  lemma TraceGrows(s: Store, oracle: Oracle, n: nat)
    ensures Trace(s, oracle, n + 1)[..n + 1] == Trace(s, oracle, n)
  {
  }

  lemma ReportGrows(s: Store, oracle: Oracle, n: nat)
    ensures Report(s, oracle, n + 1) == Plus(Report(s, oracle, n), ReportOne(Batch(s, oracle, n), oracle(n)))
  {
    TraceGrows(s, oracle, n);
  }

  lemma {:induction false} NothingReported(ss: seq<Store>, oracle: Oracle, i: nat)
    requires i < |ss| && forall x :: i <= x < |ss| ==> Due(ss[x]) == None
    ensures ReportAlong(ss, oracle) == ReportAlong(ss[..i + 1], oracle)
    decreases |ss|
  {
    if i == |ss| - 1 {
      assert ss[..i + 1] == ss;
    } else {
      NothingReported(ss[..|ss| - 1], oracle, i);
      assert ss[..|ss| - 1][..i + 1] == ss[..i + 1];
      IdleIteration(ss[|ss| - 2], oracle(|ss| - 2));
    }
  }

  /** Nor do they add to the report. */
  lemma ReportStands(s: Store, oracle: Oracle, i: nat, n: nat)
    requires i <= n && Due(Batch(s, oracle, i)) == None
    ensures Report(s, oracle, n) == Report(s, oracle, i)
  {
    var ss := Trace(s, oracle, n);
    forall x | i <= x <= n ensures Due(ss[x]) == None {
      NothingMore(s, oracle, i, x);
    }
    NothingReported(ss, oracle, i);
    assert ss[..i + 1] == Trace(s, oracle, i);
  }

  class Writer {
    var clock: int
    var jobs: seq<Job>
    ghost var history: seq<Entry>

    ghost function View(): Store
      reads this
    {
      Store(clock, jobs, None, history)
    }

    constructor (clock: int, jobs: seq<Job>)
      ensures View() == Store(clock, jobs, None, [])
    {
      this.clock, this.jobs, this.history := clock, jobs, [];
    }

    /** First transaction: take the next due job. */
    method TakeNext() returns (k: Option<nat>)
      modifies this
      ensures k == Due(old(View())) && clock == old(clock)
      ensures View() == if k == None then old(View()) else Lease(old(View()), k.value).(flying := None)
    {
      k := NextDue(jobs, clock, |jobs|);
      if k.Some? {
        var now, j := clock, jobs[k.value];
        history := history + [Entry.Leased(k.value, j.status == Processing)];
        jobs := jobs[k.value := j.(status := Processing, lockedAt := Some(now), attempts := j.attempts + 1)];
      }
    }

    /** Second transaction: dispatch, then commit or roll back. */
    method FinishJob(k: nat, outcome: Dispatch) returns (processed: bool, changes: nat)
      requires k < |jobs|
      modifies this
      ensures View() == Finish(old(View()), k, outcome)
      ensures processed == Commits(old(View()), outcome)
      ensures changes == if processed then outcome.changes else 0
    {
      changes := 0;
      var attempt: Result<seq<Job>, string> := Err("raised");
      if outcome.Succeeds? {
        attempt := EnqueueAll(jobs, outcome.orders, clock);
      }
      if attempt.Ok? {
        jobs := attempt.value;
        jobs := jobs[k := jobs[k].(status := Completed, completedAt := Some(clock), lockedAt := None)];
        history := history + [Dispatched(k)];
        return true, outcome.changes;
      }
      var j := jobs[k].(lockedAt := None);
      if j.attempts >= j.maxAttempts {
        j := j.(status := Failed);
      } else {
        j := j.(status := Pending, availableAt := clock + Backoff(j.attempts) * SECOND);
      }
      jobs := jobs[k := j];
      history := history + [RolledBack(k)];
      return false, changes;
    }

    /** The body of the loop, and what it adds to the counters. */
    method ProcessOne(t: Trial) returns (found: bool, one: Summary)
      modifies this
      ensures found <==> Due(old(View())).Some?
      ensures View() == Iterate(old(View()), t)
      ensures one == ReportOne(old(View()), t)
    {
      ghost var s := View();
      var k := TakeNext();
      if k == None {
        return false, Summary(0, 0, 0);
      }
      clock := clock + t.took;
      ghost var leased := Lease(s, k.value);
      assert View() == leased.(clock := leased.clock + t.took, flying := None);
      var processed, changes := FinishJob(k.value, t.outcome);
      return true, if processed then Summary(1, 0, changes) else Summary(0, 1, 0);
    }

    /** process_outbox_batch, for any outcome of every dispatch. */
    method ProcessBatch(limit: int, oracle: Oracle) returns (report: Summary)
      modifies this
      ensures var n := if limit < 1 then 1 else if limit > 500 then 500 else limit;
        View() == Batch(old(View()), oracle, n) && report == Report(old(View()), oracle, n)
    {
      report := Summary(0, 0, 0);
      ghost var start := View();
      var n := EffectiveLimit(limit);
      for i := 0 to n
        invariant View() == Batch(start, oracle, i)
        invariant report == Report(start, oracle, i)
      {
        ReportGrows(start, oracle, i);
        var found, one := ProcessOne(oracle(i));
        if !found {
          NothingMore(start, oracle, i, n);
          ReportStands(start, oracle, i, n);
          return;
        }
        report := Plus(report, one);
      }
    }
  }

  // ---------------------------------------------------------------- a batch is a run

  lemma IterationIsTwoSteps(s: Store, t: Trial)
    requires s.flying == None
    ensures Iterate(s, t).flying == None
    ensures Due(s).Some? ==> Iterate(s, t) == Next(Next(s, Timed(0, LeaseNext)), Timed(t.took, Complete(t.outcome)))
  {
  }

  lemma RunTwoMore(s: Store, steps: seq<Timed>, a: Timed, b: Timed)
    ensures Run(s, steps + [a, b]) == Next(Next(Run(s, steps), a), b)
  {
    var one, two := steps + [a], steps + [a, b];
    assert two[..|two| - 1] == one && one[..|one| - 1] == steps;
    assert Run(s, one) == Next(Run(s, steps), a);
  }

  /** Every batch is a run of the protocol, so everything proved of runs holds of it. */
  lemma {:induction false} BatchIsARun(s: Store, oracle: Oracle, n: nat) returns (steps: seq<Timed>)
    requires s.flying == None
    ensures Run(s, steps) == Batch(s, oracle, n)
    ensures Batch(s, oracle, n).flying == None
  {
    if n == 0 {
      steps := [];
    } else {
      steps := BatchIsARun(s, oracle, n - 1);
      var before, t := Batch(s, oracle, n - 1), oracle(n - 1);
      IterationIsTwoSteps(before, t);
      if Due(before).Some? {
        var a, b := Timed(0, LeaseNext), Timed(t.took, Complete(t.outcome));
        RunTwoMore(s, steps, a, b);
        steps := steps + [a, b];
      }
    }
  }

  // ---------------------------------------------------------------- the leases of a batch

  /** The jobs leased on the way from each store to the next, in order. */
  function LeasesAlong(ss: seq<Store>): seq<nat> {
    if |ss| <= 1 then []
    else
      var k := Due(ss[|ss| - 2]);
      LeasesAlong(ss[..|ss| - 1]) + (if k.Some? then [k.value] else [])
  }

  function LeaseOrder(s: Store, oracle: Oracle, n: nat): seq<nat> {
    LeasesAlong(Trace(s, oracle, n))
  }

  /** The leases a history records, in order. */
  function LeasedIn(h: seq<Entry>): seq<nat> {
    if h == [] then []
    else
      var e := h[|h| - 1];
      LeasedIn(h[..|h| - 1]) + (if e.Leased? then [e.job] else [])
  }

  lemma LeasedInGrows(h: seq<Entry>, e: Entry)
    ensures LeasedIn(h + [e]) == LeasedIn(h) + (if e.Leased? then [e.job] else [])
  {
    assert (h + [e])[..|h|] == h;
  }

  /** From a to b the history records the lease of the job due next, and no other. */
  ghost predicate Records(a: Store, b: Store) {
    LeasedIn(b.history) == LeasedIn(a.history) + (if Due(a).Some? then [Due(a).value] else [])
  }

  lemma IterationRecords(s: Store, t: Trial)
    ensures Records(s, Iterate(s, t))
  {
    if Due(s).Some? {
      var leased := Lease(s, Due(s).value);
      LeasedInGrows(s.history, leased.history[|s.history|]);
      LeasedInGrows(leased.history, Iterate(s, t).history[|leased.history|]);
    }
  }

  lemma {:induction false} AllRecorded(ss: seq<Store>)
    requires |ss| > 0 && forall x :: 0 < x < |ss| ==> Records(ss[x - 1], ss[x])
    ensures LeasedIn(ss[|ss| - 1].history) == LeasedIn(ss[0].history) + LeasesAlong(ss)
  {
    if |ss| > 1 {
      AllRecorded(ss[..|ss| - 1]);
      assert Records(ss[|ss| - 1 - 1], ss[|ss| - 1]);
    }
  }

  /** The lease order is what the batch adds to the recorded leases. */
  lemma LeaseOrderIsRecorded(s: Store, oracle: Oracle, n: nat)
    ensures LeasedIn(Batch(s, oracle, n).history) == LeasedIn(s.history) + LeaseOrder(s, oracle, n)
  {
    var ss := Trace(s, oracle, n);
    forall x | 0 < x <= n ensures Records(ss[x - 1], ss[x]) {
      IterationRecords(Batch(s, oracle, x - 1), oracle(x - 1));
    }
    AllRecorded(ss);
  }

  // ---------------------------------------------------------------- one iteration, clock frozen

  ghost predicate Frozen(oracle: Oracle) {
    forall i :: oracle(i).took == 0
  }

  lemma {:induction false} SpawnedAreFresh(jobs: seq<Job>, orders: seq<Order>, now: int)
    requires EnqueueAll(jobs, orders, now).Ok?
    ensures var r := EnqueueAll(jobs, orders, now).value;
      jobs <= r && forall k :: |jobs| <= k < |r| ==> r[k].status == Pending && r[k].availableAt == now
  {
    if orders != [] {
      SpawnedAreFresh(jobs, orders[..|orders| - 1], now);
    }
  }

  lemma {:induction false} Power2Grows(n: nat)
    ensures Power2(n) >= 1 && (n > 0 ==> Power2(n) >= 2)
  {
    if n > 0 {
      Power2Grows(n - 1);
    }
  }

  /** What an iteration with a frozen clock does: the leased row is no longer due, the other
      rows are as they were, and what was spawned is due at once. */
  ghost predicate Calm(a: Store, b: Store) {
    && b.clock == a.clock && |a.jobs| <= |b.jobs|
    && (Due(a) == None ==> b == a)
    && (Due(a).Some? ==> !IsDue(b.jobs[Due(a).value], a.clock))
    && (forall j :: 0 <= j < |a.jobs| && Some(j) != Due(a) ==> b.jobs[j] == a.jobs[j])
    && (forall j :: |a.jobs| <= j < |b.jobs| ==> b.jobs[j].availableAt == a.clock && IsDue(b.jobs[j], a.clock))
  }

  lemma IterationIsCalm(s: Store, t: Trial)
    requires t.took == 0
    ensures Calm(s, Iterate(s, t))
  {
    if Due(s).Some? {
      var k := Due(s).value;
      var leased := Lease(s, k);
      if Commits(leased, t.outcome) {
        SpawnedAreFresh(leased.jobs, t.outcome.orders, s.clock);
      } else {
        var n := leased.jobs[k].attempts;
        Power2Grows(if n < 6 then n else 6);
      }
    }
  }

  ghost predicate CalmRun(ss: seq<Store>) {
    |ss| > 0 && forall x :: 0 < x < |ss| ==> Calm(ss[x - 1], ss[x])
  }

  lemma BatchIsCalm(s: Store, oracle: Oracle, n: nat)
    requires Frozen(oracle)
    ensures CalmRun(Trace(s, oracle, n))
  {
    forall x | 0 < x <= n ensures Calm(Trace(s, oracle, n)[x - 1], Trace(s, oracle, n)[x]) {
      IterationIsCalm(Batch(s, oracle, x - 1), oracle(x - 1));
    }
  }

  /** Rows that have not been leased are as they were, and so is the clock. */
  lemma {:induction false} UntilLeased(ss: seq<Store>, m: nat, n: nat, k: nat)
    requires CalmRun(ss) && m <= n < |ss| && k < |ss[m].jobs|
    requires forall x :: m <= x < n ==> Due(ss[x]) != Some(k)
    ensures |ss[m].jobs| <= |ss[n].jobs| && ss[n].jobs[k] == ss[m].jobs[k] && ss[n].clock == ss[m].clock
    decreases n
  {
    if m < n {
      UntilLeased(ss, m, n - 1, k);
      assert Calm(ss[n - 1], ss[n]);
    }
  }

  /** A row that is not due is never leased again. */
  lemma {:induction false} NotDueStaysOut(ss: seq<Store>, m: nat, n: nat, k: nat)
    requires CalmRun(ss) && m <= n < |ss| && k < |ss[m].jobs| && !IsDue(ss[m].jobs[k], ss[m].clock)
    ensures |ss[m].jobs| <= |ss[n].jobs| && ss[n].jobs[k] == ss[m].jobs[k] && ss[n].clock == ss[m].clock
    ensures Due(ss[n]) != Some(k)
    decreases n
  {
    if m < n {
      NotDueStaysOut(ss, m, n - 1, k);
      assert Calm(ss[n - 1], ss[n]);
    }
  }

  lemma {:induction false} ClockStands(ss: seq<Store>, n: nat)
    requires CalmRun(ss) && n < |ss|
    ensures ss[n].clock == ss[0].clock && |ss[0].jobs| <= |ss[n].jobs|
  {
    if n > 0 {
      ClockStands(ss, n - 1);
      assert Calm(ss[n - 1], ss[n]);
    }
  }

  // ---------------------------------------------------------------- draining

  function DueCount(jobs: seq<Job>, now: int): nat {
    if jobs == [] then 0 else DueCount(jobs[..|jobs| - 1], now) + (if IsDue(jobs[|jobs| - 1], now) then 1 else 0)
  }

  lemma {:induction false} DueCountAppends(a: seq<Job>, b: seq<Job>, now: int)
    ensures DueCount(a + b, now) == DueCount(a, now) + DueCount(b, now)
  {
    if b == [] {
      assert a + b == a;
    } else {
      DueCountAppends(a, b[..|b| - 1], now);
      assert (a + b)[..|a + b| - 1] == a + b[..|b| - 1] && (a + b)[|a + b| - 1] == b[|b| - 1];
    }
  }

  lemma {:induction false} AllDue(jobs: seq<Job>, now: int)
    requires forall k :: 0 <= k < |jobs| ==> IsDue(jobs[k], now)
    ensures DueCount(jobs, now) == |jobs|
  {
    if jobs != [] {
      AllDue(jobs[..|jobs| - 1], now);
    }
  }

  lemma {:induction false} NoneDue(jobs: seq<Job>, now: int)
    requires forall k :: 0 <= k < |jobs| ==> !IsDue(jobs[k], now)
    ensures DueCount(jobs, now) == 0
  {
    if jobs != [] {
      NoneDue(jobs[..|jobs| - 1], now);
    }
  }

  /** Changing one row changes the count by that row. */
  lemma {:induction false} DueCountUpdate(a: seq<Job>, b: seq<Job>, k: nat, now: int)
    requires |a| == |b| && k < |a| && forall j :: 0 <= j < |a| && j != k ==> a[j] == b[j]
    requires IsDue(a[k], now) && !IsDue(b[k], now)
    ensures DueCount(a, now) == DueCount(b, now) + 1
  {
    if k == |a| - 1 {
      assert a[..k] == b[..k];
    } else {
      DueCountUpdate(a[..|a| - 1], b[..|b| - 1], k, now);
    }
  }

  lemma {:induction false} SomeDue(jobs: seq<Job>, k: nat, now: int)
    requires k < |jobs| && IsDue(jobs[k], now)
    ensures DueCount(jobs, now) > 0
  {
    if k < |jobs| - 1 {
      SomeDue(jobs[..|jobs| - 1], k, now);
    }
  }

  lemma CalmCounts(a: Store, b: Store)
    requires Calm(a, b)
    ensures DueCount(b.jobs, a.clock)
         == DueCount(a.jobs, a.clock) + (|b.jobs| - |a.jobs|) - (if Due(a).Some? then 1 else 0)
  {
    if Due(a).Some? {
      var kept, spawned := b.jobs[..|a.jobs|], b.jobs[|a.jobs|..];
      assert b.jobs == kept + spawned;
      DueCountAppends(kept, spawned, a.clock);
      AllDue(spawned, a.clock);
      DueCountUpdate(a.jobs, kept, Due(a).value, a.clock);
    }
  }

  /** A run only leases fewer jobs than it has steps when nothing is due any more. */
  lemma {:induction false} StopsWhenIdle(ss: seq<Store>)
    requires CalmRun(ss)
    ensures |LeasesAlong(ss)| < |ss|
    ensures |LeasesAlong(ss)| < |ss| - 1 ==> Due(ss[|ss| - 1]) == None
  {
    if |ss| > 1 {
      StopsWhenIdle(ss[..|ss| - 1]);
      assert Calm(ss[|ss| - 1 - 1], ss[|ss| - 1]);
    }
  }

  /** What is due at the end is what was due, plus what dispatches enqueued, less what was leased. */
  lemma {:induction false} DueIsConserved(ss: seq<Store>)
    requires CalmRun(ss)
    ensures var r := ss[|ss| - 1];
      DueCount(r.jobs, ss[0].clock)
      == DueCount(ss[0].jobs, ss[0].clock) + (|r.jobs| - |ss[0].jobs|) - |LeasesAlong(ss)|
  {
    if |ss| > 1 {
      DueIsConserved(ss[..|ss| - 1]);
      ClockStands(ss, |ss| - 2);
      assert Calm(ss[|ss| - 1 - 1], ss[|ss| - 1]);
      CalmCounts(ss[|ss| - 2], ss[|ss| - 1]);
    }
  }

  /** Conservation over a batch: it leases fewer jobs than its limit only when nothing is due at
      the end, and a limit that covers what is due and what is enqueued drains the queue. */
  lemma BatchDrains(s: Store, oracle: Oracle, n: nat)
    requires Frozen(oracle)
    ensures var r := Batch(s, oracle, n);
      var leases := |LeaseOrder(s, oracle, n)|;
      && r.clock == s.clock && |s.jobs| <= |r.jobs| && leases <= n
      && DueCount(r.jobs, s.clock) == DueCount(s.jobs, s.clock) + (|r.jobs| - |s.jobs|) - leases
      && (leases < n || DueCount(s.jobs, s.clock) + (|r.jobs| - |s.jobs|) <= n ==>
            DueCount(r.jobs, s.clock) == 0 && forall k :: 0 <= k < |r.jobs| ==> !IsDue(r.jobs[k], s.clock))
  {
    var ss := Trace(s, oracle, n);
    BatchIsCalm(s, oracle, n);
    DueIsConserved(ss);
    StopsWhenIdle(ss);
    ClockStands(ss, n);
    if Due(ss[n]) == None {
      NoneDue(ss[n].jobs, s.clock);
    } else {
      SomeDue(ss[n].jobs, Due(ss[n]).value, s.clock);
    }
  }

  // ---------------------------------------------------------------- order

  /** The last step leases nothing, or the job that is then the last of the lease order. */
  lemma LastLease(ss: seq<Store>)
    requires CalmRun(ss) && |ss| > 1
    ensures var init, k := LeasesAlong(ss[..|ss| - 1]), Due(ss[|ss| - 2]);
      if k == None then LeasesAlong(ss) == init else LeasesAlong(ss) == init + [k.value] && |init| == |ss| - 2
  {
    StopsWhenIdle(ss[..|ss| - 1]);
  }

  /** The x-th lease is the x-th step's. */
  lemma {:induction false} LeaseAt(ss: seq<Store>, x: nat)
    requires CalmRun(ss) && x < |LeasesAlong(ss)|
    ensures x < |ss| - 1 && Due(ss[x]) == Some(LeasesAlong(ss)[x])
  {
    LastLease(ss);
    if x < |LeasesAlong(ss[..|ss| - 1])| {
      LeaseAt(ss[..|ss| - 1], x);
    }
  }

  /** What one step leases no later one does. */
  lemma NotLeasedAgain(ss: seq<Store>, x: nat, y: nat, k: nat)
    requires CalmRun(ss) && x < y < |ss| && Due(ss[x]) == Some(k)
    ensures Due(ss[y]) != Some(k)
  {
    assert Calm(ss[x + 1 - 1], ss[x + 1]);
    NotDueStaysOut(ss, x + 1, y, k);
  }

  /** With the clock frozen a batch leases each job at most once. */
  lemma LeasedAtMostOnce(s: Store, oracle: Oracle, n: nat, x: nat, y: nat)
    requires Frozen(oracle) && x < y < |LeaseOrder(s, oracle, n)|
    ensures LeaseOrder(s, oracle, n)[x] != LeaseOrder(s, oracle, n)[y]
  {
    var ss := Trace(s, oracle, n);
    BatchIsCalm(s, oracle, n);
    LeaseAt(ss, x);
    LeaseAt(ss, y);
    NotLeasedAgain(ss, x, y, LeasesAlong(ss)[x]);
  }

  /** Up to its lease a job is as it was at the start. */
  lemma AsAtTheStart(ss: seq<Store>, x: nat, y: nat, k: nat)
    requires CalmRun(ss) && x <= y < |ss| && k < |ss[0].jobs| && Due(ss[y]) == Some(k)
    ensures |ss[0].jobs| <= |ss[x].jobs| && ss[x].jobs[k] == ss[0].jobs[k] && IsDue(ss[x].jobs[k], ss[x].clock)
  {
    forall z | 0 <= z < y ensures Due(ss[z]) != Some(k) {
      if Due(ss[z]) == Some(k) {
        NotLeasedAgain(ss, z, y, k);
      }
    }
    UntilLeased(ss, 0, x, k);
    UntilLeased(ss, 0, y, k);
  }

  lemma EarlierIsBefore(ss: seq<Store>, x: nat, y: nat, a: nat, b: nat)
    requires CalmRun(ss) && x < y < |ss| && a < |ss[0].jobs| && b < |ss[0].jobs|
    requires Due(ss[x]) == Some(a) && Due(ss[y]) == Some(b)
    ensures Before(ss[0].jobs, a, b)
  {
    NotLeasedAgain(ss, x, y, a);
    AsAtTheStart(ss, x, x, a);
    AsAtTheStart(ss, x, y, b);
    SameRowsSameOrder(ss[0].jobs, ss[x].jobs, a, b);
  }

  /** Jobs that exist when the batch starts are leased in row order: priority, availability, id. */
  lemma LeasedInOrder(s: Store, oracle: Oracle, n: nat, x: nat, y: nat)
    requires Frozen(oracle)
    requires var order := LeaseOrder(s, oracle, n); x < y < |order| && order[x] < |s.jobs| && order[y] < |s.jobs|
    ensures var order := LeaseOrder(s, oracle, n);
      GoesFirst(s.jobs[order[x]], order[x], s.jobs[order[y]], order[y])
  {
    var ss := Trace(s, oracle, n);
    BatchIsCalm(s, oracle, n);
    LeaseAt(ss, x);
    LeaseAt(ss, y);
    EarlierIsBefore(ss, x, y, LeasesAlong(ss)[x], LeasesAlong(ss)[y]);
  }

  lemma SameRowsSameOrder(a: seq<Job>, b: seq<Job>, x: nat, y: nat)
    requires x < |a| && y < |a| && |a| <= |b| && a[x] == b[x] && a[y] == b[y]
    ensures Before(a, x, y) == Before(b, x, y)
  {
  }

  // ---------------------------------------------------------------- no starvation

  /** Due jobs ahead of job k in row order, among the first n rows. */
  function Ahead(jobs: seq<Job>, now: int, k: nat, n: nat): nat
    requires k < |jobs| && n <= |jobs|
  {
    if n == 0 then 0
    else Ahead(jobs, now, k, n - 1) + (if IsDue(jobs[n - 1], now) && Before(jobs, n - 1, k) then 1 else 0)
  }

  /** What is spawned along the way has no smaller priority number than p. */
  ghost predicate SpawnedNoSmaller(a: Store, b: Store, p: int) {
    forall j :: |a.jobs| <= j < |b.jobs| ==> b.jobs[j].priority >= p
  }

  /** No dispatch of the batch enqueues a job of a smaller priority number than p. */
  ghost predicate SpawnsNoSmaller(oracle: Oracle, p: int) {
    forall i, o :: oracle(i).outcome.Succeeds? && o in oracle(i).outcome.orders ==> Clamp(o.priority, 0, 1000) >= p
  }

  lemma {:induction false} SpawnedPriorities(jobs: seq<Job>, orders: seq<Order>, now: int, p: int)
    requires EnqueueAll(jobs, orders, now).Ok?
    requires forall o :: o in orders ==> Clamp(o.priority, 0, 1000) >= p
    ensures var r := EnqueueAll(jobs, orders, now).value;
      jobs <= r && forall k :: |jobs| <= k < |r| ==> r[k].priority >= p
  {
    if orders != [] {
      SpawnedPriorities(jobs, orders[..|orders| - 1], now, p);
    }
  }

  lemma IterationSpawns(s: Store, t: Trial, p: int)
    requires t.took == 0
    requires t.outcome.Succeeds? ==> forall o :: o in t.outcome.orders ==> Clamp(o.priority, 0, 1000) >= p
    ensures SpawnedNoSmaller(s, Iterate(s, t), p)
  {
    if Due(s).Some? {
      var leased := Lease(s, Due(s).value);
      if Commits(leased, t.outcome) {
        SpawnedPriorities(leased.jobs, t.outcome.orders, s.clock, p);
      }
    }
  }

  /** Taking a job that was ahead leaves one fewer ahead. */
  lemma {:induction false} AheadUpdate(a: seq<Job>, b: seq<Job>, now: int, taken: nat, k: nat, n: nat)
    requires taken < |a| <= |b| && k < |a| && n <= |b| && taken != k
    requires forall j :: 0 <= j < |a| && j != taken ==> b[j] == a[j]
    requires IsDue(a[taken], now) && Before(a, taken, k) && !IsDue(b[taken], now)
    requires forall j :: |a| <= j < |b| ==> !Before(b, j, k)
    ensures Ahead(b, now, k, n) == Ahead(a, now, k, if n < |a| then n else |a|) - (if taken < n then 1 else 0)
  {
    if n > 0 {
      AheadUpdate(a, b, now, taken, k, n - 1);
    }
  }

  lemma OneFewerAhead(a: Store, b: Store, k: nat)
    requires Calm(a, b) && k < |a.jobs| && IsDue(a.jobs[k], a.clock) && a.jobs[k].availableAt <= a.clock
    requires Due(a) != Some(k) && SpawnedNoSmaller(a, b, a.jobs[k].priority)
    ensures Ahead(b.jobs, a.clock, k, |b.jobs|) == Ahead(a.jobs, a.clock, k, |a.jobs|) - 1
  {
    AheadUpdate(a.jobs, b.jobs, a.clock, Due(a).value, k, |b.jobs|);
  }

  /** As long as it is not leased itself, each step leases a job ahead of it. */
  lemma {:induction false} MovesUp(ss: seq<Store>, n: nat, k: nat)
    requires CalmRun(ss) && n < |ss| && k < |ss[0].jobs|
    requires IsDue(ss[0].jobs[k], ss[0].clock) && ss[0].jobs[k].availableAt <= ss[0].clock
    requires forall x :: 0 < x <= n ==> SpawnedNoSmaller(ss[x - 1], ss[x], ss[0].jobs[k].priority)
    requires forall x :: 0 <= x < n ==> Due(ss[x]) != Some(k)
    ensures |ss[0].jobs| <= |ss[n].jobs|
    ensures Ahead(ss[n].jobs, ss[0].clock, k, |ss[n].jobs|) == Ahead(ss[0].jobs, ss[0].clock, k, |ss[0].jobs|) - n
  {
    if n > 0 {
      MovesUp(ss, n - 1, k);
      UntilLeased(ss, 0, n - 1, k);
      ClockStands(ss, n);
      assert Calm(ss[n - 1], ss[n]);
      OneFewerAhead(ss[n - 1], ss[n], k);
    }
  }

  lemma {:induction false} LeasedIsInOrder(ss: seq<Store>, x: nat, k: nat)
    requires x < |ss| - 1 && Due(ss[x]) == Some(k)
    ensures k in LeasesAlong(ss)
  {
    if x < |ss| - 2 {
      LeasedIsInOrder(ss[..|ss| - 1], x, k);
    }
  }

  /** A due job with fewer than n due jobs ahead of it is leased within n iterations, even when
      dispatches enqueue more work, as long as that work has no smaller priority number. */
  lemma NoStarvation(s: Store, oracle: Oracle, n: nat, k: nat)
    requires Frozen(oracle) && k < |s.jobs| && IsDue(s.jobs[k], s.clock)
    requires s.jobs[k].availableAt <= s.clock && SpawnsNoSmaller(oracle, s.jobs[k].priority)
    requires Ahead(s.jobs, s.clock, k, |s.jobs|) < n
    ensures k in LeaseOrder(s, oracle, n)
  {
    var ss := Trace(s, oracle, n);
    BatchIsCalm(s, oracle, n);
    if x: nat :| x < n && Due(ss[x]) == Some(k) {
      LeasedIsInOrder(ss, x, k);
    } else {
      forall x | 0 < x <= n ensures SpawnedNoSmaller(ss[x - 1], ss[x], s.jobs[k].priority) {
        IterationSpawns(Batch(s, oracle, x - 1), oracle(x - 1), s.jobs[k].priority);
      }
      MovesUp(ss, n, k);
    }
  }

  /** On every reachable table due jobs meet the availability condition of NoStarvation. */
  lemma DueJobsWereAvailable(steps: seq<Timed>, k: nat)
    requires k < |Run(EMPTY, steps).jobs| && IsDue(Run(EMPTY, steps).jobs[k], Run(EMPTY, steps).clock)
    ensures Run(EMPTY, steps).jobs[k].availableAt <= Run(EMPTY, steps).clock
  {
    RunKeeps(EMPTY, steps);
    var s := Run(EMPTY, steps);
    assert JobOk(s.jobs[k], s.history, k, s.clock);
  }
}
