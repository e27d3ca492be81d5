/** The durable outbox (app/services/outbox.py) as a protocol of steps with crashes, run by the
    single writer that holds the write lock. */
module Outbox {
  import opened Common

  datatype Status = Pending | Processing | Completed | Failed

  datatype Job = Job(kind: string, dedupe: Option<string>, status: Status, priority: int,
                     attempts: nat, maxAttempts: nat, availableAt: int,
                     lockedAt: Option<int>, completedAt: Option<int>)

  /** A request to enqueue. */
  datatype Order = Order(kind: string, dedupe: string, maxAttempts: int, priority: int)

  /** What has been committed about the jobs, oldest first. */
  datatype Entry = Leased(job: nat, reclaimed: bool) | Dispatched(job: nat) | RolledBack(job: nat) | Crashed

  /** The table, the job the writer holds between its two transactions, and what happened. */
  datatype Store = Store(clock: int, jobs: seq<Job>, flying: Option<nat>, history: seq<Entry>)

  const STALE := 120 * SECOND
  const KEY_LIMIT := 180

  // ---------------------------------------------------------------- enqueueing

  function Clamp(x: int, lo: int, hi: int): int {
    if x < lo then lo else if x > hi then hi else x
  }

  function CutKey(key: string): string {
    if |key| <= KEY_LIMIT then key else key[..KEY_LIMIT]
  }

  /** The first job with this stored key, or |jobs|. */
  function FindKey(jobs: seq<Job>, key: string): (i: nat)
    ensures i <= |jobs|
    ensures i < |jobs| ==> jobs[i].dedupe == Some(key)
    ensures forall j :: 0 <= j < i ==> jobs[j].dedupe != Some(key)
  {
    if jobs == [] || jobs[0].dedupe == Some(key) then 0
    else
      var i := FindKey(jobs[1..], key);
      assert forall j :: 0 < j < i + 1 ==> jobs[j] == jobs[1..][j - 1];
      i + 1
  }

  function NewJob(o: Order, now: int): Job {
    Job(o.kind, if o.dedupe == "" then None else Some(CutKey(o.dedupe)), Pending, Clamp(o.priority, 0, 1000),
        0, if o.maxAttempts < 1 then 1 else o.maxAttempts, now, None, None)
  }

  /** enqueue_job: the id and the table; an error is the violated unique constraint. The lookup
      uses the key as given, the row stores its first 180 characters. */
  function Enqueue(jobs: seq<Job>, o: Order, now: int): Result<(nat, seq<Job>), string> {
    if o.dedupe != "" && FindKey(jobs, o.dedupe) < |jobs| then Ok((FindKey(jobs, o.dedupe), jobs))
    else if o.dedupe != "" && FindKey(jobs, CutKey(o.dedupe)) < |jobs| then Err("uq_outbox_dedupe_key")
    else Ok((|jobs|, jobs + [NewJob(o, now)]))
  }

  function EnqueueAll(jobs: seq<Job>, orders: seq<Order>, now: int): (r: Result<seq<Job>, string>)
    ensures r.Ok? ==> jobs <= r.value
  {
    if orders == [] then Ok(jobs)
    else
      var r := EnqueueAll(jobs, orders[..|orders| - 1], now);
      if r.Err? then r
      else
        var last := Enqueue(r.value, orders[|orders| - 1], now);
        if last.Err? then Err(last.error) else Ok(last.value.1)
  }

  // ---------------------------------------------------------------- what is due

  predicate IsDue(j: Job, now: int) {
    (j.status == Pending && j.availableAt <= now)
    || (j.status == Processing && j.lockedAt.Some? && j.lockedAt.value < now - STALE)
  }

  /** Row order: priority, then availability, then id. */
  predicate Before(jobs: seq<Job>, a: nat, b: nat)
    requires a < |jobs| && b < |jobs|
  {
    if jobs[a].priority != jobs[b].priority then jobs[a].priority < jobs[b].priority
    else if jobs[a].availableAt != jobs[b].availableAt then jobs[a].availableAt < jobs[b].availableAt
    else a < b
  }

  /** The first due job in row order. */
  function NextDue(jobs: seq<Job>, now: int, n: nat): (r: Option<nat>)
    requires n <= |jobs|
    ensures r == None ==> forall k :: 0 <= k < n ==> !IsDue(jobs[k], now)
    ensures r.Some? ==> r.value < n && IsDue(jobs[r.value], now)
    ensures r.Some? ==> forall k :: 0 <= k < n && IsDue(jobs[k], now) && k != r.value ==> Before(jobs, r.value, k)
  {
    if n == 0 then None
    else
      var best := NextDue(jobs, now, n - 1);
      if !IsDue(jobs[n - 1], now) then best
      else if best == None || Before(jobs, n - 1, best.value) then Some(n - 1)
      else best
  }

  // ---------------------------------------------------------------- the steps

  function Power2(n: nat): nat {
    if n == 0 then 1 else 2 * Power2(n - 1)
  }

  /** Seconds to wait after the n-th attempt failed. */
  function Backoff(n: nat): int {
    var seconds := Power2(if n < 6 then n else 6);
    if seconds < 60 then seconds else 60
  }

  function LeaseRow(j: Job, now: int): Job {
    j.(status := Processing, lockedAt := Some(now), attempts := j.attempts + 1)
  }

  function CompleteRow(j: Job, now: int): Job {
    j.(status := Completed, completedAt := Some(now), lockedAt := None)
  }

  function FailRow(j: Job, now: int): Job {
    if j.attempts >= j.maxAttempts then j.(status := Failed, lockedAt := None)
    else j.(status := Pending, lockedAt := None, availableAt := now + Backoff(j.attempts) * SECOND)
  }

  function Lease(s: Store, k: nat): Store
    requires k < |s.jobs|
  {
    s.(jobs := s.jobs[k := LeaseRow(s.jobs[k], s.clock)], flying := Some(k),
       history := s.history + [Leased(k, s.jobs[k].status == Processing)])
  }

  function Rollback(s: Store, k: nat): Store
    requires k < |s.jobs|
  {
    s.(jobs := s.jobs[k := FailRow(s.jobs[k], s.clock)], flying := None, history := s.history + [RolledBack(k)])
  }

  /** What a dispatch does: raise, or commit together with the jobs it enqueued. */
  datatype Dispatch = Raises | Succeeds(changes: nat, orders: seq<Order>)

  function Commits(s: Store, d: Dispatch): bool {
    d.Succeeds? && EnqueueAll(s.jobs, d.orders, s.clock).Ok?
  }

  /** The second transaction: commit, or roll back and record the failure. */
  function Finish(s: Store, k: nat, d: Dispatch): Store
    requires k < |s.jobs|
  {
    if Commits(s, d) then
      var jobs := EnqueueAll(s.jobs, d.orders, s.clock).value;
      s.(jobs := jobs[k := CompleteRow(jobs[k], s.clock)], flying := None, history := s.history + [Dispatched(k)])
    else Rollback(s, k)
  }

  datatype Step = Arrive(order: Order) | LeaseNext | Complete(outcome: Dispatch) | Crash

  datatype Timed = Timed(wait: nat, step: Step)

  /** One step of the writer, of a client, or of the operating system. */
  function Perform(s: Store, step: Step): Store {
    match step
    case Arrive(o) =>
      var r := Enqueue(s.jobs, o, s.clock);
      if r.Ok? then s.(jobs := r.value.1) else s
    case LeaseNext =>
      var next := NextDue(s.jobs, s.clock, |s.jobs|);
      if s.flying.Some? || next == None then s else Lease(s, next.value)
    case Complete(d) =>
      if s.flying.Some? && s.flying.value < |s.jobs| then Finish(s, s.flying.value, d) else s
    case Crash => s.(flying := None, history := s.history + [Crashed])
  }

  function Next(s: Store, t: Timed): Store {
    Perform(s.(clock := s.clock + t.wait), t.step)
  }

  function Run(s: Store, steps: seq<Timed>): Store {
    if steps == [] then s else Next(Run(s, steps[..|steps| - 1]), steps[|steps| - 1])
  }

  const EMPTY := Store(0, [], None, [])

  // ---------------------------------------------------------------- counting in the history

  function Leases(h: seq<Entry>, k: nat): nat {
    if h == [] then 0 else Leases(h[..|h| - 1], k) + (if h[|h| - 1].Leased? && h[|h| - 1].job == k then 1 else 0)
  }

  function Reclaims(h: seq<Entry>, k: nat): nat {
    if h == [] then 0 else Reclaims(h[..|h| - 1], k) + (if h[|h| - 1] == Leased(k, true) then 1 else 0)
  }

  /** Committed dispatch effects of job k. */
  function Effects(h: seq<Entry>, k: nat): nat {
    if h == [] then 0 else Effects(h[..|h| - 1], k) + (if h[|h| - 1] == Dispatched(k) then 1 else 0)
  }

  lemma HistoryGrows(h: seq<Entry>, e: Entry, k: nat)
    ensures Leases(h + [e], k) == Leases(h, k) + (if e.Leased? && e.job == k then 1 else 0)
    ensures Reclaims(h + [e], k) == Reclaims(h, k) + (if e == Leased(k, true) then 1 else 0)
    ensures Effects(h + [e], k) == Effects(h, k) + (if e == Dispatched(k) then 1 else 0)
  {
    assert (h + [e])[..|h|] == h;
  }

  // ---------------------------------------------------------------- the invariant

  ghost predicate JobOk(j: Job, h: seq<Entry>, k: nat, now: int) {
    && j.maxAttempts >= 1
    && j.attempts == Leases(h, k)
    && j.attempts <= j.maxAttempts + Reclaims(h, k)
    && Effects(h, k) == (if j.status == Completed then 1 else 0)
    && (j.status == Pending ==> j.attempts < j.maxAttempts && j.lockedAt == None)
    && (j.status == Processing ==> j.attempts >= 1 && j.lockedAt.Some? && j.availableAt <= j.lockedAt.value <= now)
    && (j.status == Failed ==> j.attempts >= j.maxAttempts)
    && (j.completedAt.Some? <==> j.status == Completed)
    && (j.dedupe.Some? ==> 0 < |j.dedupe.value| <= KEY_LIMIT)
  }

  ghost predicate UniqueKeys(jobs: seq<Job>) {
    forall a, b :: 0 <= a < b < |jobs| && jobs[a].dedupe.Some? ==> jobs[b].dedupe != jobs[a].dedupe
  }

  ghost predicate Inv(s: Store) {
    && (forall k :: 0 <= k < |s.jobs| ==> JobOk(s.jobs[k], s.history, k, s.clock))
    && (forall n :: 0 <= n < |s.history| && !s.history[n].Crashed? ==> s.history[n].job < |s.jobs|)
    && UniqueKeys(s.jobs)
    && (s.flying.Some? ==> s.flying.value < |s.jobs| && s.jobs[s.flying.value].status == Processing)
  }

  lemma {:induction false} NothingRecorded(h: seq<Entry>, k: nat)
    requires forall n :: 0 <= n < |h| && !h[n].Crashed? ==> h[n].job < k
    ensures Leases(h, k) == 0 && Reclaims(h, k) == 0 && Effects(h, k) == 0
  {
    if h != [] {
      NothingRecorded(h[..|h| - 1], k);
    }
  }

  lemma EnqueueKeeps(s: Store, o: Order)
    requires Inv(s) && Enqueue(s.jobs, o, s.clock).Ok?
    ensures Inv(s.(jobs := Enqueue(s.jobs, o, s.clock).value.1))
  {
    NothingRecorded(s.history, |s.jobs|);
  }

  lemma {:induction false} EnqueueAllKeeps(s: Store, orders: seq<Order>)
    requires Inv(s) && EnqueueAll(s.jobs, orders, s.clock).Ok?
    ensures Inv(s.(jobs := EnqueueAll(s.jobs, orders, s.clock).value))
  {
    if orders != [] {
      var init := orders[..|orders| - 1];
      EnqueueAllKeeps(s, init);
      EnqueueKeeps(s.(jobs := EnqueueAll(s.jobs, init, s.clock).value), orders[|orders| - 1]);
    }
  }

  /** Rewriting row k and recording one entry about it. */
  lemma RowStepKeeps(s: Store, k: nat, j: Job, e: Entry, flying: Option<nat>)
    requires Inv(s) && k < |s.jobs| && !e.Crashed? && e.job == k
    requires j.dedupe == s.jobs[k].dedupe
    requires JobOk(j, s.history + [e], k, s.clock)
    requires flying.Some? ==> flying.value == k && j.status == Processing
    ensures Inv(s.(jobs := s.jobs[k := j], flying := flying, history := s.history + [e]))
  {
    forall n: nat | n < |s.jobs| && n != k ensures JobOk(s.jobs[n], s.history + [e], n, s.clock) {
      HistoryGrows(s.history, e, n);
    }
  }

  lemma LeaseKeeps(s: Store, k: nat)
    requires Inv(s) && k < |s.jobs| && IsDue(s.jobs[k], s.clock)
    ensures Inv(Lease(s, k))
  {
    var e := Leased(k, s.jobs[k].status == Processing);
    HistoryGrows(s.history, e, k);
    RowStepKeeps(s, k, LeaseRow(s.jobs[k], s.clock), e, Some(k));
  }

  lemma RollbackKeeps(s: Store, k: nat)
    requires Inv(s) && k < |s.jobs| && s.jobs[k].status == Processing
    ensures Inv(Rollback(s, k))
  {
    HistoryGrows(s.history, RolledBack(k), k);
    RowStepKeeps(s, k, FailRow(s.jobs[k], s.clock), RolledBack(k), None);
  }

  lemma FinishKeeps(s: Store, k: nat, d: Dispatch)
    requires Inv(s) && k < |s.jobs| && s.jobs[k].status == Processing
    ensures Inv(Finish(s, k, d))
  {
    if Commits(s, d) {
      EnqueueAllKeeps(s, d.orders);
      var m := s.(jobs := EnqueueAll(s.jobs, d.orders, s.clock).value);
      HistoryGrows(s.history, Dispatched(k), k);
      RowStepKeeps(m, k, CompleteRow(m.jobs[k], s.clock), Dispatched(k), None);
    } else {
      RollbackKeeps(s, k);
    }
  }

  lemma CrashKeeps(s: Store)
    requires Inv(s)
    ensures Inv(Perform(s, Crash))
  {
    forall k: nat | k < |s.jobs| ensures JobOk(s.jobs[k], s.history + [Crashed], k, s.clock) {
      HistoryGrows(s.history, Crashed, k);
    }
  }

  lemma NextKeeps(s: Store, t: Timed)
    requires Inv(s)
    ensures Inv(Next(s, t))
  {
    WaitKeeps(s, t.wait);
    PerformKeeps(s.(clock := s.clock + t.wait), t.step, Next(s, t));
  }

  lemma WaitKeeps(s: Store, wait: nat)
    requires Inv(s)
    ensures Inv(s.(clock := s.clock + wait))
  {
    forall k: nat | k < |s.jobs| ensures JobOk(s.jobs[k], s.history, k, s.clock + wait) {
      assert JobOk(s.jobs[k], s.history, k, s.clock);
    }
  }

  lemma PerformKeeps(m: Store, step: Step, r: Store)
    requires Inv(m) && r == Perform(m, step)
    ensures Inv(r)
  {
    match step
    case Arrive(o) =>
      if Enqueue(m.jobs, o, m.clock).Ok? {
        EnqueueKeeps(m, o);
      }
    case LeaseNext =>
      var next := NextDue(m.jobs, m.clock, |m.jobs|);
      if m.flying == None && next.Some? {
        LeaseKeeps(m, next.value);
      }
    case Complete(d) =>
      if m.flying.Some? {
        FinishKeeps(m, m.flying.value, d);
      }
    case Crash => CrashKeeps(m);
  }

  /** Every run, with crashes anywhere, keeps the invariant. */
  lemma {:induction false} RunKeeps(s: Store, steps: seq<Timed>)
    requires Inv(s)
    ensures Inv(Run(s, steps))
  {
    if steps != [] {
      RunKeeps(s, steps[..|steps| - 1]);
      NextKeeps(Run(s, steps[..|steps| - 1]), steps[|steps| - 1]);
    }
  }

  // ---------------------------------------------------------------- main results

  /** Whatever happens, a completed job has exactly one committed dispatch effect and any other
      job none; retries are bounded except for reclaims, and no job is given up before its limit. */
  lemma ExactlyOnceCommit(steps: seq<Timed>, k: nat)
    requires k < |Run(EMPTY, steps).jobs|
    ensures var s := Run(EMPTY, steps);
      var j := s.jobs[k];
      && Effects(s.history, k) == (if j.status == Completed then 1 else 0)
      && j.attempts == Leases(s.history, k) <= j.maxAttempts + Reclaims(s.history, k)
      && (j.status == Pending ==> j.attempts < j.maxAttempts)
      && (j.status == Failed ==> j.attempts >= j.maxAttempts)
  {
    RunKeeps(EMPTY, steps);
    assert JobOk(Run(EMPTY, steps).jobs[k], Run(EMPTY, steps).history, k, Run(EMPTY, steps).clock);
  }

  predicate Final(j: Job) {
    j.status == Completed || j.status == Failed
  }

  lemma StepKeepsFinal(s: Store, t: Timed, k: nat)
    requires Inv(s) && k < |s.jobs| && Final(s.jobs[k])
    ensures k < |Next(s, t).jobs| && Next(s, t).jobs[k] == s.jobs[k]
  {
  }

  /** Completed and Failed are absorbing: such a row never changes again. */
  lemma {:induction false} FinalIsForEver(s: Store, steps: seq<Timed>, k: nat)
    requires Inv(s) && k < |s.jobs| && Final(s.jobs[k])
    ensures k < |Run(s, steps).jobs| && Run(s, steps).jobs[k] == s.jobs[k]
  {
    if steps != [] {
      var init := steps[..|steps| - 1];
      FinalIsForEver(s, init, k);
      RunKeeps(s, init);
      StepKeepsFinal(Run(s, init), steps[|steps| - 1], k);
    }
  }

  /** No job is ever lost: one that is not final is due from some instant on, if nothing
      touches it. */
  lemma NothingIsStranded(steps: seq<Timed>, k: nat) returns (since: int)
    requires k < |Run(EMPTY, steps).jobs| && !Final(Run(EMPTY, steps).jobs[k])
    ensures forall now :: now >= since ==> IsDue(Run(EMPTY, steps).jobs[k], now)
  {
    RunKeeps(EMPTY, steps);
    var s := Run(EMPTY, steps);
    assert JobOk(s.jobs[k], s.history, k, s.clock);
    var j := s.jobs[k];
    since := if j.status == Pending then j.availableAt else j.lockedAt.value + STALE + 1;
  }

  /** Enqueueing the same key again returns the same row and changes nothing exactly when the
      key fits the 180 characters that are stored; a longer key makes it fail instead. */
  lemma DedupeIsIdempotentIff(s: Store, o: Order, later: int)
    requires Inv(s) && o.dedupe != "" && Enqueue(s.jobs, o, s.clock).Ok?
    ensures var first := Enqueue(s.jobs, o, s.clock);
      var again := Enqueue(first.value.1, o, later);
      && (again == Ok((first.value.0, first.value.1)) <==> |o.dedupe| <= 180)
      && (again.Err? <==> |o.dedupe| > 180)
  {
    var first := Enqueue(s.jobs, o, s.clock);
    var jobs := first.value.1;
    EnqueueKeeps(s, o);
    if |o.dedupe| <= KEY_LIMIT {
      assert jobs[first.value.0].dedupe == Some(o.dedupe);
      SameKeySameRow(jobs, FindKey(jobs, o.dedupe), first.value.0);
    } else {
      assert forall k :: 0 <= k < |jobs| ==> jobs[k].dedupe != Some(o.dedupe) by {
        forall k | 0 <= k < |jobs| ensures jobs[k].dedupe != Some(o.dedupe) {
          assert JobOk(jobs[k], s.history, k, s.clock);
        }
      }
      assert jobs[|s.jobs|].dedupe == Some(CutKey(o.dedupe));
    }
  }

  lemma SameKeySameRow(jobs: seq<Job>, a: nat, b: nat)
    requires UniqueKeys(jobs) && a < |jobs| && b < |jobs| && jobs[a].dedupe.Some?
    ensures jobs[a].dedupe == jobs[b].dedupe ==> a == b
  {
  }

  // ---------------------------------------------------------------- what each step leaves

  /** Nobody but row k is touched. */
  ghost predicate OnlyJob(a: seq<Job>, b: seq<Job>, k: nat) {
    |a| <= |b| && forall n :: 0 <= n < |a| && n != k ==> b[n] == a[n]
  }

  /** A job that may be taken now: waiting and available, or taken more than 120 seconds ago. */
  ghost predicate MayBeTaken(j: Job, now: int) {
    || (j.status == Pending && j.availableAt <= now)
    || (j.status == Processing && j.lockedAt.Some? && now - j.lockedAt.value > 120_000)
  }

  /** A smaller priority number, then an earlier availability, then a smaller id goes first. */
  ghost predicate GoesFirst(a: Job, i: nat, b: Job, k: nat) {
    || a.priority < b.priority
    || (a.priority == b.priority && a.availableAt < b.availableAt)
    || (a.priority == b.priority && a.availableAt == b.availableAt && i < k)
  }

  /** A lease takes the job that goes first of all that may be taken, counts the attempt and
      notes the moment; it takes none exactly when there is none. */
  lemma LeaseLeaves(s: Store, wait: nat)
    requires s.flying == None
    ensures var r := Next(s, Timed(wait, LeaseNext));
      && r.clock == s.clock + wait
      && (r.flying == None <==> forall n :: 0 <= n < |s.jobs| ==> !MayBeTaken(s.jobs[n], r.clock))
      && (r.flying == None ==> r.jobs == s.jobs && r.history == s.history)
      && (r.flying.Some? ==>
            var k := r.flying.value;
            && k < |s.jobs| == |r.jobs| && MayBeTaken(s.jobs[k], r.clock) && OnlyJob(s.jobs, r.jobs, k)
            && (forall n :: 0 <= n < |s.jobs| && n != k && MayBeTaken(s.jobs[n], r.clock) ==>
                  GoesFirst(s.jobs[k], k, s.jobs[n], n))
            && r.jobs[k] == s.jobs[k].(status := Processing, lockedAt := Some(r.clock),
                                       attempts := s.jobs[k].attempts + 1)
            && r.history == s.history + [Leased(k, s.jobs[k].status == Processing)])
  {
    var m := s.(clock := s.clock + wait);
    assert forall n :: 0 <= n < |s.jobs| ==> IsDue(s.jobs[n], m.clock) == MayBeTaken(s.jobs[n], m.clock);
    var next := NextDue(m.jobs, m.clock, |m.jobs|);
    if next.Some? {
      forall n | 0 <= n < |s.jobs| && n != next.value && MayBeTaken(s.jobs[n], m.clock)
        ensures GoesFirst(s.jobs[next.value], next.value, s.jobs[n], n)
      {
        assert Before(m.jobs, next.value, n);
      }
    }
  }

  /** Seconds to wait after this many failed attempts: 2, 4, 8, 16, 32, and 60 from then on. */
  ghost predicate RetryDelay(attempts: nat, seconds: int) {
    seconds == if attempts == 1 then 2 else if attempts == 2 then 4 else if attempts == 3 then 8
               else if attempts == 4 then 16 else if attempts == 5 then 32 else 60
  }

  lemma BackoffIsDelay(n: nat)
    requires n >= 1
    ensures RetryDelay(n, Backoff(n))
  {
    assert Power2(1) == 2 && Power2(2) == 4 && Power2(3) == 8;
    assert Power2(4) == 16 && Power2(5) == 32 && Power2(6) == 64;
  }

  /** Row a after an attempt that failed at this moment: waiting for its retry exactly while it
      has attempts left, and failed otherwise. */
  ghost predicate AfterFailure(a: Job, b: Job, now: int) {
    && b == a.(status := b.status, availableAt := b.availableAt, lockedAt := None)
    && a.attempts >= 1
    && if a.attempts < a.maxAttempts then
         b.status == Pending
         && exists seconds: int :: RetryDelay(a.attempts, seconds) && b.availableAt == now + seconds * 1000
       else b.status == Failed && b.availableAt == a.availableAt
  }

  lemma RowAfterFailure(a: Job, now: int)
    requires a.attempts >= 1
    ensures AfterFailure(a, FailRow(a, now), now)
  {
    BackoffIsDelay(a.attempts);
  }

  /** What a failed completion leaves of the store. */
  ghost predicate FailedAttempt(s: Store, r: Store)
    requires s.flying.Some?
  {
    var k := s.flying.value;
    && k < |s.jobs| == |r.jobs| && OnlyJob(s.jobs, r.jobs, k)
    && r.flying == None && r.history == s.history + [RolledBack(k)]
    && AfterFailure(s.jobs[k], r.jobs[k], r.clock)
  }

  lemma FlyingWasAttempted(s: Store)
    requires Inv(s) && s.flying.Some?
    ensures s.flying.value < |s.jobs| && s.jobs[s.flying.value].attempts >= 1
  {
    assert JobOk(s.jobs[s.flying.value], s.history, s.flying.value, s.clock);
  }

  lemma CompletionFails(s: Store, wait: nat, d: Dispatch)
    requires s.flying.Some? && s.flying.value < |s.jobs| && s.jobs[s.flying.value].attempts >= 1
    requires d.Succeeds? ==> EnqueueAll(s.jobs, d.orders, s.clock + wait).Err?
    ensures var r := Next(s, Timed(wait, Complete(d)));
      FailedAttempt(s, r) && r.clock == s.clock + wait
  {
    RowAfterFailure(s.jobs[s.flying.value], s.clock + wait);
    RollbackLeaves(s, wait, d);
  }

  /** Whatever run led to a lease in flight, a dispatch that raises or cannot commit leaves its
      job waiting or failed, and none of its orders in the table. */
  lemma FailureLeaves(steps: seq<Timed>, wait: nat, d: Dispatch)
    requires Run(EMPTY, steps).flying.Some?
    requires d.Succeeds? ==> EnqueueAll(Run(EMPTY, steps).jobs, d.orders, Run(EMPTY, steps).clock + wait).Err?
    ensures var s := Run(EMPTY, steps);
      var r := Next(s, Timed(wait, Complete(d)));
      FailedAttempt(s, r) && r.clock == s.clock + wait
  {
    RunKeeps(EMPTY, steps);
    FlyingWasAttempted(Run(EMPTY, steps));
    CompletionFails(Run(EMPTY, steps), wait, d);
  }

  lemma RollbackLeaves(s: Store, wait: nat, d: Dispatch)
    requires s.flying.Some? && s.flying.value < |s.jobs|
    requires d.Succeeds? ==> EnqueueAll(s.jobs, d.orders, s.clock + wait).Err?
    ensures var r, k := Next(s, Timed(wait, Complete(d))), s.flying.value;
      && r.jobs == s.jobs[k := FailRow(s.jobs[k], s.clock + wait)]
      && r.clock == s.clock + wait && r.flying == None && r.history == s.history + [RolledBack(k)]
  {
  }

  /** A dispatch that commits completes its job, together with every order it placed. */
  lemma CommitLeaves(s: Store, wait: nat, changes: nat, orders: seq<Order>)
    requires s.flying.Some? && s.flying.value < |s.jobs|
    requires EnqueueAll(s.jobs, orders, s.clock + wait).Ok?
    ensures var r := Next(s, Timed(wait, Complete(Succeeds(changes, orders))));
      var k := s.flying.value;
      && OnlyJob(s.jobs, r.jobs, k)
      && r.clock == s.clock + wait && r.flying == None && r.history == s.history + [Dispatched(k)]
      && r.jobs[k] == s.jobs[k].(status := Completed, completedAt := Some(r.clock), lockedAt := None)
      && r.jobs[|s.jobs|..] == EnqueueAll(s.jobs, orders, r.clock).value[|s.jobs|..]
  {
  }

  /** A crash touches no row. */
  lemma CrashLeaves(s: Store, wait: nat)
    ensures Next(s, Timed(wait, Crash)) == s.(clock := s.clock + wait, flying := None, history := s.history + [Crashed])
  {
  }

  /** x brought into the range from 0 to 1000. */
  ghost predicate InRange(x: int, r: int) {
    0 <= r <= 1000 && (0 <= x <= 1000 ==> r == x) && (x < 0 ==> r == 0) && (x > 1000 ==> r == 1000)
  }

  /** An enqueued order: the row that has its key if there is one, an error if only its first 180
      characters are taken, and otherwise a new row that is available at once. */
  lemma EnqueueLeaves(jobs: seq<Job>, o: Order, now: int)
    ensures var r := Enqueue(jobs, o, now);
      var stored := o.dedupe[..if |o.dedupe| < 180 then |o.dedupe| else 180];
      if o.dedupe != "" && exists n :: 0 <= n < |jobs| && jobs[n].dedupe == Some(o.dedupe) then
        && r.Ok? && r.value.1 == jobs
        && r.value.0 < |jobs| && jobs[r.value.0].dedupe == Some(o.dedupe)
      else if o.dedupe != "" && exists n :: 0 <= n < |jobs| && jobs[n].dedupe == Some(stored) then r.Err?
      else
        && r.Ok? && r.value.0 == |jobs| && |r.value.1| == |jobs| + 1 && jobs <= r.value.1
        && var j := r.value.1[|jobs|];
           && j.kind == o.kind && j.status == Pending && j.attempts == 0 && j.availableAt == now
           && j.lockedAt == None && j.completedAt == None
           && j.dedupe == (if o.dedupe == "" then None else Some(stored))
           && InRange(o.priority, j.priority)
           && j.maxAttempts >= 1 && (o.maxAttempts >= 1 ==> j.maxAttempts == o.maxAttempts)
           && (o.maxAttempts < 1 ==> j.maxAttempts == 1)
  {
    assert CutKey(o.dedupe) == o.dedupe[..if |o.dedupe| < 180 then |o.dedupe| else 180];
  }

  /** A job that arrives is enqueued, and nothing else happens. */
  lemma ArrivalLeaves(s: Store, wait: nat, o: Order)
    ensures var r := Next(s, Timed(wait, Arrive(o)));
      var e := Enqueue(s.jobs, o, s.clock + wait);
      r == s.(clock := s.clock + wait, jobs := if e.Ok? then e.value.1 else s.jobs)
  {
  }

  /** Row j is what order o asked for: its own new row, or the one that has its key. */
  ghost predicate Answers(jobs: seq<Job>, o: Order, k: nat, j: Job) {
    if o.dedupe == "" then k >= |jobs| && j.kind == o.kind && j.dedupe == None
    else
      && j.dedupe.Some? && j.dedupe.value <= o.dedupe
      && |j.dedupe.value| == if |o.dedupe| < 180 then |o.dedupe| else 180
  }

  /** Every order of a dispatch that commits has its row, and there are no other new rows. */
  lemma {:induction false} EveryOrderIsPlaced(jobs: seq<Job>, orders: seq<Order>, now: int)
    requires EnqueueAll(jobs, orders, now).Ok?
    requires forall n :: 0 <= n < |jobs| && jobs[n].dedupe.Some? ==> |jobs[n].dedupe.value| <= 180
    ensures var r := EnqueueAll(jobs, orders, now).value;
      && |r| <= |jobs| + |orders|
      && (forall n :: 0 <= n < |r| && r[n].dedupe.Some? ==> |r[n].dedupe.value| <= 180)
      && forall o :: o in orders ==> exists k :: 0 <= k < |r| && Answers(jobs, o, k, r[k])
  {
    if orders != [] {
      var init, last := orders[..|orders| - 1], orders[|orders| - 1];
      EveryOrderIsPlaced(jobs, init, now);
      var m, r := EnqueueAll(jobs, init, now).value, EnqueueAll(jobs, orders, now).value;
      LastOrderIsPlaced(jobs, m, last, now);
      assert orders == init + [last];
      forall o | o in orders ensures exists k :: 0 <= k < |r| && Answers(jobs, o, k, r[k]) {
        if o in init {
          var k :| 0 <= k < |m| && Answers(jobs, o, k, m[k]);
          assert r[k] == m[k];
        } else {
          assert Answers(jobs, last, Enqueue(m, last, now).value.0, r[Enqueue(m, last, now).value.0]);
        }
      }
    }
  }

  lemma LastOrderIsPlaced(jobs: seq<Job>, m: seq<Job>, o: Order, now: int)
    requires |jobs| <= |m| && Enqueue(m, o, now).Ok?
    requires forall n :: 0 <= n < |m| && m[n].dedupe.Some? ==> |m[n].dedupe.value| <= 180
    ensures var r := Enqueue(m, o, now).value;
      && m <= r.1 && |r.1| <= |m| + 1 && r.0 < |r.1| && Answers(jobs, o, r.0, r.1[r.0])
      && forall n :: 0 <= n < |r.1| && r.1[n].dedupe.Some? ==> |r.1[n].dedupe.value| <= 180
  {
    EnqueueLeaves(m, o, now);
  }
}
