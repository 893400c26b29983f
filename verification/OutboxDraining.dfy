/**
 How fast the outbox drains: over every run without failures, however the cycles of different pollers
 overlap and whatever is written meanwhile, each batch query takes the oldest rows that no poller holds.
 */
module OutboxDraining {
  import opened Collections
  import opened Outbox

  /** No batch is lost or rolled back and nobody replays an event. */
  predicate Smooth(step: Step) {
    !step.PublishFails? && !step.Abort? && !step.Replay?
  }

  predicate AllSmooth(steps: seq<Step>) {
    forall i :: 0 <= i < |steps| ==> Smooth(steps[i])
  }

  function Selects(steps: seq<Step>): nat {
    if steps == [] then 0
    else Selects(steps[..|steps| - 1]) + (if steps[|steps| - 1].Select? then 1 else 0)
  }

  ghost predicate Quiet(s: State) {
    forall p :: p in s.pollers ==> s.pollers[p] == Idle
  }

  /** Pending rows created before the cut. */
  ghost function Backlog(s: State, cut: Time): set<EventId> {
    set id | id in s.rows && s.rows[id].status == Pending && s.rows[id].createdAt < cut
  }

  /** The part of the backlog that no poller holds. */
  ghost function Free(s: State, cut: Time): set<EventId> {
    set id | id in Backlog(s, cut) && !Locked(s, id)
  }

  function Less(n: nat, m: nat): nat {
    if n <= m then 0 else n - m
  }

  /** n rows after k batches of at most b. */
  function After(n: nat, k: nat, b: nat): nat {
    if k == 0 then n else Less(After(n, k - 1, b), b)
  }

  lemma {:induction false} AfterBatches(n: nat, k: nat, b: nat)
    ensures After(n, k, b) == 0 <==> k * b >= n
    ensures k * b <= n ==> After(n, k, b) == n - k * b
  {
    if k > 0 {
      AfterBatches(n, k - 1, b);
      assert k * b == (k - 1) * b + b;
    }
  }

  // ----- one step

  /** Oldest first: a batch either covers the free backlog or is full and lies inside it. */
  lemma BatchServesFree(s: State, batch: seq<EventId>, cut: Time)
    requires SentOk(s) && cut <= s.now - SETTLE_MS && IsBatch(s, batch)
    ensures Free(s, cut) <= Elements(batch) || (Elements(batch) <= Free(s, cut) && |batch| == s.batchSize)
  {
    if !(Free(s, cut) <= Elements(batch)) {
      var late :| late in Free(s, cut) && late !in Elements(batch);
      assert Eligible(s, late);
      forall id | id in Elements(batch) ensures id in Free(s, cut) {
        assert Eligible(s, id) && s.rows[id].createdAt <= s.rows[late].createdAt;
      }
    }
  }

  lemma SelectLocks(s: State, p: PollerId, batch: seq<EventId>, id: EventId)
    requires Enabled(s, Select(p, batch))
    ensures Locked(Apply(s, Select(p, batch)), id) <==> Locked(s, id) || id in batch
  {
    var t := Apply(s, Select(p, batch));
    if q :| q in s.pollers && id in Held(s.pollers[q]) {
      assert t.pollers[q] == s.pollers[q];
    }
    assert Held(t.pollers[p]) == batch;
  }

  /** A batch query takes min(n, batchSize) off a free backlog of n. */
  lemma SelectTakesOldest(s: State, p: PollerId, batch: seq<EventId>, cut: Time)
    requires SentOk(s) && cut <= s.now - SETTLE_MS && Enabled(s, Select(p, batch))
    ensures var t := Apply(s, Select(p, batch));
      && Free(t, cut) == Free(s, cut) - Elements(batch)
      && |Free(t, cut)| == Less(|Free(s, cut)|, s.batchSize)
  {
    var t, ids := Apply(s, Select(p, batch)), Elements(batch);
    forall id ensures id in Free(t, cut) <==> id in Free(s, cut) - ids {
      SelectLocks(s, p, batch, id);
    }
    DistinctCount(batch);
    BatchServesFree(s, batch, cut);
    if Free(s, cut) <= ids {
      SubsetSize(Free(s, cut), ids);
      assert Free(t, cut) == {};
    }
  }

  /** A poller that keeps its rows changes no lock. */
  lemma SameLocks(s: State, t: State, p: PollerId, id: EventId)
    requires p in s.pollers && p in t.pollers && t.pollers == s.pollers[p := t.pollers[p]]
    requires Held(t.pollers[p]) == Held(s.pollers[p])
    ensures Locked(t, id) <==> Locked(s, id)
  {
    if q :| q in s.pollers && id in Held(s.pollers[q]) {
      assert id in Held(t.pollers[q]);
    }
    if q :| q in t.pollers && id in Held(t.pollers[q]) {
      assert id in Held(s.pollers[q]);
    }
  }

  lemma MoveKeepsFree(s: State, t: State, p: PollerId, cut: Time)
    requires p in s.pollers && p in t.pollers && t.pollers == s.pollers[p := t.pollers[p]]
    requires Held(t.pollers[p]) == Held(s.pollers[p]) && t.rows == s.rows
    ensures Free(t, cut) == Free(s, cut)
  {
    forall id ensures Locked(t, id) <==> Locked(s, id) {
      SameLocks(s, t, p, id);
    }
  }

  /** A commit only unlocks rows it has just published. */
  lemma CommitKeepsFree(s: State, p: PollerId, cut: Time)
    requires Enabled(s, Commit(p))
    ensures Free(Apply(s, Commit(p)), cut) == Free(s, cut)
  {
    var t, batch := Apply(s, Commit(p)), s.pollers[p].batch;
    forall id | id !in batch ensures Locked(t, id) <==> Locked(s, id) {
      if q :| q in s.pollers && id in Held(s.pollers[q]) {
        assert t.pollers[q] == s.pollers[q];
      }
    }
    assert forall id :: id in batch ==> Locked(s, id);
  }

  lemma SmoothKeepsFree(s: State, step: Step, cut: Time)
    requires SentOk(s) && cut <= s.now - SETTLE_MS && Enabled(s, step) && Smooth(step) && !step.Select?
    ensures Free(Apply(s, step), cut) == Free(s, cut)
  {
    var t := Apply(s, step);
    match step
    case Acquire(p) => MoveKeepsFree(s, t, p, cut);
    case Publish(p) => MoveKeepsFree(s, t, p, cut);
    case Mark(p) => MoveKeepsFree(s, t, p, cut);
    case Commit(p) => CommitKeepsFree(s, p, cut);
    case Insert(_) => assert Backlog(t, cut) == Backlog(s, cut);
    case Purge => assert Backlog(t, cut) == Backlog(s, cut);
    case Tick(_) => assert Backlog(t, cut) == Backlog(s, cut);
  }

  // ----- whole runs

  lemma ClockAdvances(s: State, step: Step)
    requires Enabled(s, step)
    ensures s.now <= Apply(s, step).now && Apply(s, step).batchSize == s.batchSize
  {
  }

  /**
   In every run without failures, with any number of overlapping cycles, arrivals and purges, the free
   settled backlog after k batch queries is what k full batches leave of it.
   */
  lemma {:induction false} SmoothRunDrains(s: State, steps: seq<Step>, cut: Time)
    requires Inv(s) && cut <= s.now - SETTLE_MS && ValidRun(s, steps) && AllSmooth(steps)
    ensures |Free(Run(s, steps), cut)| == After(|Free(s, cut)|, Selects(steps), s.batchSize)
    ensures s.now <= Run(s, steps).now && Run(s, steps).batchSize == s.batchSize
    decreases |steps|
  {
    if steps != [] {
      var init, last := steps[..|steps| - 1], steps[|steps| - 1];
      assert AllSmooth(init);
      SmoothRunDrains(s, init, cut);
      RunKeepsInv(s, init);
      var m := Run(s, init);
      ClockAdvances(m, last);
      if last.Select? {
        SelectTakesOldest(m, last.p, last.batch, cut);
      } else {
        assert Smooth(last);
        SmoothKeepsFree(m, last, cut);
      }
    }
  }

  lemma QuietIsFree(s: State, cut: Time)
    requires Quiet(s)
    ensures Free(s, cut) == Backlog(s, cut)
  {
  }

  /**
   When all cycles of such a run have ended, the n free settled events it began with are all published
   exactly when it made k batch queries with k * batchSize >= n; if it began quiet, these are the whole
   backlog.
   */
  lemma BacklogDrains(s: State, steps: seq<Step>, cut: Time)
    requires Inv(s) && cut <= s.now - SETTLE_MS && ValidRun(s, steps) && AllSmooth(steps) && Quiet(Run(s, steps))
    ensures Backlog(Run(s, steps), cut) == {} <==> Selects(steps) * s.batchSize >= |Free(s, cut)|
    ensures Quiet(s) ==> Free(s, cut) == Backlog(s, cut)
  {
    SmoothRunDrains(s, steps, cut);
    AfterBatches(|Free(s, cut)|, Selects(steps), s.batchSize);
    QuietIsFree(Run(s, steps), cut);
  }

  lemma PublishedIsTaken(s: State, t: State, p: PollerId, batch: seq<EventId>, at: Time, cut: Time)
    requires p in s.pollers && s.pollers[p] == Idle && t.pollers == s.pollers[p := Idle]
    requires t.rows == MarkPublished(s.rows, batch, at)
    ensures Free(t, cut) == Free(s, cut) - Elements(batch)
  {
    assert t.pollers == s.pollers;
    assert Backlog(t, cut) == Backlog(s, cut) - Elements(batch);
  }

  /** A cycle that runs undisturbed, whatever other pollers hold, serves min(n, batchSize) free rows. */
  lemma CycleShrinksBacklog(s: State, p: PollerId, batch: seq<EventId>, cut: Time)
    requires Inv(s) && cut <= s.now - SETTLE_MS
    requires Enabled(s, Acquire(p)) && Enabled(Apply(s, Acquire(p)), Select(p, batch))
    ensures ValidRun(s, CycleSteps(p, batch, Completes))
    ensures |Free(Run(s, CycleSteps(p, batch, Completes)), cut)| == Less(|Free(s, cut)|, s.batchSize)
  {
    var a := Apply(s, Acquire(p));
    CompletedCycle(s, p, batch);
    PublishedIsTaken(s, Run(s, CycleSteps(p, batch, Completes)), p, batch, s.now, cut);
    KeepsSent(s, Acquire(p));
    MoveKeepsFree(s, a, p, cut);
    SelectTakesOldest(a, p, batch, cut);
  }
}
