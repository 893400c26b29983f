/**
 What the steps of the outbox do to its rows, and how long a published row is kept: whatever the purge
 removes was committed by a cycle whose batch query ran more than seven days before.
 */
module OutboxRetention {
  import opened Wrappers
  import opened Outbox

  const SEVEN_DAYS_MS := 604_800_000

  // ----- one step

  /** The rows other than these are untouched. */
  ghost predicate OthersSame(s: State, t: State, ids: seq<EventId>) {
    forall id :: id !in ids ==> (id in t.rows <==> id in s.rows) && (id in s.rows ==> t.rows[id] == s.rows[id])
  }

  /** A commit publishes its batch as of the moment its transaction began, and touches nothing else. */
  lemma CommitPublishesBatch(s: State, p: PollerId)
    requires LocksOk(s) && Enabled(s, Commit(p))
    ensures var t, x := Apply(s, Commit(p)), s.pollers[p];
      && (forall id :: id in x.batch ==>
            && id in s.rows && id in t.rows
            && t.rows[id].status == Published && t.rows[id].publishedAt == Some(x.begunAt)
            && t.rows[id].occurredAt == s.rows[id].occurredAt && t.rows[id].createdAt == s.rows[id].createdAt)
      && OthersSame(s, t, x.batch)
      && t.pollers == s.pollers[p := Idle] && t.now == s.now && t.leaseUntil == s.leaseUntil && t.known == s.known
  {
    assert HoldsPending(s.rows, s.pollers[p]);
  }

  /** A batch that fails or is lost leaves every row as it was, and its rows can be selected again. */
  lemma FailedBatchIsRetried(s: State, step: Step)
    requires LocksOk(s) && Enabled(s, step) && (step.PublishFails? || step.Abort?)
    ensures var t, p := Apply(s, step), step.p;
      && t.rows == s.rows && t.pollers == s.pollers[p := Idle] && t.now == s.now && t.leaseUntil == s.leaseUntil
      && forall id :: id in Held(s.pollers[p]) && s.rows[id].occurredAt < s.now - 100 ==> Eligible(t, id)
  {
    var t, p := Apply(s, step), step.p;
    forall id | id in Held(s.pollers[p]) ensures !Locked(t, id) {
      forall q | q in t.pollers ensures id !in Held(t.pollers[q]) {
        if q != p {
          assert t.pollers[q] == s.pollers[q] && Apart(s.pollers[p], s.pollers[q]);
        }
      }
    }
    assert HoldsPending(s.rows, s.pollers[p]);
  }

  /** Events of a batch go out one by one in its order; nothing is written to the table meanwhile. */
  lemma PublishSendsNext(s: State, p: PollerId)
    requires Enabled(s, Publish(p))
    ensures var t, x := Apply(s, Publish(p)), s.pollers[p];
      && t.history == s.history + [Sent(x.batch[x.sent])]
      && t.pollers == s.pollers[p := Sending(x.leasedAt, x.begunAt, x.batch, x.sent + 1)]
      && t.rows == s.rows && t.leaseUntil == s.leaseUntil && t.now == s.now
  {
  }

  /** A write adds one pending row; an admin's replay makes a row pending again; both leave all others alone. */
  lemma WritesAndReplaysArePending(s: State, id: EventId)
    ensures Enabled(s, Insert(id)) ==>
            var t := Apply(s, Insert(id));
            id in t.rows && t.rows[id] == Row(Pending, s.now, s.now, None) && OthersSame(s, t, [id]) && t.pollers == s.pollers
    ensures Enabled(s, Replay(id)) ==>
            var t := Apply(s, Replay(id));
            && OthersSame(s, t, [id]) && t.pollers == s.pollers && (id in t.rows <==> id in s.rows)
            && (id in s.rows ==> t.rows[id] == Row(Pending, s.rows[id].occurredAt, s.rows[id].createdAt, None))
  {
  }

  /** The lease is taken for ten seconds, and only by a cycle that starts. */
  lemma LeaseIsTaken(s: State, step: Step)
    requires Enabled(s, step)
    ensures Apply(s, step).leaseUntil == if step.Acquire? then Some(s.now + 10_000) else s.leaseUntil
  {
  }

  /** A batch is what the query promises: oldest settled pending rows that nobody holds, as many as fit. */
  lemma BatchMeaning(s: State, batch: seq<EventId>, id: EventId)
    requires IsBatch(s, batch) && id in s.rows
    ensures |batch| <= s.batchSize
    ensures var takes := s.rows[id].status == Pending && s.rows[id].occurredAt < s.now - 100
                         && forall p :: p in s.pollers ==> id !in Held(s.pollers[p]);
      && (id in batch ==> takes)
      && (takes && id !in batch ==>
            |batch| == s.batchSize && forall i :: 0 <= i < |batch| ==> batch[i] in s.rows && s.rows[batch[i]].createdAt <= s.rows[id].createdAt)
    ensures forall i, j :: 0 <= i < j < |batch| ==>
      batch[i] != batch[j] && batch[i] in s.rows && batch[j] in s.rows && s.rows[batch[i]].createdAt <= s.rows[batch[j]].createdAt
  {
    if id in batch {
      assert Eligible(s, id);
    }
    if id !in batch && Eligible(s, id) {
      forall i | 0 <= i < |batch| ensures batch[i] in s.rows && s.rows[batch[i]].createdAt <= s.rows[id].createdAt {
        assert batch[i] in batch && Eligible(s, batch[i]);
      }
    }
  }

  /** Both deletes of the cleanup, in any state: published for seven days, or failed and written thirty days ago. */
  lemma PurgeKeepsOrRemoves(s: State, id: EventId)
    requires id in s.rows
    ensures var t, r := Apply(s, Purge), s.rows[id];
      && (id !in t.rows <==>
            || (r.status == Published && r.publishedAt.Some? && r.publishedAt.value < s.now - SEVEN_DAYS_MS)
            || (r.status == Failed && r.createdAt < s.now - 2_592_000_000))
      && (id in t.rows ==> t.rows[id] == r)
  {
  }

  /** In every reachable state the purge removes exactly the rows published more than seven days ago. */
  lemma PurgeRemovesIff(s0: State, steps: seq<Step>, id: EventId)
    requires Initial(s0) && ValidRun(s0, steps) && id in Run(s0, steps).rows
    ensures var s := Run(s0, steps); var t := Apply(s, Purge);
      && (id !in t.rows <==> s.rows[id].status == Published && s.rows[id].publishedAt.Some?
                             && s.rows[id].publishedAt.value < s.now - SEVEN_DAYS_MS)
      && (id in t.rows ==> t.rows[id] == s.rows[id])
  {
    InitialInv(s0);
    RunKeepsInv(s0, steps);
  }

  // ----- whole runs

  /** The clock when step i of the run is taken. */
  ghost function At(s0: State, steps: seq<Step>, i: nat): Time
    requires i <= |steps| && ValidRun(s0, steps[..i])
  {
    Run(s0, steps[..i]).now
  }

  predicate EndsCycle(step: Step, p: PollerId) {
    (step.Commit? || step.Abort? || step.PublishFails?) && step.p == p
  }

  /** Step j gave p the batch, at time at, and p's cycle has not ended in the steps before k. */
  ghost predicate BatchSince(s0: State, steps: seq<Step>, j: nat, k: nat, p: PollerId, batch: seq<EventId>, at: Time) {
    && j < k <= |steps| && steps[j] == Select(p, batch)
    && ValidRun(s0, steps[..j]) && At(s0, steps, j) == at
    && forall i :: j < i < k ==> !EndsCycle(steps[i], p)
  }

  /** Steps j and k are the batch query and the commit of one cycle that published the event; no replay since. */
  ghost predicate PublishedBy(s0: State, steps: seq<Step>, j: nat, k: nat, p: PollerId, id: EventId, at: Time) {
    && k < |steps| && steps[k] == Commit(p)
    && (exists batch :: BatchSince(s0, steps, j, k, p, batch, at) && id in batch)
    && forall i :: k < i < |steps| ==> steps[i] != Replay(id)
  }

  /** The batch of a busy poller goes back to its query, run when its transaction began. */
  ghost predicate BatchHasOrigin(s0: State, steps: seq<Step>, p: PollerId, x: Poller) {
    x.Sending? || x.Marked? ==> exists j: nat :: BatchSince(s0, steps, j, |steps|, p, x.batch, x.begunAt)
  }

  ghost predicate RowHasOrigin(s0: State, steps: seq<Step>, id: EventId, r: Row) {
    r.status == Published ==>
      r.publishedAt.Some? && exists j: nat, k: nat, p :: PublishedBy(s0, steps, j, k, p, id, r.publishedAt.value)
  }

  lemma PrefixBatch(s0: State, steps: seq<Step>, step: Step, j: nat, p: PollerId, batch: seq<EventId>, at: Time)
    requires BatchSince(s0, steps, j, |steps|, p, batch, at)
    ensures BatchSince(s0, steps + [step], j, |steps|, p, batch, at)
    ensures !EndsCycle(step, p) ==> BatchSince(s0, steps + [step], j, |steps| + 1, p, batch, at)
  {
    assert (steps + [step])[..j] == steps[..j];
  }

  lemma PrefixPublished(s0: State, steps: seq<Step>, step: Step, j: nat, k: nat, p: PollerId, id: EventId, at: Time)
    requires PublishedBy(s0, steps, j, k, p, id, at) && step != Replay(id)
    ensures PublishedBy(s0, steps + [step], j, k, p, id, at)
  {
    var batch :| BatchSince(s0, steps, j, k, p, batch, at) && id in batch;
    assert (steps + [step])[..j] == steps[..j];
    assert BatchSince(s0, steps + [step], j, k, p, batch, at);
  }

  /** A poller's transaction and batch change only in its batch query and at the end of its cycle. */
  lemma BatchMoves(s: State, step: Step, p: PollerId)
    requires Enabled(s, step) && p in s.pollers
    ensures var t := Apply(s, step);
      && p in t.pollers
      && (t.pollers[p].Sending? || t.pollers[p].Marked? ==>
            || (step == Select(p, t.pollers[p].batch) && t.pollers[p].begunAt == s.now)
            || (!EndsCycle(step, p) && (s.pollers[p].Sending? || s.pollers[p].Marked?)
                && t.pollers[p].batch == s.pollers[p].batch && t.pollers[p].begunAt == s.pollers[p].begunAt))
  {
  }

  lemma NewBatch(s0: State, steps: seq<Step>, p: PollerId, batch: seq<EventId>)
    requires ValidRun(s0, steps)
    ensures BatchSince(s0, steps + [Select(p, batch)], |steps|, |steps| + 1, p, batch, Run(s0, steps).now)
  {
    assert (steps + [Select(p, batch)])[..|steps|] == steps;
  }

  lemma StepKeepsBatchOrigin(s0: State, steps: seq<Step>, step: Step, p: PollerId)
    requires ValidRun(s0, steps) && Enabled(Run(s0, steps), step) && p in Run(s0, steps).pollers
    requires BatchHasOrigin(s0, steps, p, Run(s0, steps).pollers[p])
    ensures p in Apply(Run(s0, steps), step).pollers
    ensures BatchHasOrigin(s0, steps + [step], p, Apply(Run(s0, steps), step).pollers[p])
  {
    var s := Run(s0, steps);
    BatchMoves(s, step, p);
    var x := Apply(s, step).pollers[p];
    if x.Sending? || x.Marked? {
      if step == Select(p, x.batch) && x.begunAt == s.now {
        NewBatch(s0, steps, p, x.batch);
      } else {
        var j: nat :| BatchSince(s0, steps, j, |steps|, p, x.batch, x.begunAt);
        PrefixBatch(s0, steps, step, j, p, x.batch, x.begunAt);
      }
    }
  }

  /** A row is published only by a commit of a batch that holds it, as of that transaction's begin. */
  lemma RowMoves(s: State, step: Step, id: EventId)
    requires Enabled(s, step) && id in Apply(s, step).rows && Apply(s, step).rows[id].status == Published
    ensures var r := Apply(s, step).rows[id];
      || (id in s.rows && r == s.rows[id] && step != Replay(id))
      || (step.Commit? && id in s.pollers[step.p].batch && r.publishedAt == Some(s.pollers[step.p].begunAt))
  {
  }

  lemma StepKeepsRowOrigin(s0: State, steps: seq<Step>, step: Step, id: EventId)
    requires ValidRun(s0, steps) && Enabled(Run(s0, steps), step) && id in Apply(Run(s0, steps), step).rows
    requires var s := Run(s0, steps);
      && (id in s.rows ==> RowHasOrigin(s0, steps, id, s.rows[id]))
      && forall p :: p in s.pollers ==> BatchHasOrigin(s0, steps, p, s.pollers[p])
    ensures RowHasOrigin(s0, steps + [step], id, Apply(Run(s0, steps), step).rows[id])
  {
    var s := Run(s0, steps);
    var r := Apply(s, step).rows[id];
    if r.status == Published {
      RowMoves(s, step, id);
      if id in s.rows && r == s.rows[id] && step != Replay(id) {
        var j: nat, k: nat, p :| PublishedBy(s0, steps, j, k, p, id, r.publishedAt.value);
        PrefixPublished(s0, steps, step, j, k, p, id, r.publishedAt.value);
      } else {
        var p, x := step.p, s.pollers[step.p];
        assert BatchHasOrigin(s0, steps, p, x);
        var j: nat :| BatchSince(s0, steps, j, |steps|, p, x.batch, x.begunAt);
        PrefixBatch(s0, steps, step, j, p, x.batch, x.begunAt);
        assert PublishedBy(s0, steps + [step], j, |steps|, p, id, x.begunAt);
      }
    }
  }

  lemma {:induction false} OriginsOnRecord(s0: State, steps: seq<Step>)
    requires Initial(s0) && ValidRun(s0, steps)
    ensures forall p :: p in Run(s0, steps).pollers ==> BatchHasOrigin(s0, steps, p, Run(s0, steps).pollers[p])
    ensures forall id :: id in Run(s0, steps).rows ==> RowHasOrigin(s0, steps, id, Run(s0, steps).rows[id])
    decreases |steps|
  {
    if steps != [] {
      var init, last := steps[..|steps| - 1], steps[|steps| - 1];
      assert steps == init + [last];
      OriginsOnRecord(s0, init);
      var s := Run(s0, init);
      forall p | p in Run(s0, steps).pollers ensures BatchHasOrigin(s0, steps, p, Run(s0, steps).pollers[p]) {
        assert p in s.pollers;
        StepKeepsBatchOrigin(s0, init, last, p);
      }
      forall id | id in Run(s0, steps).rows ensures RowHasOrigin(s0, steps, id, Run(s0, steps).rows[id]) {
        StepKeepsRowOrigin(s0, init, last, id);
      }
    }
  }

  /**
   Over every run, a row that disappears was published by a cycle whose batch query ran more than seven
   days before, with no replay since its commit: read from the steps taken, not from the row.
   */
  lemma PurgedRowsAreOld(s0: State, steps: seq<Step>, step: Step, id: EventId)
    requires Initial(s0) && ValidRun(s0, steps) && Enabled(Run(s0, steps), step)
    requires id in Run(s0, steps).rows && id !in Apply(Run(s0, steps), step).rows
    ensures exists j: nat, k: nat, p, at ::
      PublishedBy(s0, steps, j, k, p, id, at) && at < Run(s0, steps).now - SEVEN_DAYS_MS
  {
    OnlySentRowsDisappear(s0, steps, step, id);
    OriginsOnRecord(s0, steps);
    var r := Run(s0, steps).rows[id];
    assert RowHasOrigin(s0, steps, id, r);
    var j: nat, k: nat, p :| PublishedBy(s0, steps, j, k, p, id, r.publishedAt.value);
    assert PublishedBy(s0, steps, j, k, p, id, r.publishedAt.value) && r.publishedAt.value < Run(s0, steps).now - SEVEN_DAYS_MS;
  }
}
