/**
 One outbox poller process (src/shared/events/outbox-poller.ts): the poll cycle as code, with every
 awaited query or Redis call being one step of the Outbox protocol, and the delay between cycles.
 */
module OutboxPolling {
  import opened Collections
  import opened Outbox

  const FULL_BATCH_DELAY_MS := 10
  const PARTIAL_BATCH_DELAY_MS := 5_000
  const MAX_BACKOFF_MS := 60_000

  function Pow2(n: nat): nat {
    if n == 0 then 1 else 2 * Pow2(n - 1)
  }

  function Backoff(errors: nat): nat
    requires errors > 0
  {
    var d := PARTIAL_BATCH_DELAY_MS * Pow2(errors - 1);
    if d < MAX_BACKOFF_MS then d else MAX_BACKOFF_MS
  }

  /** 5s, 10s, 20s, 40s, then 60s for every further error in a row. */
  lemma {:induction false} BackoffSchedule(errors: nat)
    requires errors > 0
    ensures errors <= 4 ==> Backoff(errors) == [5_000, 10_000, 20_000, 40_000][errors - 1]
    ensures errors >= 5 ==> Backoff(errors) == MAX_BACKOFF_MS && Pow2(errors - 1) >= 16
  {
    assert Pow2(0) == 1 && Pow2(1) == 2 && Pow2(2) == 4 && Pow2(3) == 8;
    if errors >= 6 {
      BackoffSchedule(errors - 1);
    } else if errors == 5 {
      assert Pow2(4) == 16;
    }
  }

  /** The batch holds the oldest eligible rows so far, in order; candidates are the eligible rows left. */
  ghost predicate OldestFirst(w: State, batch: seq<EventId>, candidates: set<EventId>) {
    && Distinct(batch)
    && (forall e :: e in batch ==> Eligible(w, e) && e !in candidates)
    && (forall e :: e in candidates ==> Eligible(w, e))
    && (forall e :: Eligible(w, e) ==> e in batch || e in candidates)
    && (forall i, j :: 0 <= i < j < |batch| ==>
          batch[i] in w.rows && batch[j] in w.rows && w.rows[batch[i]].createdAt <= w.rows[batch[j]].createdAt)
    && (forall k, c :: k in batch && c in candidates ==> w.rows[k].createdAt <= w.rows[c].createdAt)
  }

  lemma TakeOldest(w: State, batch: seq<EventId>, candidates: set<EventId>, next: EventId)
    requires OldestFirst(w, batch, candidates) && next in candidates
    requires forall c :: c in candidates ==> c in w.rows && w.rows[next].createdAt <= w.rows[c].createdAt
    ensures OldestFirst(w, batch + [next], candidates - {next})
  {
    var b := batch + [next];
    assert forall e :: e in b <==> e in batch || e == next;
    forall i, j | 0 <= i < j < |b| ensures b[i] in w.rows && b[j] in w.rows && w.rows[b[i]].createdAt <= w.rows[b[j]].createdAt {
      assert b[i] in batch;
    }
  }

  class OutboxPoller {
    const id: PollerId
    var world: State          // the table, the lease and the channel, as this process meets them
    var consecutiveErrors: nat

    constructor (id: PollerId, world: State)
      ensures this.id == id && this.world == world && consecutiveErrors == 0
    {
      this.id, this.world, consecutiveErrors := id, world, 0;
    }

    /** The row ORDER BY created_at puts first. */
    method Oldest(candidates: set<EventId>) returns (first: EventId)
      requires candidates != {} && candidates <= world.rows.Keys
      ensures first in candidates
      ensures forall c :: c in candidates ==> world.rows[first].createdAt <= world.rows[c].createdAt
    {
      first :| first in candidates;
      var todo := candidates - {first};
      while todo != {}
        invariant todo <= candidates && first in candidates
        invariant forall c :: c in candidates - todo ==> world.rows[first].createdAt <= world.rows[c].createdAt
        decreases todo
      {
        var c :| c in todo;
        if world.rows[c].createdAt < world.rows[first].createdAt {
          first := c;
        }
        todo := todo - {c};
      }
    }

    /** The batch query: oldest eligible rows first, at most batchSize, skipping locked ones. */
    method SelectBatch() returns (batch: seq<EventId>)
      ensures IsBatch(world, batch)
    {
      var candidates := set e | e in world.rows && Eligible(world, e);
      batch := [];
      while |batch| < world.batchSize && candidates != {}
        invariant |batch| <= world.batchSize
        invariant OldestFirst(world, batch, candidates)
        decreases candidates
      {
        var next := Oldest(candidates);
        TakeOldest(world, batch, candidates, next);
        candidates := candidates - {next};
        batch := batch + [next];
      }
    }

    /** The publish loop; stops with the batch released when a publish throws. */
    method PublishBatch(batch: seq<EventId>, fate: Fate) returns (ok: bool)
      requires id in world.pollers && world.pollers[id].Sending?
      requires world.pollers[id].batch == batch && world.pollers[id].sent == 0
      modifies this`world
      ensures ok <==> !(fate.PublishThrows? && fate.at < |batch|)
      ensures ok ==> ValidRun(old(world), Times(Publish(id), |batch|)) && world == Run(old(world), Times(Publish(id), |batch|))
      ensures !ok ==> ValidRun(old(world), BatchSteps(id, |batch|, fate)) && world == Run(old(world), BatchSteps(id, |batch|, fate))
    {
      ghost var taken := world;
      var i := 0;
      while i < |batch|
        invariant 0 <= i <= |batch|
        invariant fate.PublishThrows? ==> i <= fate.at
        invariant ValidRun(taken, Times(Publish(id), i)) && world == Run(taken, Times(Publish(id), i))
        invariant world == taken.(history := world.history, pollers := taken.pollers[id := taken.pollers[id].(sent := i)])
      {
        if fate.PublishThrows? && fate.at == i {
          RunOne(world, PublishFails(id, fate.delivered));
          RunConcat(taken, Times(Publish(id), i), [PublishFails(id, fate.delivered)]);
          world := Apply(world, PublishFails(id, fate.delivered));
          return false;
        }
        PublishMany(taken, id, i + 1);
        assert Times(Publish(id), i + 1)[..i] == Times(Publish(id), i);
        world := Apply(world, Publish(id));
        i := i + 1;
      }
      return true;
    }

    /** Publish, mark and commit a locked batch; committed tells whether the COMMIT was seen to go through. */
    method ProcessBatch(batch: seq<EventId>, fate: Fate) returns (committed: bool)
      requires id in world.pollers && world.pollers[id].Sending?
      requires world.pollers[id].batch == batch && world.pollers[id].sent == 0
      modifies this`world
      ensures ValidRun(old(world), BatchSteps(id, |batch|, fate)) && world == Run(old(world), BatchSteps(id, |batch|, fate))
      ensures committed <==> fate.Completes? || (fate.PublishThrows? && fate.at >= |batch|)
    {
      ghost var taken, sent := world, Times(Publish(id), |batch|);
      PublishMany(world, id, |batch|);
      var ok := PublishBatch(batch, fate);
      if !ok {
        return false;
      }
      if fate.UpdateThrows? {
        RunOne(world, Abort(id));
        RunConcat(taken, sent, [Abort(id)]);
        world := Apply(world, Abort(id));
        return false;
      }
      if fate.CommitThrows? {
        RunTwo(world, Mark(id), Abort(id));
        RunConcat(taken, sent, [Mark(id), Abort(id)]);
        world := Apply(world, Mark(id));
        world := Apply(world, Abort(id));
        return false;
      }
      RunTwo(world, Mark(id), Commit(id));
      RunConcat(taken, sent, [Mark(id), Commit(id)]);
      world := Apply(world, Mark(id));
      world := Apply(world, Commit(id));
      return fate != CommitUnanswered;
    }

    /**
     One cycle. If another process holds the lease nothing happens; otherwise the world goes through
     exactly the protocol steps of a cycle with this fate. Full is reported only for a committed full batch.
     */
    method PollCycle(fate: Fate) returns (isFull: bool, batch: seq<EventId>)
      requires id in world.pollers && world.pollers[id].Idle? && world.batchSize > 0
      modifies this`world
      ensures !Enabled(old(world), Acquire(id)) ==> world == old(world) && batch == []
      ensures Enabled(old(world), Acquire(id)) ==>
        && IsBatch(Apply(old(world), Acquire(id)), batch)
        && ValidRun(old(world), CycleSteps(id, batch, fate))
        && world == Run(old(world), CycleSteps(id, batch, fate))
      ensures isFull <==>
              |batch| == old(world).batchSize && (fate.Completes? || (fate.PublishThrows? && fate.at >= |batch|))
    {
      isFull, batch := false, [];
      var start := world;
      if world.leaseUntil.Some? && world.leaseUntil.value > world.now {
        return;
      }
      world := Apply(world, Acquire(id));
      batch := SelectBatch();
      TakeBatch(start, id, batch);
      world := Apply(world, Select(id, batch));
      RunTwo(start, Acquire(id), Select(id, batch));
      if batch == [] {
        assert CycleSteps(id, batch, fate) == [Acquire(id), Select(id, batch)];
        return;
      }
      var committed := ProcessBatch(batch, fate);
      RunConcat(start, [Acquire(id), Select(id, batch)], BatchSteps(id, |batch|, fate));
      isFull := committed && |batch| >= start.batchSize;
    }

    /** The wait before the next cycle; failed means the cycle threw (lease or connection error). */
    method NextDelay(failed: bool, full: bool) returns (delay: nat)
      modifies this`consecutiveErrors
      ensures consecutiveErrors == if failed then old(consecutiveErrors) + 1 else 0
      ensures delay == if failed then Backoff(consecutiveErrors)
                       else if full then 10 else 5_000
    {
      var isFull := full;
      if failed {
        consecutiveErrors := consecutiveErrors + 1;
        isFull := false;
      } else {
        consecutiveErrors := 0;
      }
      if isFull {
        delay := FULL_BATCH_DELAY_MS;
      } else if consecutiveErrors > 0 {
        delay := Backoff(consecutiveErrors);
      } else {
        delay := PARTIAL_BATCH_DELAY_MS;
      }
    }
  }
}
