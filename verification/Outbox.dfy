/**
 The transactional outbox (src/shared/events/outbox-poller.ts) as a protocol of small steps.
 Any number of pollers share one outbox_events table and one Redis lease. A poll cycle takes the
 lease, locks a batch with SKIP LOCKED, publishes every event, marks the batch and commits; it may
 stop at any point. Rows hold committed values: the uncommitted UPDATE lives in the poller's state.
 Times are milliseconds.
 */
module Outbox {
  import opened Collections
  import opened Wrappers

  type EventId = nat
  type PollerId = nat
  type Time = int

  const LEASE_MS := 10_000
  const SETTLE_MS := 100
  const PUBLISHED_RETENTION_MS := 7 * 24 * 3600 * 1000
  const FAILED_RETENTION_MS := 30 * 24 * 3600 * 1000

  datatype Status = Pending | Published | Failed

  datatype Row = Row(status: Status, occurredAt: Time, createdAt: Time, publishedAt: Option<Time>)

  /** Where a poller is in its cycle; leasedAt is when the cycle took the lease, begunAt its BEGIN. */
  datatype Poller =
    | Idle
    | Leased(leasedAt: Time)
    | Sending(leasedAt: Time, begunAt: Time, batch: seq<EventId>, sent: nat)
    | Marked(leasedAt: Time, begunAt: Time, batch: seq<EventId>)

  /** What an observer of the table and of the Redis channel sees, in order. */
  datatype Entry =
    | Inserted(id: EventId)
    | Sent(id: EventId)
    | Committed(ids: seq<EventId>)
    | Released(ids: seq<EventId>)
    | Replayed(id: EventId)

  datatype State = State(
    now: Time,
    batchSize: nat,
    rows: map<EventId, Row>,
    known: set<EventId>,
    leaseUntil: Option<Time>,
    pollers: map<PollerId, Poller>,
    history: seq<Entry>)

  function Held(x: Poller): seq<EventId> {
    match x
    case Idle => []
    case Leased(_) => []
    case Sending(_, _, b, _) => b
    case Marked(_, _, b) => b
  }

  /** The events the current batch has already published. */
  function SentByBatch(x: Poller): seq<EventId> {
    match x
    case Idle => []
    case Leased(_) => []
    case Sending(_, _, b, n) => if n <= |b| then b[..n] else b
    case Marked(_, _, b) => b
  }

  predicate Locked(s: State, id: EventId) {
    exists p :: p in s.pollers && id in Held(s.pollers[p])
  }

  predicate Eligible(s: State, id: EventId) {
    && id in s.rows
    && s.rows[id].status == Pending
    && s.rows[id].occurredAt < s.now - SETTLE_MS
    && !Locked(s, id)
  }

  /** WHERE pending and settled ORDER BY created_at LIMIT batchSize FOR UPDATE SKIP LOCKED. */
  ghost predicate IsBatch(s: State, batch: seq<EventId>) {
    && |batch| <= s.batchSize
    && Distinct(batch)
    && (forall id :: id in batch ==> Eligible(s, id))
    && (forall i, j :: 0 <= i < j < |batch| ==>
          batch[i] in s.rows && batch[j] in s.rows && s.rows[batch[i]].createdAt <= s.rows[batch[j]].createdAt)
    && (forall id :: Eligible(s, id) && id !in batch ==>
          |batch| == s.batchSize && forall k :: k in batch ==> s.rows[k].createdAt <= s.rows[id].createdAt)
  }

  // ----- steps

  datatype Step =
    | Tick(to: Time)
    | Insert(id: EventId)
    | Acquire(p: PollerId)
    | Select(p: PollerId, batch: seq<EventId>)
    | Publish(p: PollerId)
    | PublishFails(p: PollerId, delivered: bool)  // the call throws; the message may have gone out
    | Mark(p: PollerId)
    | Commit(p: PollerId)
    | Abort(p: PollerId)                          // ROLLBACK after an error, or a crash
    | Replay(id: EventId)                         // admin; waits for the row lock
    | Purge                                       // hourly cleanup

  ghost predicate Enabled(s: State, step: Step) {
    match step
    case Tick(to) => s.now <= to
    case Insert(id) => id !in s.known
    case Acquire(p) => p in s.pollers && s.pollers[p].Idle? && (s.leaseUntil.None? || s.leaseUntil.value <= s.now)
    case Select(p, batch) => p in s.pollers && s.pollers[p].Leased? && IsBatch(s, batch)
    case Publish(p) => p in s.pollers && s.pollers[p].Sending? && s.pollers[p].sent < |s.pollers[p].batch|
    case PublishFails(p, _) => p in s.pollers && s.pollers[p].Sending? && s.pollers[p].sent < |s.pollers[p].batch|
    case Mark(p) => p in s.pollers && s.pollers[p].Sending? && s.pollers[p].sent == |s.pollers[p].batch|
    case Commit(p) => p in s.pollers && s.pollers[p].Marked?
    case Abort(p) => p in s.pollers && !s.pollers[p].Idle?
    case Replay(id) => !Locked(s, id)
    case Purge => true
  }

  function MarkPublished(rows: map<EventId, Row>, ids: seq<EventId>, at: Time): map<EventId, Row> {
    map id | id in rows :: if id in ids then rows[id].(status := Published, publishedAt := Some(at)) else rows[id]
  }

  predicate Purgeable(r: Row, now: Time) {
    || (r.status == Published && r.publishedAt.Some? && r.publishedAt.value < now - PUBLISHED_RETENTION_MS)
    || (r.status == Failed && r.createdAt < now - FAILED_RETENTION_MS)
  }

  function Apply(s: State, step: Step): State
    requires Enabled(s, step)
  {
    match step
    case Tick(to) => s.(now := to)
    case Insert(id) =>
      s.(rows := s.rows[id := Row(Pending, s.now, s.now, None)], known := s.known + {id},
         history := s.history + [Inserted(id)])
    case Acquire(p) =>
      s.(leaseUntil := Some(s.now + LEASE_MS), pollers := s.pollers[p := Leased(s.now)])
    case Select(p, batch) =>
      s.(pollers := s.pollers[p := if batch == [] then Idle
                                   else Sending(s.pollers[p].leasedAt, s.now, batch, 0)])
    case Publish(p) =>
      var x := s.pollers[p];
      s.(pollers := s.pollers[p := x.(sent := x.sent + 1)], history := s.history + [Sent(x.batch[x.sent])])
    case PublishFails(p, delivered) =>
      var x := s.pollers[p];
      var out := if delivered then s.history + [Sent(x.batch[x.sent])] else s.history;
      s.(pollers := s.pollers[p := Idle], history := out + [Released(x.batch)])
    case Mark(p) =>
      var x := s.pollers[p];
      s.(pollers := s.pollers[p := Marked(x.leasedAt, x.begunAt, x.batch)])
    case Commit(p) =>
      var x := s.pollers[p];
      s.(pollers := s.pollers[p := Idle], rows := MarkPublished(s.rows, x.batch, x.begunAt),
         history := s.history + [Committed(x.batch)])
    case Abort(p) =>
      s.(pollers := s.pollers[p := Idle], history := s.history + [Released(Held(s.pollers[p]))])
    case Replay(id) =>
      if id in s.rows then
        s.(rows := s.rows[id := s.rows[id].(status := Pending, publishedAt := None)],
           history := s.history + [Replayed(id)])
      else s
    case Purge => s.(rows := map id | id in s.rows && !Purgeable(s.rows[id], s.now) :: s.rows[id])
  }

  ghost predicate ValidRun(s: State, steps: seq<Step>)
    decreases |steps|, 0
  {
    steps == [] ||
    (ValidRun(s, steps[..|steps| - 1]) && Enabled(Run(s, steps[..|steps| - 1]), steps[|steps| - 1]))
  }

  ghost function Run(s: State, steps: seq<Step>): State
    requires ValidRun(s, steps)
    decreases |steps|, 1
  {
    if steps == [] then s else Apply(Run(s, steps[..|steps| - 1]), steps[|steps| - 1])
  }

  /** An empty table, idle pollers and a free lease. */
  ghost predicate Initial(s: State) {
    && s.rows == map[] && s.known == {} && s.leaseUntil == None && s.history == []
    && s.batchSize > 0 && (forall p :: p in s.pollers ==> s.pollers[p] == Idle)
  }

  // ----- reading the history

  ghost function Sends(h: seq<Entry>, id: EventId): nat {
    if h == [] then 0
    else Sends(h[..|h| - 1], id) + (if h[|h| - 1] == Sent(id) then 1 else 0)
  }

  /** How many batches holding the event were rolled back or lost. */
  ghost function Releases(h: seq<Entry>, id: EventId): nat {
    if h == [] then 0
    else Releases(h[..|h| - 1], id) + (if h[|h| - 1].Released? && id in h[|h| - 1].ids then 1 else 0)
  }

  ghost function Replays(h: seq<Entry>, id: EventId): nat {
    if h == [] then 0
    else Replays(h[..|h| - 1], id) + (if h[|h| - 1] == Replayed(id) then 1 else 0)
  }

  /** The event went out on the channel after it last became pending. */
  ghost predicate SentSincePending(h: seq<Entry>, id: EventId) {
    if h == [] then false
    else if h[|h| - 1] == Sent(id) then true
    else if h[|h| - 1] == Inserted(id) || h[|h| - 1] == Replayed(id) then false
    else SentSincePending(h[..|h| - 1], id)
  }

  lemma HistoryGrows(h: seq<Entry>, e: Entry)
    ensures forall id :: Sends(h + [e], id) == Sends(h, id) + (if e == Sent(id) then 1 else 0)
    ensures forall id :: Releases(h + [e], id) == Releases(h, id) + (if e.Released? && id in e.ids then 1 else 0)
    ensures forall id :: Replays(h + [e], id) == Replays(h, id) + (if e == Replayed(id) then 1 else 0)
    ensures forall id :: (SentSincePending(h + [e], id) <==>
              e == Sent(id) || (e != Inserted(id) && e != Replayed(id) && SentSincePending(h, id)))
  {
    assert (h + [e])[..|h|] == h;
  }

  // ----- the invariant

  /** Batches are duplicate-free, pairwise disjoint, and hold only committed-pending rows. */
  ghost predicate LocksOk(s: State) {
    && (forall p :: p in s.pollers ==> Orderly(s.pollers[p]) && HoldsPending(s.rows, s.pollers[p]))
    && (forall p, q :: p in s.pollers && q in s.pollers && p != q ==> Apart(s.pollers[p], s.pollers[q]))
  }

  ghost predicate Orderly(x: Poller) {
    Distinct(Held(x)) && (x.Sending? ==> x.sent <= |x.batch|)
  }

  ghost predicate HoldsPending(rows: map<EventId, Row>, x: Poller) {
    forall id :: id in Held(x) ==> id in rows && rows[id].status == Pending
  }

  ghost predicate Apart(x: Poller, y: Poller) {
    forall id :: !(id in Held(x) && id in Held(y))
  }

  /** Only pending and published rows exist; what is published or gone has been sent. */
  ghost predicate SentOk(s: State) {
    && s.rows.Keys <= s.known
    && (forall id :: id in s.rows ==> s.rows[id].status != Failed && s.rows[id].occurredAt == s.rows[id].createdAt)
    && (forall id :: id in s.known && !(id in s.rows && s.rows[id].status == Pending) ==> SentSincePending(s.history, id))
    && (forall p, id :: p in s.pollers && id in SentByBatch(s.pollers[p]) ==> SentSincePending(s.history, id))
  }

  ghost predicate InFlight(s: State, id: EventId) {
    exists p :: p in s.pollers && id in SentByBatch(s.pollers[p])
  }

  /** The bound on the sends of one event. */
  ghost predicate CountFits(s: State, id: EventId) {
    Sends(s.history, id) <= Releases(s.history, id) + Replays(s.history, id)
      + (if id in s.rows && s.rows[id].status == Pending && !InFlight(s, id) then 0 else 1)
  }

  /** Every send beyond the first is paid for by a released batch or a replay. */
  ghost predicate CountOk(s: State) {
    && (forall id :: id !in s.known ==> Sends(s.history, id) == 0)
    && (forall id :: id in s.known ==> CountFits(s, id))
  }

  /** Cycles took the lease in the past, at least its lifetime apart, and it was never cut short. */
  ghost predicate LeaseOk(s: State) {
    && (forall p :: p in s.pollers && !s.pollers[p].Idle? ==>
          && s.pollers[p].leasedAt <= s.now
          && s.leaseUntil.Some? && s.pollers[p].leasedAt + LEASE_MS <= s.leaseUntil.value)
    && (forall p, q :: p in s.pollers && q in s.pollers && p != q && !s.pollers[p].Idle? && !s.pollers[q].Idle? ==>
          LeasesApart(s.pollers[p].leasedAt, s.pollers[q].leasedAt))
  }

  predicate LeasesApart(a: Time, b: Time) {
    a + LEASE_MS <= b || b + LEASE_MS <= a
  }

  ghost predicate Inv(s: State) {
    LocksOk(s) && SentOk(s) && CountOk(s) && LeaseOk(s) && s.batchSize > 0
  }

  /** A step that only moves a poller along, or lets it go, keeps the locks in order. */
  lemma LocksMove(s: State, t: State, p: PollerId)
    requires LocksOk(s) && p in s.pollers && p in t.pollers && t.pollers == s.pollers[p := t.pollers[p]]
    requires Held(t.pollers[p]) == Held(s.pollers[p]) || Held(t.pollers[p]) == []
    requires t.pollers[p].Sending? ==> t.pollers[p].sent <= |t.pollers[p].batch|
    requires t.rows == s.rows
    ensures LocksOk(t)
  {
    assert forall q :: q in t.pollers && q != p ==> t.pollers[q] == s.pollers[q];
  }

  lemma LocksTake(s: State, t: State, p: PollerId, batch: seq<EventId>)
    requires LocksOk(s) && p in s.pollers && p in t.pollers && t.pollers == s.pollers[p := t.pollers[p]] && t.rows == s.rows
    requires Held(t.pollers[p]) == batch && Distinct(batch) && (t.pollers[p].Sending? ==> t.pollers[p].sent == 0)
    requires forall id :: id in batch ==> id in s.rows && s.rows[id].status == Pending
    requires forall q, id :: q in s.pollers && id in batch ==> id !in Held(s.pollers[q])
    ensures LocksOk(t)
  {
    assert forall q :: q in t.pollers && q != p ==> t.pollers[q] == s.pollers[q];
  }

  lemma BatchIsFree(s: State, batch: seq<EventId>)
    requires IsBatch(s, batch)
    ensures Distinct(batch)
    ensures forall id :: id in batch ==> id in s.rows && s.rows[id].status == Pending
    ensures forall q, id :: q in s.pollers && id in batch ==> id !in Held(s.pollers[q])
  {
    forall q, id | q in s.pollers && id in batch ensures id !in Held(s.pollers[q]) {
      assert Eligible(s, id);
    }
  }

  lemma LocksSelect(s: State, p: PollerId, batch: seq<EventId>)
    requires LocksOk(s) && Enabled(s, Select(p, batch))
    ensures LocksOk(Apply(s, Select(p, batch)))
  {
    BatchIsFree(s, batch);
    LocksTake(s, Apply(s, Select(p, batch)), p, batch);
  }

  lemma LocksCommit(s: State, p: PollerId)
    requires LocksOk(s) && Enabled(s, Commit(p))
    ensures LocksOk(Apply(s, Commit(p)))
  {
    var t := Apply(s, Commit(p));
    var freed := s.(pollers := s.pollers[p := Idle]);
    LocksMove(s, freed, p);
    forall q, id | q in t.pollers && id in Held(t.pollers[q]) ensures id in t.rows && t.rows[id].status == Pending {
      assert q != p && t.pollers[q] == s.pollers[q];
      assert id !in Held(s.pollers[p]);
    }
  }

  lemma LocksRows(s: State, t: State)
    requires LocksOk(s) && t.pollers == s.pollers
    requires forall id :: id in s.rows && s.rows[id].status == Pending ==> id in t.rows && t.rows[id].status == Pending
    ensures LocksOk(t)
  {
  }

  lemma KeepsLocks(s: State, step: Step)
    requires LocksOk(s) && Enabled(s, step) && s.rows.Keys <= s.known
    ensures LocksOk(Apply(s, step))
  {
    var t := Apply(s, step);
    match step
    case Select(p, batch) => LocksSelect(s, p, batch);
    case Commit(p) => LocksCommit(s, p);
    case Acquire(p) => LocksMove(s, t, p);
    case Publish(p) => LocksMove(s, t, p);
    case PublishFails(p, _) => LocksMove(s, t, p);
    case Mark(p) => LocksMove(s, t, p);
    case Abort(p) => LocksMove(s, t, p);
    case _ => KeepsLocksRows(s, step);
  }

  lemma KeepsLocksRows(s: State, step: Step)
    requires LocksOk(s) && Enabled(s, step) && s.rows.Keys <= s.known
    requires step.Tick? || step.Insert? || step.Replay? || step.Purge?
    ensures LocksOk(Apply(s, step))
  {
    LocksRows(s, Apply(s, step));
  }

  /** What one more history entry does to the facts of SentOk, when the rows keep their status. */
  lemma SentMove(s: State, t: State, p: PollerId, e: Entry)
    requires SentOk(s) && t.rows == s.rows && t.known == s.known && t.history == s.history + [e]
    requires !e.Inserted? && !e.Replayed?
    requires p in s.pollers && p in t.pollers && t.pollers == s.pollers[p := t.pollers[p]]
    requires forall id :: id in SentByBatch(t.pollers[p]) ==> id in SentByBatch(s.pollers[p]) || e == Sent(id)
    ensures SentOk(t)
  {
    HistoryGrows(s.history, e);
    assert forall q :: q in t.pollers && q != p ==> t.pollers[q] == s.pollers[q];
  }

  lemma SentCommit(s: State, p: PollerId)
    requires LocksOk(s) && SentOk(s) && Enabled(s, Commit(p))
    ensures SentOk(Apply(s, Commit(p)))
  {
    var t := Apply(s, Commit(p));
    HistoryGrows(s.history, Committed(s.pollers[p].batch));
    assert SentByBatch(s.pollers[p]) == s.pollers[p].batch;
    assert forall q :: q in t.pollers && q != p ==> t.pollers[q] == s.pollers[q];
  }

  /** A new row has no sends to remember. */
  lemma SentInsert(s: State, id: EventId)
    requires LocksOk(s) && SentOk(s) && id !in s.known
    ensures SentOk(Apply(s, Insert(id)))
  {
    HistoryGrows(s.history, Inserted(id));
    SentWithinHeld(s);
  }

  /** Becoming pending again forgets earlier sends; no batch holds the row at that moment. */
  lemma SentReplay(s: State, id: EventId)
    requires SentOk(s) && Enabled(s, Replay(id))
    ensures SentOk(Apply(s, Replay(id)))
  {
    var t := Apply(s, Replay(id));
    if id in s.rows {
      HistoryGrows(s.history, Replayed(id));
      SentWithinHeld(s);
      forall p, i | p in t.pollers && i in SentByBatch(t.pollers[p]) ensures SentSincePending(t.history, i) {
        assert i in Held(s.pollers[p]);
        assert i != id;
      }
    }
  }

  lemma SentPublish(s: State, p: PollerId)
    requires LocksOk(s) && SentOk(s) && Enabled(s, Publish(p))
    ensures SentOk(Apply(s, Publish(p)))
  {
    var x := s.pollers[p];
    assert x.batch[..x.sent + 1] == x.batch[..x.sent] + [x.batch[x.sent]];
    SentMove(s, Apply(s, Publish(p)), p, Sent(x.batch[x.sent]));
  }

  lemma SentPublishFails(s: State, p: PollerId, delivered: bool)
    requires SentOk(s) && Enabled(s, PublishFails(p, delivered))
    ensures SentOk(Apply(s, PublishFails(p, delivered)))
  {
    var x, t := s.pollers[p], Apply(s, PublishFails(p, delivered));
    if delivered {
      var m := s.(history := s.history + [Sent(x.batch[x.sent])]);
      SentMove(s, m, p, Sent(x.batch[x.sent]));
      SentMove(m, t, p, Released(x.batch));
    } else {
      SentMove(s, t, p, Released(x.batch));
    }
  }

  lemma SentMark(s: State, p: PollerId)
    requires SentOk(s) && Enabled(s, Mark(p))
    ensures SentOk(Apply(s, Mark(p)))
  {
    assert s.pollers[p].batch[..s.pollers[p].sent] == s.pollers[p].batch;
    SentStays(s, Apply(s, Mark(p)));
  }

  lemma KeepsSent(s: State, step: Step)
    requires LocksOk(s) && SentOk(s) && Enabled(s, step)
    ensures SentOk(Apply(s, step))
  {
    var t := Apply(s, step);
    match step
    case Insert(id) => SentInsert(s, id);
    case Replay(id) => SentReplay(s, id);
    case Publish(p) => SentPublish(s, p);
    case PublishFails(p, delivered) => SentPublishFails(s, p, delivered);
    case Mark(p) => SentMark(s, p);
    case Commit(p) => SentCommit(s, p);
    case Abort(p) => SentMove(s, t, p, Released(Held(s.pollers[p])));
    case Acquire(_) => SentStays(s, t);
    case Select(_, _) => SentStays(s, t);
    case Tick(_) => SentStays(s, t);
    case Purge => SentPurge(s);
  }

  lemma SentStays(s: State, t: State)
    requires SentOk(s) && t.rows == s.rows && t.known == s.known && t.history == s.history
    requires t.pollers.Keys == s.pollers.Keys
    requires forall p :: p in s.pollers ==> SentByBatch(t.pollers[p]) == SentByBatch(s.pollers[p])
    ensures SentOk(t)
  {
  }

  lemma SentPurge(s: State)
    requires SentOk(s)
    ensures SentOk(Apply(s, Purge))
  {
  }

  lemma SentWithinHeld(s: State)
    ensures forall p, id :: p in s.pollers && id in SentByBatch(s.pollers[p]) ==> id in Held(s.pollers[p])
  {
  }

  lemma CountRelease(s: State, t: State, p: PollerId)
    requires LocksOk(s) && SentOk(s) && CountOk(s) && p in s.pollers
    requires t.rows == s.rows && t.known == s.known && t.pollers == s.pollers[p := Idle]
    requires t.history == s.history + [Released(Held(s.pollers[p]))]
    ensures CountOk(t)
  {
    HistoryGrows(s.history, Released(Held(s.pollers[p])));
    FlightLeaves(s, t, p);
    SentWithinHeld(s);
  }

  lemma CountReleaseDelivered(s: State, p: PollerId)
    requires LocksOk(s) && SentOk(s) && CountOk(s) && Enabled(s, PublishFails(p, true))
    ensures CountOk(Apply(s, PublishFails(p, true)))
  {
    KeepsSent(s, Publish(p));
    KeepsLocks(s, Publish(p));
    CountPublish(s, p);
    CountRelease(Apply(s, Publish(p)), Apply(s, PublishFails(p, true)), p);
  }

  lemma CountCommit(s: State, p: PollerId)
    requires LocksOk(s) && SentOk(s) && CountOk(s) && Enabled(s, Commit(p))
    ensures CountOk(Apply(s, Commit(p)))
  {
    var t := Apply(s, Commit(p));
    HistoryGrows(s.history, Committed(s.pollers[p].batch));
    FlightLeaves(s, t, p);
  }

  lemma CountStays(s: State, t: State)
    requires CountOk(s) && t.known == s.known && t.history == s.history
    requires t.pollers.Keys == s.pollers.Keys
    requires forall p :: p in s.pollers ==> SentByBatch(t.pollers[p]) == SentByBatch(s.pollers[p])
    requires forall id :: id in t.rows ==> id in s.rows && t.rows[id] == s.rows[id]
    ensures CountOk(t)
  {
    SameFlight(s, t);
  }

  lemma CountInsert(s: State, id: EventId)
    requires CountOk(s) && id !in s.known
    ensures CountOk(Apply(s, Insert(id)))
  {
    HistoryGrows(s.history, Inserted(id));
    SameFlight(s, Apply(s, Insert(id)));
  }

  lemma CountReplay(s: State, id: EventId)
    requires SentOk(s) && CountOk(s) && Enabled(s, Replay(id))
    ensures CountOk(Apply(s, Replay(id)))
  {
    var t := Apply(s, Replay(id));
    if id in s.rows {
      HistoryGrows(s.history, Replayed(id));
      SameFlight(s, t);
      forall i ensures i in t.known ==> CountFits(t, i) {
        assert i in s.known ==> CountFits(s, i);
      }
    }
  }

  lemma KeepsCount(s: State, step: Step)
    requires LocksOk(s) && SentOk(s) && CountOk(s) && Enabled(s, step)
    ensures CountOk(Apply(s, step))
  {
    var t := Apply(s, step);
    match step
    case Insert(id) => CountInsert(s, id);
    case Replay(id) => CountReplay(s, id);
    case Publish(p) => CountPublish(s, p);
    case PublishFails(p, delivered) =>
      if delivered { CountReleaseDelivered(s, p); } else { CountRelease(s, t, p); }
    case Mark(p) =>
      assert s.pollers[p].batch[..s.pollers[p].sent] == s.pollers[p].batch;
      CountStays(s, t);
    case Commit(p) => CountCommit(s, p);
    case Abort(p) => CountRelease(s, t, p);
    case Tick(_) => CountStays(s, t);
    case Acquire(_) => CountStays(s, t);
    case Select(_, _) => CountStays(s, t);
    case Purge => CountStays(s, t);
  }

  lemma SameFlight(s: State, t: State)
    requires s.pollers.Keys == t.pollers.Keys
    requires forall p :: p in s.pollers ==> SentByBatch(s.pollers[p]) == SentByBatch(t.pollers[p])
    ensures forall id :: InFlight(s, id) <==> InFlight(t, id)
  {
    forall id ensures InFlight(s, id) <==> InFlight(t, id) {
      if InFlight(s, id) {
        var p :| p in s.pollers && id in SentByBatch(s.pollers[p]);
        assert p in t.pollers && id in SentByBatch(t.pollers[p]);
      }
    }
  }

  /** When one poller lets go, only its own events stop being in flight. */
  lemma FlightLeaves(s: State, t: State, p: PollerId)
    requires p in s.pollers && t.pollers == s.pollers[p := Idle]
    ensures forall id :: InFlight(t, id) ==> InFlight(s, id)
    ensures forall id :: InFlight(s, id) && id !in SentByBatch(s.pollers[p]) ==> InFlight(t, id)
  {
    forall id | InFlight(t, id) ensures InFlight(s, id) {
      var q :| q in t.pollers && id in SentByBatch(t.pollers[q]);
      assert q in s.pollers && id in SentByBatch(s.pollers[q]);
    }
    forall id | InFlight(s, id) && id !in SentByBatch(s.pollers[p]) ensures InFlight(t, id) {
      var q :| q in s.pollers && id in SentByBatch(s.pollers[q]);
      assert q in t.pollers && id in SentByBatch(t.pollers[q]);
    }
  }

  lemma FlightJoins(s: State, t: State, p: PollerId, e: EventId)
    requires p in s.pollers && p in t.pollers && t.pollers == s.pollers[p := t.pollers[p]]
    requires SentByBatch(t.pollers[p]) == SentByBatch(s.pollers[p]) + [e]
    ensures InFlight(t, e)
    ensures forall id :: id != e ==> (InFlight(s, id) <==> InFlight(t, id))
  {
    assert e in SentByBatch(t.pollers[p]);
    forall id | id != e ensures InFlight(s, id) <==> InFlight(t, id) {
      if InFlight(s, id) {
        var q :| q in s.pollers && id in SentByBatch(s.pollers[q]);
        assert q in t.pollers && id in SentByBatch(t.pollers[q]);
      }
      if InFlight(t, id) {
        var q :| q in t.pollers && id in SentByBatch(t.pollers[q]);
        assert q in s.pollers && id in SentByBatch(s.pollers[q]);
      }
    }
  }

  lemma NextNotInFlight(s: State, p: PollerId)
    requires LocksOk(s) && Enabled(s, Publish(p))
    ensures !InFlight(s, s.pollers[p].batch[s.pollers[p].sent])
  {
    var x := s.pollers[p];
    var e := x.batch[x.sent];
    if InFlight(s, e) {
      var q :| q in s.pollers && e in SentByBatch(s.pollers[q]);
      SentWithinHeld(s);
    }
  }

  /** A send that finds its event pending and not in flight is the free one. */
  lemma CountSend(s: State, t: State, e: EventId)
    requires CountOk(s) && t.rows == s.rows && t.known == s.known && t.history == s.history + [Sent(e)]
    requires e in s.known && e in s.rows && s.rows[e].status == Pending && !InFlight(s, e) && InFlight(t, e)
    requires forall id :: id != e ==> (InFlight(s, id) <==> InFlight(t, id))
    ensures CountOk(t)
  {
    HistoryGrows(s.history, Sent(e));
    assert CountFits(s, e);
    forall id | id in t.known ensures CountFits(t, id) {
      assert CountFits(s, id);
    }
  }

  lemma CountPublish(s: State, p: PollerId)
    requires LocksOk(s) && SentOk(s) && CountOk(s) && Enabled(s, Publish(p))
    ensures CountOk(Apply(s, Publish(p)))
  {
    var t := Apply(s, Publish(p));
    var x := s.pollers[p];
    var e := x.batch[x.sent];
    NextNotInFlight(s, p);
    assert x.batch[..x.sent + 1] == x.batch[..x.sent] + [e];
    FlightJoins(s, t, p, e);
    assert e in Held(s.pollers[p]);
    CountSend(s, t, e);
  }

  lemma KeepsLease(s: State, step: Step)
    requires LeaseOk(s) && Enabled(s, step)
    ensures LeaseOk(Apply(s, step)) && Apply(s, step).batchSize == s.batchSize
  {
  }

  lemma StepKeepsInv(s: State, step: Step)
    requires Inv(s) && Enabled(s, step)
    ensures Inv(Apply(s, step))
  {
    KeepsLocks(s, step);
    KeepsSent(s, step);
    KeepsCount(s, step);
    KeepsLease(s, step);
  }

  lemma {:induction false} RunKeepsInv(s: State, steps: seq<Step>)
    requires Inv(s) && ValidRun(s, steps)
    ensures Inv(Run(s, steps))
    decreases |steps|
  {
    if steps != [] {
      RunKeepsInv(s, steps[..|steps| - 1]);
      StepKeepsInv(Run(s, steps[..|steps| - 1]), steps[|steps| - 1]);
    }
  }

  // ----- what every run guarantees

  lemma InitialInv(s: State)
    requires Initial(s)
    ensures Inv(s)
  {
  }

  /**
   At least once: in every reachable state each event ever written is either still pending or has
   been sent since it last became pending; in particular every published row has, and no row is failed.
   */
  lemma AtLeastOnce(s0: State, steps: seq<Step>, id: EventId)
    requires Initial(s0) && ValidRun(s0, steps) && id in Run(s0, steps).known
    ensures var s := Run(s0, steps);
      || (id in s.rows && s.rows[id].status == Pending)
      || (SentSincePending(s.history, id) && (id in s.rows ==> s.rows[id].status == Published))
  {
    InitialInv(s0);
    RunKeepsInv(s0, steps);
  }

  /** Whatever step removes a row, the row was published, sent, and past its retention. */
  lemma OnlySentRowsDisappear(s0: State, steps: seq<Step>, step: Step, id: EventId)
    requires Initial(s0) && ValidRun(s0, steps) && Enabled(Run(s0, steps), step)
    requires id in Run(s0, steps).rows && id !in Apply(Run(s0, steps), step).rows
    ensures var s := Run(s0, steps);
      && step == Purge
      && s.rows[id].status == Published && SentSincePending(s.history, id)
      && s.rows[id].publishedAt.Some? && s.rows[id].publishedAt.value < s.now - PUBLISHED_RETENTION_MS
  {
    InitialInv(s0);
    RunKeepsInv(s0, steps);
  }

  /**
   No two pollers hold one row; while two are inside a cycle, the one that took the lease first has
   outlived it.
   */
  lemma PollersExclude(s0: State, steps: seq<Step>, p: PollerId, q: PollerId)
    requires Initial(s0) && ValidRun(s0, steps)
    requires p != q && p in Run(s0, steps).pollers && q in Run(s0, steps).pollers
    ensures var s := Run(s0, steps);
      && (forall id :: !(id in Held(s.pollers[p]) && id in Held(s.pollers[q])))
      && (!s.pollers[p].Idle? && !s.pollers[q].Idle? ==>
            var a, b := s.pollers[p].leasedAt, s.pollers[q].leasedAt;
            a != b && (a < b ==> a + LEASE_MS <= b <= s.now) && (b < a ==> b + LEASE_MS <= a <= s.now))
  {
    InitialInv(s0);
    RunKeepsInv(s0, steps);
    var s := Run(s0, steps);
    if !s.pollers[p].Idle? && !s.pollers[q].Idle? {
      assert LeasesApart(s.pollers[p].leasedAt, s.pollers[q].leasedAt);
    }
  }

  lemma {:induction false} SentAtLeastOnce(h: seq<Entry>, id: EventId)
    requires SentSincePending(h, id)
    ensures Sends(h, id) >= 1
  {
    if h[|h| - 1] != Sent(id) {
      SentAtLeastOnce(h[..|h| - 1], id);
    }
  }

  /**
   An event goes out a second time only if a batch holding it was rolled back or lost, or an admin
   replayed it; a published event that met neither went out exactly once.
   */
  lemma DuplicatesAreExplained(s0: State, steps: seq<Step>, id: EventId)
    requires Initial(s0) && ValidRun(s0, steps)
    ensures var s := Run(s0, steps);
      && Sends(s.history, id) <= 1 + Releases(s.history, id) + Replays(s.history, id)
      && ((id in s.rows && s.rows[id].status == Published && Releases(s.history, id) == Replays(s.history, id) == 0)
          ==> Sends(s.history, id) == 1)
  {
    InitialInv(s0);
    RunKeepsInv(s0, steps);
    var s := Run(s0, steps);
    if id in s.rows && s.rows[id].status == Published {
      SentAtLeastOnce(s.history, id);
    }
  }

  // ----- whole cycles

  lemma {:induction false} RunConcat(s: State, a: seq<Step>, b: seq<Step>)
    ensures ValidRun(s, a + b) <==> ValidRun(s, a) && ValidRun(Run(s, a), b)
    ensures ValidRun(s, a + b) ==> Run(s, a + b) == Run(Run(s, a), b)
    decreases |b|
  {
    if b == [] {
      assert a + b == a;
    } else {
      var c := b[..|b| - 1];
      assert (a + b)[..|a + b| - 1] == a + c;
      RunConcat(s, a, c);
    }
  }

  function Times(step: Step, n: nat): seq<Step> {
    seq(n, _ => step)
  }

  /** What happens to a cycle after it has its batch. */
  datatype Fate =
    | Completes
    | PublishThrows(at: nat, delivered: bool)
    | UpdateThrows
    | CommitThrows
    | CommitUnanswered          // the COMMIT went through but its reply was lost

  /** The steps of a cycle that holds n rows. */
  function BatchSteps(p: PollerId, n: nat, fate: Fate): seq<Step> {
    match fate
    case Completes => Times(Publish(p), n) + [Mark(p), Commit(p)]
    case PublishThrows(at, delivered) =>
      if at < n then Times(Publish(p), at) + [PublishFails(p, delivered)]
      else Times(Publish(p), n) + [Mark(p), Commit(p)]
    case CommitUnanswered => Times(Publish(p), n) + [Mark(p), Commit(p)]
    case UpdateThrows => Times(Publish(p), n) + [Abort(p)]
    case CommitThrows => Times(Publish(p), n) + [Mark(p), Abort(p)]
  }

  /** The steps of one cycle that found the lease free and was given this batch. */
  function CycleSteps(p: PollerId, batch: seq<EventId>, fate: Fate): seq<Step> {
    [Acquire(p), Select(p, batch)] + if batch == [] then [] else BatchSteps(p, |batch|, fate)
  }

  /** Publishing n events moves the cursor and leaves the table alone. */
  lemma {:induction false} PublishMany(s: State, p: PollerId, n: nat)
    requires p in s.pollers && s.pollers[p].Sending? && s.pollers[p].sent + n <= |s.pollers[p].batch|
    ensures ValidRun(s, Times(Publish(p), n))
    ensures var t := Run(s, Times(Publish(p), n));
      t == s.(history := t.history, pollers := s.pollers[p := s.pollers[p].(sent := s.pollers[p].sent + n)])
  {
    var steps := Times(Publish(p), n);
    if n > 0 {
      assert steps[..n - 1] == Times(Publish(p), n - 1);
      PublishMany(s, p, n - 1);
    }
  }

  lemma RunOne(s: State, x: Step)
    requires Enabled(s, x)
    ensures ValidRun(s, [x]) && Run(s, [x]) == Apply(s, x)
  {
    assert [x][..0] == [];
  }

  lemma RunTwo(s: State, x: Step, y: Step)
    requires Enabled(s, x) && Enabled(Apply(s, x), y)
    ensures ValidRun(s, [x, y]) && Run(s, [x, y]) == Apply(Apply(s, x), y)
  {
    RunOne(s, x);
    RunOne(Apply(s, x), y);
    RunConcat(s, [x], [y]);
    assert [x, y] == [x] + [y];
  }

  /**
   The lease alone does not exclude. In every reachable state with p inside a cycle and q idle, q can
   join it by a later time exactly when the lease has run out by then, which is never before p's own
   ten seconds are over; so the overlap only takes waiting.
   */
  lemma OverlapIffLapsed(s0: State, steps: seq<Step>, p: PollerId, q: PollerId, to: Time)
    requires Initial(s0) && ValidRun(s0, steps)
    requires var s := Run(s0, steps);
      p in s.pollers && q in s.pollers && !s.pollers[p].Idle? && s.pollers[q].Idle? && s.now <= to
    ensures var s := Run(s0, steps);
      && s.leaseUntil.Some? && s.pollers[p].leasedAt + LEASE_MS <= s.leaseUntil.value
      && (ValidRun(s0, steps + [Tick(to), Acquire(q)]) <==> s.leaseUntil.value <= to)
      && (s.leaseUntil.value <= to ==>
            var t := Run(s0, steps + [Tick(to), Acquire(q)]);
            t.pollers == s.pollers[q := Leased(to)])
  {
    InitialInv(s0);
    RunKeepsInv(s0, steps);
    var s := Run(s0, steps);
    var later := Apply(s, Tick(to));
    RunOne(s, Tick(to));
    assert [Tick(to), Acquire(q)] == [Tick(to)] + [Acquire(q)];
    RunConcat(s, [Tick(to)], [Acquire(q)]);
    RunConcat(s0, steps, [Tick(to), Acquire(q)]);
    assert [Acquire(q)][..0] == [];
    assert ValidRun(later, [Acquire(q)]) <==> Enabled(later, Acquire(q));
    if s.leaseUntil.value <= to {
      RunOne(later, Acquire(q));
    }
  }

  /** From every initial state a cycle longer than ten seconds can meet a second one. */
  lemma LeaseCanLapseMidCycle(s0: State, p: PollerId, q: PollerId)
    requires Initial(s0) && p != q && p in s0.pollers && q in s0.pollers
    ensures exists steps :: ValidRun(s0, steps) &&
              var s := Run(s0, steps);
              p in s.pollers && q in s.pollers && !s.pollers[p].Idle? && !s.pollers[q].Idle?
  {
    RunOne(s0, Acquire(p));
    OverlapIffLapsed(s0, [Acquire(p)], p, q, s0.now + LEASE_MS);
    var steps := [Acquire(p)] + [Tick(s0.now + LEASE_MS), Acquire(q)];
    assert ValidRun(s0, steps) && Run(s0, steps).pollers == s0.pollers[p := Leased(s0.now)][q := Leased(s0.now + LEASE_MS)];
  }

  /** The state after p took the lease and was given a batch, which may be empty. */
  function Taken(s: State, p: PollerId, batch: seq<EventId>): State {
    s.(leaseUntil := Some(s.now + LEASE_MS),
       pollers := s.pollers[p := if batch == [] then Idle else Sending(s.now, s.now, batch, 0)])
  }

  lemma SelectGives(s: State, p: PollerId, batch: seq<EventId>)
    requires Enabled(s, Acquire(p)) && Enabled(Apply(s, Acquire(p)), Select(p, batch))
    ensures Apply(Apply(s, Acquire(p)), Select(p, batch)) == Taken(s, p, batch)
  {
    var a := Apply(s, Acquire(p));
    assert a.pollers[p] == Leased(s.now);
    assert Apply(a, Select(p, batch)).pollers == Taken(s, p, batch).pollers;
  }

  lemma TakeBatch(s: State, p: PollerId, batch: seq<EventId>)
    requires Enabled(s, Acquire(p)) && Enabled(Apply(s, Acquire(p)), Select(p, batch))
    ensures ValidRun(s, [Acquire(p), Select(p, batch)])
    ensures Run(s, [Acquire(p), Select(p, batch)]) == Taken(s, p, batch)
  {
    RunTwo(s, Acquire(p), Select(p, batch));
    SelectGives(s, p, batch);
  }

  lemma MarkAndCommit(s: State, p: PollerId)
    requires p in s.pollers && s.pollers[p].Sending? && s.pollers[p].sent == |s.pollers[p].batch|
    ensures ValidRun(s, [Mark(p), Commit(p)])
    ensures Run(s, [Mark(p), Commit(p)]) ==
      s.(pollers := s.pollers[p := Idle], rows := MarkPublished(s.rows, s.pollers[p].batch, s.pollers[p].begunAt),
         history := s.history + [Committed(s.pollers[p].batch)])
  {
    RunTwo(s, Mark(p), Commit(p));
  }

  lemma PublishThenCommit(s: State, p: PollerId)
    requires p in s.pollers && s.pollers[p].Sending? && s.pollers[p].sent == 0
    ensures ValidRun(s, Times(Publish(p), |s.pollers[p].batch|) + [Mark(p), Commit(p)])
    ensures var t := Run(s, Times(Publish(p), |s.pollers[p].batch|) + [Mark(p), Commit(p)]);
      t == s.(pollers := s.pollers[p := Idle], rows := MarkPublished(s.rows, s.pollers[p].batch, s.pollers[p].begunAt),
              history := t.history)
  {
    var n := |s.pollers[p].batch|;
    PublishMany(s, p, n);
    MarkAndCommit(Run(s, Times(Publish(p), n)), p);
    RunConcat(s, Times(Publish(p), n), [Mark(p), Commit(p)]);
  }

  ghost predicate CycleDone(s: State, t: State, p: PollerId, batch: seq<EventId>) {
    t == s.(history := t.history, pollers := s.pollers[p := Idle],
            leaseUntil := Some(s.now + LEASE_MS), rows := MarkPublished(s.rows, batch, s.now))
  }

  lemma CycleSplits(s: State, p: PollerId, batch: seq<EventId>)
    requires Enabled(s, Acquire(p)) && Enabled(Apply(s, Acquire(p)), Select(p, batch)) && batch != []
    ensures var rest := BatchSteps(p, |batch|, Completes);
      && (ValidRun(s, CycleSteps(p, batch, Completes)) <==> ValidRun(Taken(s, p, batch), rest))
      && (ValidRun(Taken(s, p, batch), rest) ==>
            Run(s, CycleSteps(p, batch, Completes)) == Run(Taken(s, p, batch), rest))
  {
    TakeBatch(s, p, batch);
    RunConcat(s, [Acquire(p), Select(p, batch)], BatchSteps(p, |batch|, Completes));
  }

  lemma BatchDone(s: State, p: PollerId, batch: seq<EventId>)
    requires p in s.pollers && batch != []
    ensures ValidRun(Taken(s, p, batch), BatchSteps(p, |batch|, Completes))
    ensures CycleDone(s, Run(Taken(s, p, batch), BatchSteps(p, |batch|, Completes)), p, batch)
  {
    PublishThenCommit(Taken(s, p, batch), p);
  }

  lemma EmptyCycleDone(s: State, p: PollerId)
    requires Enabled(s, Acquire(p)) && Enabled(Apply(s, Acquire(p)), Select(p, []))
    ensures ValidRun(s, CycleSteps(p, [], Completes)) && CycleDone(s, Run(s, CycleSteps(p, [], Completes)), p, [])
  {
    TakeBatch(s, p, []);
    assert CycleSteps(p, [], Completes) == [Acquire(p), Select(p, [])];
    assert MarkPublished(s.rows, [], s.now) == s.rows;
  }

  /** A cycle that completes marks exactly its batch and ends idle. */
  lemma CompletedCycle(s: State, p: PollerId, batch: seq<EventId>)
    requires Enabled(s, Acquire(p)) && Enabled(Apply(s, Acquire(p)), Select(p, batch))
    ensures ValidRun(s, CycleSteps(p, batch, Completes))
    ensures CycleDone(s, Run(s, CycleSteps(p, batch, Completes)), p, batch)
  {
    if batch == [] {
      EmptyCycleDone(s, p);
    } else {
      CycleSplits(s, p, batch);
      BatchDone(s, p, batch);
    }
  }
}
