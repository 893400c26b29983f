/**
 The life of one organization: every writer of its status and of its payment grace period
 (organization.service.ts, payment.worker.ts, payment/webhook.handler.ts, gdpr.router.ts and
 gdpr/workers/offboarding.worker.ts). Rows of different organizations do not interact.
 Times are milliseconds.
 */
module OrgLifecycle {
  import opened Wrappers

  type Time = int

  const GRACE_MS := 7 * 24 * 60 * 60 * 1000

  datatype Status = Active | Suspended | Offboarding | Deleted

  datatype Org = Org(status: Status, graceEndsAt: Option<Time>, offboardingStartedAt: Option<Time>, deletedAt: Option<Time>)

  /** checks holds the due times of the delayed check-grace-period jobs. */
  datatype State = State(now: Time, org: Org, checks: multiset<Time>)

  datatype Op =
    | Tick(to: Time)
    | PaymentFailure          // handle-payment-failure job
    | CheckJob(due: Time)     // a delayed check fires
    | Recheck                 // a check job retried by an administrator
    | PaymentCaptured         // payment-captured job
    | WebhookCharged          // payment.captured or subscription.charged webhook
    | Suspend                 // administrator
    | Reactivate              // administrator
    | StartOffboarding        // organization service
    | AdminOffboard           // GDPR route
    | OffboardingJob

  predicate Enabled(s: State, op: Op) {
    match op
    case Tick(to) => s.now <= to
    case CheckJob(due) => due in s.checks && due <= s.now
    case _ => true
  }

  // ----- the writers

  /** orgRepo.updateStatus: only rows that are not deleted. */
  function UpdateStatus(o: Org, status: Status): Org {
    if o.deletedAt.None? then o.(status := status) else o
  }

  function SuspendOrg(o: Org): Org {
    if o.deletedAt.None? && o.status == Active then UpdateStatus(o, Suspended) else o
  }

  function ReactivateOrg(o: Org): Org {
    if o.deletedAt.None? && o.status == Suspended then UpdateStatus(o, Active) else o
  }

  predicate StartsGrace(o: Org) {
    o.deletedAt.None? && o.status != Suspended && o.graceEndsAt.None?
  }

  function CheckGracePeriod(o: Org, now: Time): Org {
    if o.deletedAt.None? && o.status == Active && o.graceEndsAt.Some? && o.graceEndsAt.value <= now
    then SuspendOrg(o) else o
  }

  function Step(s: State, op: Op): State {
    var o := s.org;
    match op
    case Tick(to) => s.(now := to)
    case PaymentFailure =>
      if !StartsGrace(o) then s
      else s.(org := if o.status == Active then o.(graceEndsAt := Some(s.now + GRACE_MS)) else o,
              checks := s.checks + multiset{s.now + GRACE_MS})
    case CheckJob(due) => s.(org := CheckGracePeriod(o, s.now), checks := s.checks - multiset{due})
    case Recheck => s.(org := CheckGracePeriod(o, s.now))
    case PaymentCaptured =>
      if o.deletedAt.Some? then s else s.(org := ReactivateOrg(o).(graceEndsAt := None))
    case WebhookCharged =>
      if o.status == Suspended then s.(org := o.(status := Active, graceEndsAt := None)) else s
    case Suspend => s.(org := SuspendOrg(o))
    case Reactivate => s.(org := ReactivateOrg(o))
    case StartOffboarding =>
      if o.deletedAt.None? && (o.status == Active || o.status == Suspended)
      then s.(org := UpdateStatus(o, Offboarding).(offboardingStartedAt := Some(s.now))) else s
    case AdminOffboard =>
      if o.deletedAt.None? && o.status != Deleted
      then s.(org := o.(status := Offboarding, offboardingStartedAt := Some(s.now))) else s
    case OffboardingJob =>
      if o.status == Offboarding then s.(org := o.(status := Deleted, deletedAt := Some(s.now))) else s
  }

  /** A new organization. */
  ghost predicate Initial(s: State) {
    s.org == Org(Active, None, None, None) && s.checks == multiset{}
  }

  /** A whole run, state by state. */
  ghost predicate Goes(states: seq<State>, ops: seq<Op>, i: nat)
    requires |states| == |ops| + 1 && i < |ops|
  {
    Enabled(states[i], ops[i]) && states[i + 1] == Step(states[i], ops[i])
  }

  ghost predicate History(states: seq<State>, ops: seq<Op>) {
    && |states| == |ops| + 1 && Initial(states[0])
    && forall i: nat :: i < |ops| ==> Goes(states, ops, i)
  }

  // ----- the status machine

  ghost predicate DeletedAgrees(o: Org) {
    o.status == Deleted <==> o.deletedAt.Some?
  }

  /** One step of any writer. */
  lemma StatusStep(s: State, op: Op)
    requires DeletedAgrees(s.org)
    ensures var t := Step(s, op);
      && DeletedAgrees(t.org)
      && (s.org.status == Offboarding ==> t.org.status == Offboarding || t.org.status == Deleted)
      && (s.org.status == Deleted ==> t.org == s.org)
      && (t.org.status == Deleted && s.org.status != Deleted ==> s.org.status == Offboarding && op == OffboardingJob)
  {
  }

  lemma {:induction false} DeletedAgreesAlways(states: seq<State>, ops: seq<Op>, j: nat)
    requires History(states, ops) && j < |states|
    ensures DeletedAgrees(states[j].org)
    decreases j
  {
    if j > 0 {
      DeletedAgreesAlways(states, ops, j - 1);
      assert Goes(states, ops, j - 1);
      StatusStep(states[j - 1], ops[j - 1]);
    }
  }

  /**
   Over every run of all writers: status is 'deleted' exactly when deleted_at is set; once offboarding
   starts the organization is never active or suspended again; deleted is final.
   */
  lemma {:induction false} OffboardingIsOneWay(states: seq<State>, ops: seq<Op>, i: nat, j: nat)
    requires History(states, ops) && i <= j < |states|
    ensures DeletedAgrees(states[j].org)
    ensures states[i].org.status == Offboarding ==> states[j].org.status == Offboarding || states[j].org.status == Deleted
    ensures states[i].org.status == Deleted ==> states[j].org == states[i].org
    decreases j
  {
    DeletedAgreesAlways(states, ops, j);
    if i < j {
      OffboardingIsOneWay(states, ops, i, j - 1);
      assert Goes(states, ops, j - 1);
      StatusStep(states[j - 1], ops[j - 1]);
    }
  }

  /** Whenever an organization is deleted, it was in offboarding right before the job that deleted it. */
  lemma {:induction false} DeletedOnlyFromOffboarding(states: seq<State>, ops: seq<Op>, j: nat) returns (k: nat)
    requires History(states, ops) && j < |states| && states[j].org.status == Deleted
    ensures k < j && states[k].org.status == Offboarding && ops[k] == OffboardingJob && states[k + 1].org.status == Deleted
    decreases j
  {
    DeletedAgreesAlways(states, ops, j - 1);
    assert Goes(states, ops, j - 1);
    StatusStep(states[j - 1], ops[j - 1]);
    if states[j - 1].org.status == Deleted {
      k := DeletedOnlyFromOffboarding(states, ops, j - 1);
    } else {
      k := j - 1;
    }
  }

  // ----- the grace period

  /** Step i set the deadline and it has stayed untouched up to state k. */
  ghost predicate GraceRunsFrom(states: seq<State>, ops: seq<Op>, i: nat, k: nat) {
    && i < k < |states| == |ops| + 1 && ops[i] == PaymentFailure
    && states[i].org.status == Active && states[i].org.graceEndsAt == None
    && forall j :: i < j <= k ==> states[j].org.graceEndsAt == Some(states[i].now + GRACE_MS)
  }

  /** A deadline appears only through a payment failure of an active organization without one. */
  lemma GraceStep(s: State, op: Op)
    ensures var g := Step(s, op).org.graceEndsAt;
      || g == s.org.graceEndsAt || g == None
      || (op == PaymentFailure && s.org.status == Active && s.org.graceEndsAt == None && g == Some(s.now + GRACE_MS))
  {
  }

  lemma {:induction false} DeadlineHasOrigin(states: seq<State>, ops: seq<Op>, k: nat) returns (i: nat)
    requires History(states, ops) && k < |states| && states[k].org.graceEndsAt.Some?
    ensures GraceRunsFrom(states, ops, i, k)
    decreases k
  {
    assert Goes(states, ops, k - 1);
    GraceStep(states[k - 1], ops[k - 1]);
    if states[k - 1].org.graceEndsAt == None {
      i := k - 1;
    } else {
      i := DeadlineHasOrigin(states, ops, k - 1);
    }
  }

  lemma OnlyExpiredGraceSuspends(s: State, op: Op)
    requires (op.CheckJob? || op.Recheck?) && s.org.status == Active && Step(s, op).org.status == Suspended
    ensures s.org.graceEndsAt.Some? && s.org.graceEndsAt.value <= s.now
  {
  }

  /** With a deadline set, failures and early checks change nothing; no step moves the deadline, only clears it. */
  lemma DeadlineIsFirm(s: State, op: Op)
    requires s.org.graceEndsAt.Some?
    ensures op == PaymentFailure ==> Step(s, op) == s
    ensures (op.CheckJob? || op.Recheck?) && s.now < s.org.graceEndsAt.value ==> Step(s, op).org == s.org
  {
  }

  /**
   If a grace-period check suspends the organization at step k, some payment failure set the deadline at
   least seven days earlier and nothing cleared or moved it since: every further failure in between was
   without effect, and so was every check, leftover ones included, that ran before the deadline.
   */
  lemma SuspensionIsEarned(states: seq<State>, ops: seq<Op>, k: nat) returns (i: nat)
    requires History(states, ops) && k < |ops| && (ops[k].CheckJob? || ops[k].Recheck?)
    requires states[k].org.status == Active && states[k + 1].org.status == Suspended
    ensures GraceRunsFrom(states, ops, i, k) && states[i].now + GRACE_MS <= states[k].now
    ensures forall j: nat :: i < j < k && ops[j] == PaymentFailure ==> states[j + 1] == states[j]
    ensures forall j: nat :: i < j < k && (ops[j].CheckJob? || ops[j].Recheck?) && states[j].now < states[i].now + GRACE_MS ==>
              states[j + 1].org == states[j].org
  {
    assert Goes(states, ops, k);
    OnlyExpiredGraceSuspends(states[k], ops[k]);
    i := DeadlineHasOrigin(states, ops, k);
    forall j: nat | i < j < k
      ensures ops[j] == PaymentFailure ==> states[j + 1] == states[j]
      ensures (ops[j].CheckJob? || ops[j].Recheck?) && states[j].now < states[i].now + GRACE_MS ==>
                states[j + 1].org == states[j].org
    {
      assert Goes(states, ops, j);
      DeadlineIsFirm(states[j], ops[j]);
    }
  }

  lemma DueCheckSuspends(u: State, d: Time)
    requires DeletedAgrees(u.org) && u.org.status == Active && u.org.graceEndsAt == Some(d) && d <= u.now
    ensures Step(u, CheckJob(d)).org.status == Suspended
  {
  }

  /** A step that leaves the organization active with deadline d has not run the check due at d. */
  lemma CheckStillQueued(s: State, op: Op, d: Time)
    requires d in s.checks && Enabled(s, op) && DeletedAgrees(s.org)
    requires s.org.status == Active && s.org.graceEndsAt == Some(d) && Step(s, op).org.status == Active
    ensures d in Step(s, op).checks
  {
    if op == CheckJob(d) {
      DueCheckSuspends(s, d);
    }
  }

  /** Active with deadline d at every moment from state i to state k. */
  ghost predicate StaysInGrace(states: seq<State>, i: nat, k: nat, d: Time) {
    i <= k < |states| &&
    forall j :: i <= j <= k ==> states[j].org.status == Active && states[j].org.graceEndsAt == Some(d)
  }

  lemma {:induction false} OwnCheckWaits(states: seq<State>, ops: seq<Op>, i: nat, k: nat, d: Time)
    requires History(states, ops) && StaysInGrace(states, i, k, d) && d in states[i].checks
    ensures d in states[k].checks
    decreases k
  {
    if i < k {
      OwnCheckWaits(states, ops, i, k - 1, d);
      assert Goes(states, ops, k - 1);
      DeletedAgreesAlways(states, ops, k - 1);
      CheckStillQueued(states[k - 1], ops[k - 1], d);
    }
  }

  /**
   A payment failure of an active organization without deadline enqueues its own check; as long as the
   organization stays active and uncleared that check is still queued, and once due it suspends.
   */
  lemma OwnCheckSuspends(states: seq<State>, ops: seq<Op>, i: nat, k: nat)
    requires History(states, ops) && i < k < |states| && ops[i] == PaymentFailure
    requires states[i].org.status == Active && states[i].org.graceEndsAt == None
    requires StaysInGrace(states, i + 1, k, states[i].now + GRACE_MS) && states[k].now >= states[i].now + GRACE_MS
    ensures Enabled(states[k], CheckJob(states[i].now + GRACE_MS))
    ensures Step(states[k], CheckJob(states[i].now + GRACE_MS)).org.status == Suspended
  {
    var d := states[i].now + GRACE_MS;
    DeletedAgreesAlways(states, ops, i);
    DeletedAgreesAlways(states, ops, k);
    assert Goes(states, ops, i);
    OwnCheckWaits(states, ops, i + 1, k, d);
    DueCheckSuspends(states[k], d);
  }

  /** An active organization loses a deadline to the payment worker and to nothing else. */
  lemma OnlyWorkerClears(s: State, op: Op)
    requires DeletedAgrees(s.org) && s.org.status == Active && s.org.graceEndsAt.Some? && Step(s, op).org.status == Active
    ensures Step(s, op).org.graceEndsAt == if op == PaymentCaptured then None else s.org.graceEndsAt
  {
  }

  /**
   The payment worker clears the deadline of whoever pays, the webhook only that of a suspended
   organization. So while an organization stays active, the deadline its failure set stands up to state k
   exactly when no payment-captured job ran, however often the webhook reported a payment.
   */
  lemma {:induction false} DeadlineStandsIff(states: seq<State>, ops: seq<Op>, i: nat, k: nat)
    requires History(states, ops) && i < k < |states| && ops[i] == PaymentFailure && states[i].org.graceEndsAt == None
    requires forall j: nat :: i <= j <= k ==> states[j].org.status == Active
    ensures StaysInGrace(states, i + 1, k, states[i].now + GRACE_MS) <==>
            forall j: nat :: i < j < k ==> ops[j] != PaymentCaptured
    decreases k
  {
    var d := states[i].now + GRACE_MS;
    DeletedAgreesAlways(states, ops, k - 1);
    assert Goes(states, ops, k - 1);
    if i + 1 < k {
      DeadlineStandsIff(states, ops, i, k - 1);
      assert StaysInGrace(states, i + 1, k, d) <==>
             StaysInGrace(states, i + 1, k - 1, d) && states[k].org.graceEndsAt == Some(d);
      if StaysInGrace(states, i + 1, k - 1, d) {
        OnlyWorkerClears(states[k - 1], ops[k - 1]);
      }
    }
  }

  /**
   An organization that stays active and whose payments arrive through the webhook alone, at whatever
   time before or after the deadline, is suspended by its own check as soon as the deadline has passed.
   */
  lemma WebhookPayerIsSuspended(states: seq<State>, ops: seq<Op>, i: nat, k: nat)
    requires History(states, ops) && i < k < |states| && ops[i] == PaymentFailure && states[i].org.graceEndsAt == None
    requires forall j: nat :: i <= j <= k ==> states[j].org.status == Active
    requires forall j: nat :: i < j < k ==> ops[j] != PaymentCaptured
    requires states[k].now >= states[i].now + GRACE_MS
    ensures Enabled(states[k], CheckJob(states[i].now + GRACE_MS))
    ensures Step(states[k], CheckJob(states[i].now + GRACE_MS)).org.status == Suspended
  {
    DeadlineStandsIff(states, ops, i, k);
    OwnCheckSuspends(states, ops, i, k);
  }

  // ----- the way back

  /**
   At any moment of a history, a payment-captured job, a webhook charge or an administrator's reactivation
   makes a suspended organization active and no other one anything else; the two payments clear its
   deadline, the administrator does not.
   */
  lemma ReactivationIsExact(states: seq<State>, ops: seq<Op>, i: nat)
    requires History(states, ops) && i < |ops|
    requires ops[i] == PaymentCaptured || ops[i] == WebhookCharged || ops[i] == Reactivate
    ensures var o, o' := states[i].org, states[i + 1].org;
      && o'.status == (if o.status == Suspended then Active else o.status)
      && (o.status == Suspended && ops[i] != Reactivate ==> o'.graceEndsAt == None)
      && (ops[i] == Reactivate || (ops[i] == WebhookCharged && o.status != Suspended) ==> o'.graceEndsAt == o.graceEndsAt)
      && o'.offboardingStartedAt == o.offboardingStartedAt && o'.deletedAt == o.deletedAt
      && states[i + 1].checks == states[i].checks && states[i + 1].now == states[i].now
  {
    DeletedAgreesAlways(states, ops, i);
    assert Goes(states, ops, i);
  }

  /**
   After a payment that cleared the deadline, a check suspends the organization again only on account of a
   new payment failure, and not before seven days after it.
   */
  lemma PaymentBuysSevenDays(states: seq<State>, ops: seq<Op>, i: nat, k: nat) returns (f: nat)
    requires History(states, ops) && i < k < |ops| && (ops[k].CheckJob? || ops[k].Recheck?)
    requires (ops[i] == PaymentCaptured && states[i].org.status != Deleted) ||
             (ops[i] == WebhookCharged && states[i].org.status == Suspended)
    requires states[k].org.status == Active && states[k + 1].org.status == Suspended
    ensures i < f < k && ops[f] == PaymentFailure && states[f].now + GRACE_MS <= states[k].now
    ensures GraceRunsFrom(states, ops, f, k)
  {
    DeletedAgreesAlways(states, ops, i);
    assert Goes(states, ops, i);
    assert states[i + 1].org.graceEndsAt == None;
    f := SuspensionIsEarned(states, ops, k);
  }

  /** A reactivation by hand leaves the deadline, so a check after it suspends the organization right again. */
  lemma HandReactivationIsBrief(states: seq<State>, ops: seq<Op>, i: nat)
    requires History(states, ops) && i < |ops| && ops[i] == Reactivate && states[i].org.status == Suspended
    ensures Step(states[i + 1], Recheck).org.status == Suspended <==>
            states[i].org.graceEndsAt.Some? && states[i].org.graceEndsAt.value <= states[i].now
  {
    DeletedAgreesAlways(states, ops, i);
    assert Goes(states, ops, i);
  }

  /** Offboarding can be started from active and suspended, by an administrator from any state before deletion. */
  lemma OffboardingStarts(states: seq<State>, ops: seq<Op>, i: nat)
    requires History(states, ops) && i < |ops| && (ops[i] == StartOffboarding || ops[i] == AdminOffboard)
    ensures var o, o' := states[i].org, states[i + 1].org;
      && (o.status == Active || o.status == Suspended || (o.status == Offboarding && ops[i] == AdminOffboard) ==>
            o' == o.(status := Offboarding, offboardingStartedAt := Some(states[i].now)))
      && (o.status == Deleted || (o.status == Offboarding && ops[i] == StartOffboarding) ==> o' == o)
  {
    DeletedAgreesAlways(states, ops, i);
    assert Goes(states, ops, i);
  }

  // ----- the services

  datatype Outcome = Changed | Skipped | NotFound | InvalidTransition

  class OrgService {
    var now: Time
    var status: Status
    var graceEndsAt: Option<Time>
    var offboardingStartedAt: Option<Time>
    var deletedAt: Option<Time>
    var checks: multiset<Time>

    ghost function Snapshot(): State
      reads this
    {
      State(now, Org(status, graceEndsAt, offboardingStartedAt, deletedAt), checks)
    }

    constructor ()
      ensures Initial(Snapshot())
    {
      now, status, graceEndsAt, offboardingStartedAt, deletedAt, checks := 0, Active, None, None, None, multiset{};
    }

    method SuspendOrganization() returns (r: Outcome)
      modifies this
      ensures Snapshot() == Step(old(Snapshot()), Suspend)
      ensures r == Changed <==> old(deletedAt).None? && old(status) == Active
      ensures status == (if r == Changed then Suspended else old(status))
      ensures graceEndsAt == old(graceEndsAt) && checks == old(checks)
      ensures now == old(now) && offboardingStartedAt == old(offboardingStartedAt) && deletedAt == old(deletedAt)
    {
      if deletedAt.Some? {
        return NotFound;
      }
      if status != Active {
        return Skipped;
      }
      status := Suspended;
      return Changed;
    }

    method ReactivateOrganization() returns (r: Outcome)
      modifies this
      ensures Snapshot() == Step(old(Snapshot()), Reactivate)
      ensures r == if old(deletedAt).Some? then NotFound
                   else if old(status) != Suspended then InvalidTransition else Changed
      ensures status == (if r == Changed then Active else old(status))
      ensures graceEndsAt == old(graceEndsAt) && checks == old(checks)
      ensures now == old(now) && offboardingStartedAt == old(offboardingStartedAt) && deletedAt == old(deletedAt)
    {
      if deletedAt.Some? {
        return NotFound;
      }
      if status != Suspended {
        return InvalidTransition;
      }
      status := Active;
      return Changed;
    }

    method BeginOffboarding() returns (r: Outcome)
      modifies this
      ensures Snapshot() == Step(old(Snapshot()), StartOffboarding)
      ensures r == Changed <==> old(deletedAt).None? && (old(status) == Active || old(status) == Suspended)
      ensures r == Changed ==> status == Offboarding && offboardingStartedAt == Some(now)
      ensures r != Changed ==> status == old(status) && offboardingStartedAt == old(offboardingStartedAt)
      ensures now == old(now) && deletedAt == old(deletedAt) && graceEndsAt == old(graceEndsAt) && checks == old(checks)
    {
      if deletedAt.Some? {
        return NotFound;
      }
      if status != Active && status != Suspended {
        return InvalidTransition;
      }
      status := Offboarding;
      offboardingStartedAt := Some(now);
      return Changed;
    }

    method RunOffboardingJob()
      modifies this
      ensures Snapshot() == Step(old(Snapshot()), OffboardingJob)
      ensures old(status) == Offboarding ==> status == Deleted && deletedAt == Some(now)
      ensures old(status) != Offboarding ==> status == old(status) && deletedAt == old(deletedAt)
      ensures graceEndsAt == old(graceEndsAt) && offboardingStartedAt == old(offboardingStartedAt) && checks == old(checks)
    {
      if status == Deleted {
        return;
      }
      if status != Offboarding {
        return;
      }
      status := Deleted;
      deletedAt := Some(now);
    }

    method HandlePaymentFailure()
      modifies this
      ensures Snapshot() == Step(old(Snapshot()), PaymentFailure)
      ensures status == old(status)
      ensures var starts := old(deletedAt).None? && old(status) != Suspended && old(graceEndsAt).None?;
        && graceEndsAt == (if starts && status == Active then Some(now + 604_800_000) else old(graceEndsAt))
        && checks == (if starts then old(checks) + multiset{now + 604_800_000} else old(checks))
      ensures now == old(now) && offboardingStartedAt == old(offboardingStartedAt) && deletedAt == old(deletedAt)
    {
      if deletedAt.Some? {
        return;
      }
      if status == Suspended || graceEndsAt.Some? {
        return;
      }
      if status == Active {
        graceEndsAt := Some(now + GRACE_MS);
      }
      checks := checks + multiset{now + GRACE_MS};
    }

    method CheckGrace(due: Time)
      requires due in checks && due <= now
      modifies this
      ensures Snapshot() == Step(old(Snapshot()), CheckJob(due))
      ensures checks == old(checks) - multiset{due} && graceEndsAt == old(graceEndsAt)
      ensures status == (if old(deletedAt).None? && old(status) == Active && graceEndsAt.Some? && graceEndsAt.value <= now
                         then Suspended else old(status))
      ensures now == old(now) && offboardingStartedAt == old(offboardingStartedAt) && deletedAt == old(deletedAt)
    {
      checks := checks - multiset{due};
      if deletedAt.Some? || status != Active {
        return;
      }
      if graceEndsAt.None? || graceEndsAt.value > now {
        return;
      }
      var r := SuspendOrganization();
    }

    method HandlePaymentCaptured()
      modifies this
      ensures Snapshot() == Step(old(Snapshot()), PaymentCaptured)
      ensures old(deletedAt).None? ==> graceEndsAt == None && status == if old(status) == Suspended then Active else old(status)
      ensures old(deletedAt).Some? ==> graceEndsAt == old(graceEndsAt) && status == old(status)
      ensures checks == old(checks)
      ensures now == old(now) && offboardingStartedAt == old(offboardingStartedAt) && deletedAt == old(deletedAt)
    {
      if deletedAt.Some? {
        return;
      }
      if status == Suspended {
        var r := ReactivateOrganization();
      }
      graceEndsAt := None;
    }

    /** UPDATE ... SET status = 'active', grace_period_ends_at = NULL WHERE status = 'suspended' */
    method WebhookReactivate()
      modifies this
      ensures Snapshot() == Step(old(Snapshot()), WebhookCharged)
      ensures old(status) == Suspended ==> status == Active && graceEndsAt == None
      ensures old(status) != Suspended ==> status == old(status) && graceEndsAt == old(graceEndsAt)
      ensures checks == old(checks)
      ensures now == old(now) && offboardingStartedAt == old(offboardingStartedAt) && deletedAt == old(deletedAt)
    {
      if status == Suspended {
        status, graceEndsAt := Active, None;
      }
    }
  }
}
