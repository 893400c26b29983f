/**
 Storage quota: reservation on upload (src/modules/file/file.service.ts), verdicts of the virus scan and
 the hourly cleanup of stale uploads (src/modules/file/workers/virus-scan.worker.ts). The files table is
 a sequence whose index is the file id. Organizations being offboarded are not modelled.
 */
module StorageQuota {
  import opened Wrappers

  type OrgId = nat
  type FileId = nat
  type Time = int

  const STALE_MS := 60 * 60 * 1000

  datatype Status = Pending | Confirmed | Quarantined | Deleted

  datatype File = File(org: OrgId, size: nat, status: Status, deleted: bool, createdAt: Time)

  datatype Org = Org(used: nat, quota: nat)

  datatype State = State(now: Time, orgs: map<OrgId, Org>, files: seq<File>)

  datatype Plan = Free | Pro | Business | Enterprise | OtherPlan

  /** Largest single file in bytes; an unknown plan counts as free. */
  function PlanMax(p: Plan): nat {
    match p
    case Free => 10 * 1024 * 1024
    case Pro => 100 * 1024 * 1024
    case Business => 500 * 1024 * 1024
    case Enterprise => 2 * 1024 * 1024 * 1024
    case OtherPlan => 10 * 1024 * 1024
  }

  /** urlOk tells whether the storage provider could presign the upload. */
  datatype UploadRequest = UploadRequest(org: OrgId, mimeAllowed: bool, size: nat, plan: Plan, urlOk: bool)

  datatype UploadError = InvalidMimeType | FileTooLarge | UploadUrlFailed | QuotaExceeded

  // ----- operations

  function Reclaim(o: Org, size: nat): Org {
    o.(used := if o.used >= size then o.used - size else 0)
  }

  /** The checks run in this order; nothing is reserved unless all of them pass. */
  function Upload(s: State, q: UploadRequest): Result<State, UploadError> {
    if !q.mimeAllowed then Err(InvalidMimeType)
    else if q.size > PlanMax(q.plan) then Err(FileTooLarge)
    else if !q.urlOk then Err(UploadUrlFailed)
    else if q.org !in s.orgs || s.orgs[q.org].used + q.size > s.orgs[q.org].quota then Err(QuotaExceeded)
    else Ok(s.(orgs := s.orgs[q.org := s.orgs[q.org].(used := s.orgs[q.org].used + q.size)],
               files := s.files + [File(q.org, q.size, Pending, false, s.now)]))
  }

  datatype Verdict = ScanDisabled | Clean | Infected

  /** One scan job; a MIME mismatch quarantines and reclaims like an infection. */
  function Scan(s: State, id: FileId, v: Verdict): State {
    if id >= |s.files| then s else
    var f := s.files[id];
    match v
    case ScanDisabled => s
    case Clean => s.(files := s.files[id := f.(status := Confirmed)])
    case Infected =>
      s.(files := s.files[id := f.(status := Quarantined)],
         orgs := if f.org in s.orgs then s.orgs[f.org := Reclaim(s.orgs[f.org], f.size)] else s.orgs)
  }

  predicate Stale(f: File, now: Time) {
    f.status == Pending && !f.deleted && f.createdAt < now - STALE_MS
  }

  /** Removing one stale file: give its bytes back and soft-delete it. */
  function Discard(s: State, id: FileId): State
    requires id < |s.files|
  {
    var f := s.files[id];
    s.(orgs := if f.org in s.orgs then s.orgs[f.org := Reclaim(s.orgs[f.org], f.size)] else s.orgs,
       files := s.files[id := f.(status := Deleted, deleted := true)])
  }

  /** The cleanup restricted to file ids below n. */
  function Cleanup(s: State, n: nat): State
    requires n <= |s.files|
    ensures |Cleanup(s, n).files| == |s.files|
    ensures forall i :: n <= i < |s.files| ==> Cleanup(s, n).files[i] == s.files[i]
  {
    if n == 0 then s
    else
      var t := Cleanup(s, n - 1);
      if Stale(s.files[n - 1], s.now) then Discard(t, n - 1) else t
  }

  datatype Op =
    | Tick(to: Time)
    | RequestUpload(request: UploadRequest)
    | Verdicted(id: FileId, verdict: Verdict)
    | CleanupRun

  function Step(s: State, op: Op): State {
    match op
    case Tick(to) => s.(now := to)
    case RequestUpload(q) =>
      (match Upload(s, q) case Ok(t) => t case Err(_) => s)
    case Verdicted(id, v) => Scan(s, id, v)
    case CleanupRun => Cleanup(s, |s.files|)
  }

  function Run(s: State, ops: seq<Op>): State
    decreases |ops|
  {
    if ops == [] then s else Step(Run(s, ops[..|ops| - 1]), ops[|ops| - 1])
  }

  // ----- bytes a counter should account for

  predicate Counts(f: File, org: OrgId) {
    f.org == org && !f.deleted && f.status != Quarantined
  }

  /** Total size of an organization's live files that are not quarantined. */
  function Held(files: seq<File>, org: OrgId): nat {
    if files == [] then 0
    else Held(files[..|files| - 1], org) + (if Counts(files[|files| - 1], org) then files[|files| - 1].size else 0)
  }

  function Weight(f: File, org: OrgId): nat {
    if Counts(f, org) then f.size else 0
  }

  lemma HeldSnoc(files: seq<File>, f: File, org: OrgId)
    ensures Held(files + [f], org) == Held(files, org) + Weight(f, org)
  {
    assert (files + [f])[..|files|] == files;
  }

  lemma {:induction false} HeldUpdate(files: seq<File>, i: nat, f: File, org: OrgId)
    requires i < |files|
    ensures Held(files[i := f], org) == Held(files, org) - Weight(files[i], org) + Weight(f, org)
    ensures Held(files, org) >= Weight(files[i], org)
    decreases |files|
  {
    var n := |files| - 1;
    if i == n {
      assert files[i := f][..n] == files[..n];
    } else {
      assert files[i := f][..n] == files[..n][i := f];
      HeldUpdate(files[..n], i, f, org);
    }
  }

  // ----- the counter never overstates

  /** Within quota and never above the bytes really held. */
  ghost predicate Sound(s: State) {
    forall org :: org in s.orgs ==> s.orgs[org].used <= s.orgs[org].quota && s.orgs[org].used <= Held(s.files, org)
  }

  /** The counter equals the bytes held. */
  ghost predicate Exact(s: State) {
    forall org :: org in s.orgs ==> s.orgs[org].used == Held(s.files, org)
  }

  lemma ScanKeepsSound(s: State, id: FileId, v: Verdict)
    requires Sound(s)
    ensures Sound(Scan(s, id, v))
  {
    if id < |s.files| {
      var f := s.files[id];
      forall org | org in s.orgs ensures Scan(s, id, v).orgs[org].used <= Held(Scan(s, id, v).files, org) {
        HeldUpdate(s.files, id, f.(status := Confirmed), org);
        HeldUpdate(s.files, id, f.(status := Quarantined), org);
      }
    }
  }

  lemma DiscardKeeps(s: State, id: FileId)
    requires id < |s.files| && Counts(s.files[id], s.files[id].org)
    ensures Sound(s) ==> Sound(Discard(s, id))
    ensures Exact(s) ==> Exact(Discard(s, id))
    ensures Exact(s) && s.files[id].org in s.orgs ==> s.orgs[s.files[id].org].used >= s.files[id].size
  {
    var f := s.files[id];
    forall org | org in s.orgs
      ensures Held(Discard(s, id).files, org) == Held(s.files, org) - Weight(f, org) && Held(s.files, org) >= Weight(f, org)
    {
      HeldUpdate(s.files, id, f.(status := Deleted, deleted := true), org);
    }
  }

  lemma {:induction false} CleanupKeeps(s: State, n: nat)
    requires n <= |s.files|
    ensures Sound(s) ==> Sound(Cleanup(s, n))
    ensures Exact(s) ==> Exact(Cleanup(s, n))
    decreases n
  {
    if n > 0 {
      CleanupKeeps(s, n - 1);
      if Stale(s.files[n - 1], s.now) {
        DiscardKeeps(Cleanup(s, n - 1), n - 1);
      }
    }
  }

  lemma UploadKeeps(s: State, q: UploadRequest)
    requires Upload(s, q).Ok?
    ensures Sound(s) ==> Sound(Upload(s, q).value)
    ensures Exact(s) ==> Exact(Upload(s, q).value)
  {
    var f := File(q.org, q.size, Pending, false, s.now);
    forall o ensures Held(s.files + [f], o) == Held(s.files, o) + Weight(f, o) {
      HeldSnoc(s.files, f, o);
    }
  }

  lemma StepKeepsSound(s: State, op: Op)
    requires Sound(s)
    ensures Sound(Step(s, op))
  {
    match op
    case Tick(_) =>
    case RequestUpload(q) =>
      if Upload(s, q).Ok? { UploadKeeps(s, q); }
    case Verdicted(id, v) => ScanKeepsSound(s, id, v);
    case CleanupRun => CleanupKeeps(s, |s.files|);
  }

  /** Whatever the order of uploads, scans, rescans and cleanups: 0 <= used <= quota and used <= bytes held. */
  lemma {:induction false} CounterNeverOverstates(s: State, ops: seq<Op>)
    requires Sound(s)
    ensures Sound(Run(s, ops))
    decreases |ops|
  {
    if ops != [] {
      CounterNeverOverstates(s, ops[..|ops| - 1]);
      StepKeepsSound(Run(s, ops[..|ops| - 1]), ops[|ops| - 1]);
    }
  }

  // ----- exactly when the counter is exact

  /** A verdict that changes the books of a file already given back: the only way to lose exactness. */
  predicate Miscounts(s: State, op: Op) {
    match op
    case Verdicted(id, Infected) =>
      && id < |s.files| && s.files[id].org in s.orgs
      && !Counts(s.files[id], s.files[id].org)                        // already quarantined or deleted
      && s.files[id].size > 0 && s.orgs[s.files[id].org].used > 0
    case Verdicted(id, Clean) =>
      && id < |s.files| && s.files[id].org in s.orgs
      && !s.files[id].deleted && s.files[id].status == Quarantined && s.files[id].size > 0
    case _ => false
  }

  lemma ScanExact(s: State, id: FileId, v: Verdict)
    requires Exact(s)
    ensures Exact(Scan(s, id, v)) <==> !Miscounts(s, Verdicted(id, v))
  {
    if id < |s.files| && v != ScanDisabled {
      var f := s.files[id];
      var g := f.(status := if v == Clean then Confirmed else Quarantined);
      var t := Scan(s, id, v);
      forall org | org in s.orgs
        ensures Held(t.files, org) == Held(s.files, org) - Weight(f, org) + Weight(g, org) && Held(s.files, org) >= Weight(f, org)
      {
        HeldUpdate(s.files, id, g, org);
      }
      if Miscounts(s, Verdicted(id, v)) {
        assert t.orgs[f.org].used != Held(t.files, f.org);
      }
    }
  }

  /** From exact books a step leaves exact books just when it is not a miscounting verdict. */
  lemma StepExactIff(s: State, op: Op)
    requires Exact(s)
    ensures Exact(Step(s, op)) <==> !Miscounts(s, op)
  {
    match op
    case Tick(_) =>
    case RequestUpload(q) =>
      if Upload(s, q).Ok? { UploadKeeps(s, q); }
    case Verdicted(id, v) => ScanExact(s, id, v);
    case CleanupRun => CleanupKeeps(s, |s.files|);
  }

  /** No step of the run is a miscounting verdict. */
  predicate WellBehaved(s: State, ops: seq<Op>)
    decreases |ops|
  {
    ops == [] || (WellBehaved(s, ops[..|ops| - 1]) && !Miscounts(Run(s, ops[..|ops| - 1]), ops[|ops| - 1]))
  }

  ghost predicate ExactThroughout(s: State, ops: seq<Op>)
    decreases |ops|
  {
    Exact(Run(s, ops)) && (ops == [] || ExactThroughout(s, ops[..|ops| - 1]))
  }

  /** Starting exact, the counter is exact at every moment of a run just when no verdict miscounts. */
  lemma {:induction false} ExactIffWellBehaved(s: State, ops: seq<Op>)
    requires Exact(s)
    ensures ExactThroughout(s, ops) <==> WellBehaved(s, ops)
    decreases |ops|
  {
    if ops != [] {
      var init := ops[..|ops| - 1];
      ExactIffWellBehaved(s, init);
      if ExactThroughout(s, init) {
        assert Exact(Run(s, init));
        StepExactIff(Run(s, init), ops[|ops| - 1]);
      }
    }
  }

  // ----- exactly when the books are exact and the clamp at zero never fires

  /** Giving back the bytes of this file would take the counter below zero. */
  predicate Short(s: State, id: FileId) {
    id < |s.files| && s.files[id].org in s.orgs && s.orgs[s.files[id].org].used < s.files[id].size
  }

  /** The clamp at zero cuts something off, in a verdict or in some iteration of a cleanup. */
  ghost predicate Clamps(s: State, op: Op) {
    match op
    case Verdicted(id, Infected) => Short(s, id)
    case CleanupRun => exists i: nat :: i < |s.files| && Stale(s.files[i], s.now) && Short(Cleanup(s, i), i)
    case _ => false
  }

  /** A verdict the bookkeeping is made for: no infection of a file given back, no rehabilitation of one. */
  predicate Settles(s: State, op: Op) {
    match op
    case Verdicted(id, Infected) =>
      id < |s.files| && s.files[id].org in s.orgs && s.files[id].size > 0 ==> Counts(s.files[id], s.files[id].org)
    case Verdicted(id, Clean) => !Miscounts(s, op)
    case _ => true
  }

  /** With exact books a file that still counts can always be given back in full. */
  lemma CountedIsCovered(s: State, id: FileId)
    requires Exact(s) && id < |s.files| && Counts(s.files[id], s.files[id].org)
    ensures !Short(s, id)
  {
    HeldUpdate(s.files, id, s.files[id], s.files[id].org);
  }

  lemma CleanupNeverClamps(s: State)
    requires Exact(s)
    ensures !Clamps(s, CleanupRun)
  {
    forall i: nat | i < |s.files| && Stale(s.files[i], s.now) ensures !Short(Cleanup(s, i), i) {
      CleanupKeeps(s, i);
      CountedIsCovered(Cleanup(s, i), i);
    }
  }

  /** From exact books a step keeps them exact without clamping exactly when it settles. */
  lemma SettlesIff(s: State, op: Op)
    requires Exact(s)
    ensures Exact(Step(s, op)) && !Clamps(s, op) <==> Settles(s, op)
  {
    StepExactIff(s, op);
    match op
    case Verdicted(id, Infected) =>
      if id < |s.files| && Counts(s.files[id], s.files[id].org) { CountedIsCovered(s, id); }
    case CleanupRun => CleanupNeverClamps(s);
    case _ =>
  }

  predicate AllSettle(s: State, ops: seq<Op>)
    decreases |ops|
  {
    ops == [] || (AllSettle(s, ops[..|ops| - 1]) && Settles(Run(s, ops[..|ops| - 1]), ops[|ops| - 1]))
  }

  ghost predicate NeverClamps(s: State, ops: seq<Op>)
    decreases |ops|
  {
    ops == [] || (NeverClamps(s, ops[..|ops| - 1]) && !Clamps(Run(s, ops[..|ops| - 1]), ops[|ops| - 1]))
  }

  /** Over every run: exact books throughout and no clamp, exactly when every verdict settles. */
  lemma {:induction false} ExactUnclampedIff(s: State, ops: seq<Op>)
    requires Exact(s)
    ensures ExactThroughout(s, ops) && NeverClamps(s, ops) <==> AllSettle(s, ops)
    decreases |ops|
  {
    if ops != [] {
      var init, last := ops[..|ops| - 1], ops[|ops| - 1];
      ExactUnclampedIff(s, init);
      if ExactThroughout(s, init) {
        assert Exact(Run(s, init));
        SettlesIff(Run(s, init), last);
      }
    }
  }

  // ----- a condition on the operations alone

  /** Operation i of the run removes the file in a cleanup. */
  predicate RemovesAt(s: State, ops: seq<Op>, i: nat, id: FileId) {
    i < |ops| && ops[i] == CleanupRun &&
    var t := Run(s, ops[..i]); id < |t.files| && Stale(t.files[id], t.now)
  }

  predicate InfectedAt(ops: seq<Op>, i: nat, id: FileId) {
    i < |ops| && ops[i] == Verdicted(id, Infected)
  }

  /** No verdict follows an infection of the same file, and no infection follows its cleanup. */
  ghost predicate OnceEach(s: State, ops: seq<Op>) {
    && (forall i: nat, j: nat, id :: i < j < |ops| && InfectedAt(ops, i, id) ==>
          ops[j] != Verdicted(id, Infected) && ops[j] != Verdicted(id, Clean))
    && (forall i: nat, j: nat, id :: i < j < |ops| && RemovesAt(s, ops, i, id) ==> ops[j] != Verdicted(id, Infected))
  }

  /** What a cleanup restricted to ids below n does to one file. */
  lemma {:induction false} CleanupAt(s: State, n: nat, id: FileId)
    requires n <= |s.files| && id < |s.files|
    ensures Cleanup(s, n).now == s.now
    ensures Cleanup(s, n).files[id] ==
            if id < n && Stale(s.files[id], s.now) then s.files[id].(status := Deleted, deleted := true) else s.files[id]
    decreases n
  {
    if n > 0 {
      CleanupAt(s, n - 1, id);
    }
  }

  /** From an empty table: a quarantined file had an infection before, a deleted one its cleanup. */
  lemma {:induction false} ReasonsOnRecord(s: State, ops: seq<Op>, id: FileId)
    requires s.files == [] && id < |Run(s, ops).files|
    ensures Run(s, ops).files[id].status == Quarantined ==> exists i: nat :: InfectedAt(ops, i, id)
    ensures Run(s, ops).files[id].deleted ==> exists i: nat :: RemovesAt(s, ops, i, id)
    decreases |ops|
  {
    if ops != [] {
      var n := |ops| - 1;
      var init, last := ops[..n], ops[n];
      var m := Run(s, init);
      if id < |m.files| {
        ReasonsOnRecord(s, init, id);
        if i: nat :| InfectedAt(init, i, id) { assert InfectedAt(ops, i, id); }
        if i: nat :| RemovesAt(s, init, i, id) {
          assert ops[..i] == init[..i];
          assert RemovesAt(s, ops, i, id);
        }
        if last == CleanupRun {
          CleanupAt(m, |m.files|, id);
          if Stale(m.files[id], m.now) { assert RemovesAt(s, ops, n, id); }
        }
        if last == Verdicted(id, Infected) { assert InfectedAt(ops, n, id); }
      }
    }
  }

  lemma OnceEachPrefix(s: State, ops: seq<Op>)
    requires OnceEach(s, ops) && ops != []
    ensures OnceEach(s, ops[..|ops| - 1])
  {
    var init := ops[..|ops| - 1];
    forall i: nat, j: nat, id | i < j < |init| && RemovesAt(s, init, i, id) ensures init[j] != Verdicted(id, Infected) {
      assert init[..i] == ops[..i];
      assert RemovesAt(s, ops, i, id);
    }
    forall i: nat, j: nat, id | i < j < |init| && InfectedAt(init, i, id)
      ensures init[j] != Verdicted(id, Infected) && init[j] != Verdicted(id, Clean)
    {
      assert InfectedAt(ops, i, id);
    }
  }

  lemma LastSettles(s: State, ops: seq<Op>)
    requires s.files == [] && ops != [] && OnceEach(s, ops)
    ensures Settles(Run(s, ops[..|ops| - 1]), ops[|ops| - 1])
  {
    var n := |ops| - 1;
    var init, last := ops[..n], ops[n];
    var m := Run(s, init);
    if last.Verdicted? && last.id < |m.files| {
      ReasonsOnRecord(s, init, last.id);
      if i: nat :| InfectedAt(init, i, last.id) { assert InfectedAt(ops, i, last.id); }
      if i: nat :| RemovesAt(s, init, i, last.id) {
        assert ops[..i] == init[..i];
        assert RemovesAt(s, ops, i, last.id);
      }
    }
  }

  /**
   From empty books, if each file gets at most one infection, no verdict after it and none of infection
   after its cleanup, the counter equals the bytes held at every moment and the clamp never fires.
   */
  lemma OneReclaimPerFileIsExact(s: State, ops: seq<Op>)
    requires s.files == [] && (forall org :: org in s.orgs ==> s.orgs[org].used == 0) && OnceEach(s, ops)
    ensures ExactThroughout(s, ops) && NeverClamps(s, ops)
  {
    AllOnceSettle(s, ops);
    ExactUnclampedIff(s, ops);
  }

  lemma {:induction false} AllOnceSettle(s: State, ops: seq<Op>)
    requires s.files == [] && OnceEach(s, ops)
    ensures AllSettle(s, ops)
    decreases |ops|
  {
    if ops != [] {
      OnceEachPrefix(s, ops);
      AllOnceSettle(s, ops[..|ops| - 1]);
      LastSettles(s, ops);
    }
  }

  /** Exact books do not rule the clamp out: a second infection at a counter of zero clamps and stays exact. */
  lemma SecondInfectionClamps(s: State, id: FileId)
    requires Exact(s) && id < |s.files| && s.files[id].org in s.orgs && s.files[id].size > 0
    requires !Counts(s.files[id], s.files[id].org) && s.orgs[s.files[id].org].used == 0
    ensures Clamps(s, Verdicted(id, Infected)) && Exact(Step(s, Verdicted(id, Infected)))
  {
    StepExactIff(s, Verdicted(id, Infected));
  }

  /** One reclaiming verdict followed by a clean one already breaks the books: 10 bytes held, 0 counted. */
  lemma CleanAfterQuarantineMiscounts()
    ensures exists s: State ::
      && Exact(s)
      && Exact(Step(s, Verdicted(0, Infected)))
      && !Exact(Step(Step(s, Verdicted(0, Infected)), Verdicted(0, Clean)))
  {
    var f := File(7, 10, Pending, false, 0);
    var s := State(0, map[7 := Org(10, 100)], [f]);
    OneFileIsExact(f);
    QuarantineOnly(s);
    StepExactIff(s, Verdicted(0, Infected));
    StepExactIff(Step(s, Verdicted(0, Infected)), Verdicted(0, Clean));
  }

  lemma OneFileIsExact(f: File)
    requires f == File(7, 10, Pending, false, 0)
    ensures Exact(State(0, map[7 := Org(10, 100)], [f]))
  {
    HeldSnoc([], f, 7);
    assert [] + [f] == [f];
  }

  lemma QuarantineOnly(s: State)
    requires s == State(0, map[7 := Org(10, 100)], [File(7, 10, Pending, false, 0)])
    ensures !Miscounts(s, Verdicted(0, Infected))
    ensures Miscounts(Step(s, Verdicted(0, Infected)), Verdicted(0, Clean))
  {
  }

  // ----- what the operations achieve

  /** An upload is granted exactly when type, size, presigning and quota allow it; then its bytes are reserved. */
  lemma UploadGrantedIff(s: State, q: UploadRequest)
    ensures Upload(s, q).Ok? <==>
            && q.mimeAllowed && q.urlOk && q.org in s.orgs
            && q.size <= (match q.plan
                          case Pro => 104_857_600
                          case Business => 524_288_000
                          case Enterprise => 2_147_483_648
                          case _ => 10_485_760)
            && s.orgs[q.org].used + q.size <= s.orgs[q.org].quota
    ensures var t := Step(s, RequestUpload(q));
      && t.now == s.now
      && (Upload(s, q).Err? ==> t == s)
      && (Upload(s, q).Ok? ==>
            && t.files == s.files + [File(q.org, q.size, Pending, false, s.now)]
            && t.orgs == s.orgs[q.org := Org(s.orgs[q.org].used + q.size, s.orgs[q.org].quota)])
  {
  }

  /** Each refusal names a true reason. */
  lemma UploadRefusalIsTrue(s: State, q: UploadRequest)
    requires Upload(s, q).Err?
    ensures match Upload(s, q).error
      case InvalidMimeType => !q.mimeAllowed
      case FileTooLarge => q.mimeAllowed && q.size > 10_485_760 && (q.plan == Enterprise ==> q.size > 2_147_483_648)
      case UploadUrlFailed => q.mimeAllowed && !q.urlOk
      case QuotaExceeded => q.mimeAllowed && q.urlOk && (q.org in s.orgs ==> s.orgs[q.org].used + q.size > s.orgs[q.org].quota)
  {
  }

  /** Only this file may differ. */
  ghost predicate OtherFilesSame(s: State, t: State, id: FileId) {
    |t.files| == |s.files| && t.now == s.now && forall i :: 0 <= i < |s.files| && i != id ==> t.files[i] == s.files[i]
  }

  /**
   A clean verdict confirms the file and changes nothing else; an infection quarantines it, gives its bytes
   back to its organization, never below zero, and changes nothing else; a disabled scan changes nothing.
   */
  lemma VerdictIsRecorded(s: State, id: FileId, v: Verdict)
    requires id < |s.files|
    ensures var t := Step(s, Verdicted(id, v)); var f, g := s.files[id], t.files[id];
      && OtherFilesSame(s, t, id) && t.orgs.Keys == s.orgs.Keys
      && g.org == f.org && g.size == f.size && g.deleted == f.deleted && g.createdAt == f.createdAt
      && g.status == (match v case ScanDisabled => f.status case Clean => Confirmed case Infected => Quarantined)
      && forall org :: org in s.orgs ==>
           && t.orgs[org].quota == s.orgs[org].quota
           && t.orgs[org].used == (if v == Infected && org == f.org
                                   then (if s.orgs[org].used < f.size then 0 else s.orgs[org].used - f.size)
                                   else s.orgs[org].used)
  {
  }

  /** Pending, live, and created more than an hour ago. */
  predicate Overdue(f: File, now: Time) {
    f.status == Pending && !f.deleted && f.createdAt < now - 3_600_000
  }

  /** A cleanup deletes exactly the uploads still pending after an hour and leaves every other file alone. */
  lemma CleanupRemovesIff(s: State, id: FileId)
    requires id < |s.files|
    ensures var t := Step(s, CleanupRun);
      && |t.files| == |s.files| && t.now == s.now
      && t.files[id] == if Overdue(s.files[id], s.now) then s.files[id].(status := Deleted, deleted := true) else s.files[id]
  {
    CleanupAt(s, |s.files|, id);
  }

  /** Bytes of an organization's overdue uploads. */
  function OverdueBytes(files: seq<File>, org: OrgId, now: Time): nat {
    if files == [] then 0
    else
      var f := files[|files| - 1];
      OverdueBytes(files[..|files| - 1], org, now) + (if f.org == org && Overdue(f, now) then f.size else 0)
  }

  lemma {:induction false} CleanupCounters(s: State, n: nat, org: OrgId)
    requires n <= |s.files| && org in s.orgs
    ensures var t, bytes := Cleanup(s, n), OverdueBytes(s.files[..n], org, s.now);
      && t.orgs.Keys == s.orgs.Keys && t.orgs[org].quota == s.orgs[org].quota
      && t.orgs[org].used == if s.orgs[org].used < bytes then 0 else s.orgs[org].used - bytes
    decreases n
  {
    if n > 0 {
      CleanupCounters(s, n - 1, org);
      assert s.files[..n][..n - 1] == s.files[..n - 1];
    }
  }

  /** A cleanup gives every organization back the bytes of its overdue uploads, all together at most what it uses. */
  lemma CleanupGivesBack(s: State, org: OrgId)
    requires org in s.orgs
    ensures var t, bytes := Step(s, CleanupRun), OverdueBytes(s.files, org, s.now);
      && t.orgs.Keys == s.orgs.Keys && t.orgs[org].quota == s.orgs[org].quota
      && t.orgs[org].used == if s.orgs[org].used < bytes then 0 else s.orgs[org].used - bytes
  {
    CleanupCounters(s, |s.files|, org);
    assert s.files[..|s.files|] == s.files;
  }

  /** Over every run a file that is no longer pending stays so, and no cleanup deletes it. */
  lemma {:induction false} SettledFileIsKept(s: State, ops: seq<Op>, id: FileId)
    requires id < |s.files| && s.files[id].status != Pending
    ensures var t := Run(s, ops);
      id < |t.files| && t.files[id].status != Pending && t.files[id].deleted == s.files[id].deleted && t.files[id].org == s.files[id].org
    decreases |ops|
  {
    if ops != [] {
      SettledFileIsKept(s, ops[..|ops| - 1], id);
      var m := Run(s, ops[..|ops| - 1]);
      if ops[|ops| - 1] == CleanupRun {
        CleanupAt(m, |m.files|, id);
      }
    }
  }

  /** Once the scan has found a live file clean, no later operation deletes it. */
  lemma CleanFileIsKept(s: State, id: FileId, ops: seq<Op>)
    requires id < |s.files| && !s.files[id].deleted
    ensures var t := Run(Step(s, Verdicted(id, Clean)), ops); id < |t.files| && !t.files[id].deleted
  {
    SettledFileIsKept(Step(s, Verdicted(id, Clean)), ops, id);
  }

  // ----- the services

  class FileService {
    var now: Time
    var orgs: map<OrgId, Org>
    var files: seq<File>

    ghost function Tables(): State
      reads this
    {
      State(now, orgs, files)
    }

    constructor (orgs: map<OrgId, Org>)
      ensures Tables() == State(0, orgs, [])
    {
      this.now, this.orgs, this.files := 0, orgs, [];
    }

    /** Validation and presigning come first; the reservation and the row insert are one transaction. */
    method RequestUploadUrl(q: UploadRequest) returns (r: Result<FileId, UploadError>)
      modifies this
      ensures Tables() == Step(old(Tables()), RequestUpload(q))
      ensures r == match Upload(old(Tables()), q)
                   case Ok(_) => Ok(|old(files)|)
                   case Err(e) => Err(e)
      ensures r.Ok? ==> files == old(files) + [File(q.org, q.size, Pending, false, now)] && r.value == |old(files)|
      ensures r.Ok? ==> q.org in old(orgs) && old(orgs)[q.org].used + q.size <= old(orgs)[q.org].quota
                        && orgs == old(orgs)[q.org := Org(old(orgs)[q.org].used + q.size, old(orgs)[q.org].quota)]
      ensures r.Err? ==> files == old(files) && orgs == old(orgs)
      ensures r == Err(InvalidMimeType) <==> !q.mimeAllowed
      ensures r == Err(UploadUrlFailed) ==> !q.urlOk
      ensures r == Err(QuotaExceeded) ==> q.org !in orgs || orgs[q.org].used + q.size > orgs[q.org].quota
    {
      if !q.mimeAllowed {
        return Err(InvalidMimeType);
      }
      if q.size > PlanMax(q.plan) {
        return Err(FileTooLarge);
      }
      if !q.urlOk {
        return Err(UploadUrlFailed);
      }
      if !(q.org in orgs && orgs[q.org].used + q.size <= orgs[q.org].quota) {
        return Err(QuotaExceeded);
      }
      orgs := orgs[q.org := orgs[q.org].(used := orgs[q.org].used + q.size)];
      files := files + [File(q.org, q.size, Pending, false, now)];
      return Ok(|files| - 1);
    }

    method VirusScanJob(id: FileId, v: Verdict)
      modifies this
      ensures Tables() == Step(old(Tables()), Verdicted(id, v))
      ensures id < |old(files)| && v == Clean ==> files == old(files)[id := old(files)[id].(status := Confirmed)] && orgs == old(orgs)
      ensures id < |old(files)| && v == Infected ==> files == old(files)[id := old(files)[id].(status := Quarantined)]
      ensures id >= |old(files)| || v == ScanDisabled ==> files == old(files) && orgs == old(orgs)
    {
      if v == ScanDisabled || id >= |files| {
        return;
      }
      if v == Infected {
        files := files[id := files[id].(status := Quarantined)];
        var org, size := files[id].org, files[id].size;
        if org in orgs {
          orgs := orgs[org := orgs[org].(used := if orgs[org].used - size > 0 then orgs[org].used - size else 0)];
        }
      } else {
        files := files[id := files[id].(status := Confirmed)];
      }
    }

    /** Select the stale uploads, then reclaim and soft-delete them one by one. */
    method FileCleanupJob()
      modifies this
      ensures Tables() == Step(old(Tables()), CleanupRun)
      ensures |files| == |old(files)|
      ensures forall i :: 0 <= i < |files| ==>
                files[i] == if Overdue(old(files)[i], now) then old(files)[i].(status := Deleted, deleted := true) else old(files)[i]
    {
      forall i | 0 <= i < |files|
        ensures Step(Tables(), CleanupRun).files[i] ==
                if Overdue(files[i], now) then files[i].(status := Deleted, deleted := true) else files[i]
      {
        CleanupRemovesIff(Tables(), i);
      }
      ghost var s := Tables();
      var selected := files;
      var i := 0;
      while i < |selected|
        invariant 0 <= i <= |selected|
        invariant selected == s.files && now == s.now
        invariant Tables() == Cleanup(s, i)
      {
        if Stale(selected[i], now) {
          var file := selected[i];
          if file.org in orgs {
            orgs := orgs[file.org := Reclaim(orgs[file.org], file.size)];
          }
          files := files[i := files[i].(status := Deleted, deleted := true)];
        }
        i := i + 1;
      }
    }
  }
}
