/**
 Feature flags behind two caches (src/modules/feature-flag/feature-flag.service.ts): an in-process L1
 whose entries live five seconds, a Redis hash L2 shared by all processes, and the feature_flags table.
 A flag row is addressed by its unique key. Invalidation messages may be delivered late, repeatedly or
 never. Times are milliseconds.
 */
module FeatureFlags {
  import opened Wrappers

  type OrgId = string
  type FlagKey = string
  type Process = nat
  type Time = int

  const L1_TTL_MS := 5_000

  datatype Flag = Flag(globallyEnabled: bool, enabledOrgs: seq<OrgId>, disabledOrgs: seq<OrgId>)

  datatype L1Entry = L1Entry(value: bool, expiresAt: Time)

  type L1 = map<string, L1Entry>
  type Table = map<FlagKey, Flag>

  // ----- pure parts

  /** The disabled list beats the enabled list, which beats the global switch. */
  function ResolveFlag(flag: Flag, org: OrgId): (v: bool)
    ensures v <==> org !in flag.disabledOrgs && (org in flag.enabledOrgs || flag.globallyEnabled)
  {
    if org in flag.disabledOrgs then false
    else if org in flag.enabledOrgs then true
    else flag.globallyEnabled
  }

  /** The answer without caches: unknown flags are off. */
  function Lookup(db: Table, org: OrgId, key: FlagKey): bool {
    key in db && ResolveFlag(db[key], org)
  }

  function L1Key(org: OrgId, key: FlagKey): string {
    org + ":" + key
  }

  predicate EndsWith(s: string, suffix: string) {
    |suffix| <= |s| && s[|s| - |suffix|..] == suffix
  }

  predicate ColonFree(org: OrgId) {
    ':' !in org
  }

  /** Without a colon in the organization id, a cache key names one organization and one flag. */
  lemma L1KeyInjective(org: OrgId, key: FlagKey, org': OrgId, key': FlagKey)
    requires ColonFree(org) && ColonFree(org') && L1Key(org, key) == L1Key(org', key')
    ensures org == org' && key == key'
  {
    var k := L1Key(org, key);
    assert k[|org|] == ':' && k[|org'|] == ':';
    assert org == k[..|org|] && org' == k[..|org'|];
    assert key == k[|org| + 1..] && key' == k[|org'| + 1..];
  }

  // ----- one call, seen from its process

  /** Which of the awaited calls throw. */
  datatype Failures = Failures(hget: bool, select: bool, hset: bool)

  datatype Answer = Answer(l1: L1, l2: Table, value: bool)

  function AskFlag(l1: L1, l2: Table, db: Table, now: Time, org: OrgId, key: FlagKey, fail: Failures): Answer {
    var k := L1Key(org, key);
    if k in l1 && l1[k].expiresAt > now then Answer(l1, l2, l1[k].value)
    else if !fail.hget && key in l2 then
      var v := ResolveFlag(l2[key], org);
      Answer(l1[k := L1Entry(v, now + L1_TTL_MS)], l2, v)
    else if fail.select then Answer(l1, l2, false)
    else if key !in db then Answer(l1[k := L1Entry(false, now + L1_TTL_MS)], l2, false)
    else
      var v := ResolveFlag(db[key], org);
      var filled := l1[k := L1Entry(v, now + L1_TTL_MS)];
      if fail.hset then Answer(filled, l2, false) else Answer(filled, l2[key := db[key]], v)
  }

  function Forget(l1: L1, key: FlagKey): L1 {
    map k | k in l1 && !EndsWith(k, ":" + key) :: l1[k]
  }

  datatype Patch = Patch(globallyEnabled: Option<bool>, enabledOrgs: Option<seq<OrgId>>, disabledOrgs: Option<seq<OrgId>>)

  function Coalesce<T>(p: Option<T>, current: T): T {
    if p.Some? then p.value else current
  }

  function Patched(f: Flag, p: Patch): Flag {
    Flag(Coalesce(p.globallyEnabled, f.globallyEnabled), Coalesce(p.enabledOrgs, f.enabledOrgs),
         Coalesce(p.disabledOrgs, f.disabledOrgs))
  }

  // ----- all processes together

  datatype Version = Version(since: Time, db: Table)

  datatype State = State(
    now: Time,
    db: Table,
    versions: seq<Version>,              // every content the table has had, oldest first
    l2: Table,
    l1: map<Process, L1>,
    lastWriter: map<FlagKey, Process>)   // who last created, updated or deleted the flag

  datatype Op =
    | Tick(to: Time)
    | Ask(p: Process, org: OrgId, key: FlagKey, fail: Failures)
    | Create(p: Process, key: FlagKey, flag: Flag)
    | Update(p: Process, key: FlagKey, patch: Patch)
    | Delete(p: Process, key: FlagKey)
    | Deliver(p: Process, key: FlagKey)
    | Reload

  predicate Enabled(s: State, op: Op) {
    match op
    case Tick(to) => s.now <= to
    case Ask(p, org, _, _) => p in s.l1 && ColonFree(org)
    case Create(p, key, _) => p in s.l1 && key !in s.db
    case Update(p, key, _) => p in s.l1 && key in s.db
    case Delete(p, key) => p in s.l1 && key in s.db
    case Deliver(p, _) => p in s.l1
    case Reload => true
  }

  /** A table write followed by invalidateFlag in the writing process. */
  function Write(s: State, p: Process, key: FlagKey, db: Table): State
    requires p in s.l1
  {
    s.(db := db, versions := s.versions + [Version(s.now, db)], lastWriter := s.lastWriter[key := p],
       l1 := s.l1[p := Forget(s.l1[p], key)], l2 := s.l2 - {key})
  }

  function Apply(s: State, op: Op): State
    requires Enabled(s, op)
  {
    match op
    case Tick(to) => s.(now := to)
    case Ask(p, org, key, fail) =>
      var a := AskFlag(s.l1[p], s.l2, s.db, s.now, org, key, fail);
      s.(l1 := s.l1[p := a.l1], l2 := a.l2)
    case Create(p, key, flag) => Write(s, p, key, s.db[key := flag])
    case Update(p, key, patch) => Write(s, p, key, s.db[key := Patched(s.db[key], patch)])
    case Delete(p, key) => Write(s, p, key, s.db - {key})
    case Deliver(p, key) => s.(l1 := s.l1[p := Forget(s.l1[p], key)])
    case Reload => s.(l2 := s.l2 + s.db)
  }

  ghost predicate ValidRun(s: State, ops: seq<Op>)
    decreases |ops|, 0
  {
    ops == [] || (ValidRun(s, ops[..|ops| - 1]) && Enabled(Run(s, ops[..|ops| - 1]), ops[|ops| - 1]))
  }

  ghost function Run(s: State, ops: seq<Op>): State
    requires ValidRun(s, ops)
    decreases |ops|, 1
  {
    if ops == [] then s else Apply(Run(s, ops[..|ops| - 1]), ops[|ops| - 1])
  }

  /** Cold caches in front of any table. */
  ghost predicate Initial(s: State) {
    && s.versions == [Version(s.now, s.db)] && s.l2 == map[] && s.lastWriter == map[]
    && forall p :: p in s.l1 ==> s.l1[p] == map[]
  }

  // ----- what an answer may be based on

  /** Version i was the content of the table at moment m. */
  predicate CurrentAt(versions: seq<Version>, i: nat, m: Time) {
    && i < |versions| && versions[i].since <= m
    && (i + 1 < |versions| ==> m <= versions[i + 1].since)
  }

  /** v is what the table said about the flag at moment m. */
  ghost predicate SaidAt(versions: seq<Version>, m: Time, org: OrgId, key: FlagKey, v: bool) {
    exists i: nat :: CurrentAt(versions, i, m) && v == Lookup(versions[i].db, org, key)
  }

  /** v is what the table said at some moment of the last five seconds. */
  ghost predicate Justified(s: State, org: OrgId, key: FlagKey, v: bool) {
    exists m :: s.now - L1_TTL_MS < m <= s.now && SaidAt(s.versions, m, org, key, v)
  }

  // ----- invariants

  ghost predicate EntryOk(s: State, p: Process, org: OrgId, key: FlagKey)
    requires p in s.l1
  {
    L1Key(org, key) in s.l1[p] ==>
      var e := s.l1[p][L1Key(org, key)];
      && e.expiresAt - L1_TTL_MS <= s.now
      && SaidAt(s.versions, e.expiresAt - L1_TTL_MS, org, key, e.value)
      && (key in s.lastWriter && s.lastWriter[key] == p ==> e.value == Lookup(s.db, org, key))
  }

  ghost predicate Inv(s: State) {
    && |s.versions| > 0 && s.versions[|s.versions| - 1].db == s.db && s.versions[|s.versions| - 1].since <= s.now
    && (forall key :: key in s.l2 ==> key in s.db && s.l2[key] == s.db[key])
    && (forall p, org, key :: p in s.l1 && ColonFree(org) ==> EntryOk(s, p, org, key))
  }

  lemma SaysNow(s: State, org: OrgId, key: FlagKey)
    requires Inv(s)
    ensures SaidAt(s.versions, s.now, org, key, Lookup(s.db, org, key))
  {
    assert CurrentAt(s.versions, |s.versions| - 1, s.now);
  }

  lemma SaidStays(versions: seq<Version>, w: Version, m: Time, org: OrgId, key: FlagKey, v: bool)
    requires SaidAt(versions, m, org, key, v) && m <= w.since
    ensures SaidAt(versions + [w], m, org, key, v)
  {
    var i: nat :| CurrentAt(versions, i, m) && v == Lookup(versions[i].db, org, key);
    assert CurrentAt(versions + [w], i, m);
  }

  lemma ForgetRemoves(l1: L1, org: OrgId, key: FlagKey)
    ensures L1Key(org, key) !in Forget(l1, key)
  {
    var k := L1Key(org, key);
    assert k[|k| - |":" + key|..] == ":" + key;
  }

  /** The answer and the entry it leaves behind come from the table as it is now, or from an unexpired entry. */
  lemma AskReadsTable(s: State, p: Process, org: OrgId, key: FlagKey, fail: Failures)
    requires Inv(s) && p in s.l1 && ColonFree(org)
    ensures var a := AskFlag(s.l1[p], s.l2, s.db, s.now, org, key, fail);
      var k := L1Key(org, key);
      && (a.l1 == s.l1[p] || a.l1 == s.l1[p][k := L1Entry(Lookup(s.db, org, key), s.now + L1_TTL_MS)])
      && (a.l2 == s.l2 || (key in s.db && a.l2 == s.l2[key := s.db[key]]))
      && (a.value ==> a.value == Lookup(s.db, org, key) || (k in s.l1[p] && s.l1[p][k] == L1Entry(a.value, s.l1[p][k].expiresAt) && s.l1[p][k].expiresAt > s.now))
      && (!fail.select && !fail.hset ==> a.value == Lookup(s.db, org, key) || (k in s.l1[p] && s.l1[p][k].value == a.value && s.l1[p][k].expiresAt > s.now))
  {
  }

  lemma AskKeepsInv(s: State, p: Process, org: OrgId, key: FlagKey, fail: Failures)
    requires Inv(s) && Enabled(s, Ask(p, org, key, fail))
    ensures Inv(Apply(s, Ask(p, org, key, fail)))
  {
    var t := Apply(s, Ask(p, org, key, fail));
    AskReadsTable(s, p, org, key, fail);
    forall q, o, f | q in t.l1 && ColonFree(o) ensures EntryOk(t, q, o, f) {
      assert EntryOk(s, q, o, f);
      if q == p && L1Key(o, f) == L1Key(org, key) {
        L1KeyInjective(o, f, org, key);
        SaysNow(s, org, key);
      }
    }
  }

  lemma WriteKeepsInv(s: State, p: Process, key: FlagKey, db: Table)
    requires Inv(s) && p in s.l1
    requires forall f :: f != key ==> (f in db <==> f in s.db) && (f in db ==> db[f] == s.db[f])
    ensures Inv(Write(s, p, key, db))
  {
    var t := Write(s, p, key, db);
    forall q, o, f | q in t.l1 && ColonFree(o) ensures EntryOk(t, q, o, f) {
      assert EntryOk(s, q, o, f);
      if L1Key(o, f) in t.l1[q] {
        var e := t.l1[q][L1Key(o, f)];
        SaidStays(s.versions, Version(s.now, db), e.expiresAt - L1_TTL_MS, o, f, e.value);
        ForgetRemoves(s.l1[p], o, key);
      }
    }
  }

  lemma StepKeepsInv(s: State, op: Op)
    requires Inv(s) && Enabled(s, op)
    ensures Inv(Apply(s, op))
  {
    var t := Apply(s, op);
    match op
    case Ask(p, org, key, fail) => AskKeepsInv(s, p, org, key, fail);
    case Create(p, key, flag) => WriteKeepsInv(s, p, key, s.db[key := flag]);
    case Update(p, key, patch) => WriteKeepsInv(s, p, key, s.db[key := Patched(s.db[key], patch)]);
    case Delete(p, key) => WriteKeepsInv(s, p, key, s.db - {key});
    case Tick(_) =>
      forall q, o, f | q in t.l1 && ColonFree(o) ensures EntryOk(t, q, o, f) { assert EntryOk(s, q, o, f); }
    case Deliver(_, _) =>
      forall q, o, f | q in t.l1 && ColonFree(o) ensures EntryOk(t, q, o, f) { assert EntryOk(s, q, o, f); }
    case Reload =>
      forall q, o, f | q in t.l1 && ColonFree(o) ensures EntryOk(t, q, o, f) { assert EntryOk(s, q, o, f); }
  }

  lemma {:induction false} RunKeepsInv(s: State, ops: seq<Op>)
    requires Inv(s) && ValidRun(s, ops)
    ensures Inv(Run(s, ops))
    decreases |ops|
  {
    if ops != [] {
      RunKeepsInv(s, ops[..|ops| - 1]);
      StepKeepsInv(Run(s, ops[..|ops| - 1]), ops[|ops| - 1]);
    }
  }

  lemma InitialInv(s: State)
    requires Initial(s)
    ensures Inv(s)
  {
  }

  // ----- the guarantees

  /**
   At any reachable moment, in any process: an answer with the table readable and the cache writable is
   what the plain lookup said within the last five seconds; whatever fails inside isEnabled, an answer
   of true still is.
   */
  lemma AnswersAreFresh(s0: State, ops: seq<Op>, p: Process, org: OrgId, key: FlagKey, fail: Failures)
    requires Initial(s0) && ValidRun(s0, ops)
    requires var s := Run(s0, ops); p in s.l1 && ColonFree(org)
    ensures var s := Run(s0, ops);
      var v := AskFlag(s.l1[p], s.l2, s.db, s.now, org, key, fail).value;
      v || (!fail.select && !fail.hset) ==> Justified(s, org, key, v)
  {
    InitialInv(s0);
    RunKeepsInv(s0, ops);
    var s := Run(s0, ops);
    var v := AskFlag(s.l1[p], s.l2, s.db, s.now, org, key, fail).value;
    AskReadsTable(s, p, org, key, fail);
    SaysNow(s, org, key);
    assert EntryOk(s, p, org, key);
    if v || (!fail.select && !fail.hset) {
      if v != Lookup(s.db, org, key) {
        var m := s.l1[p][L1Key(org, key)].expiresAt - L1_TTL_MS;
        assert SaidAt(s.versions, m, org, key, v);
      }
    }
  }

  /** The process that made the last change to a flag answers from the current table. */
  lemma WriterSeesOwnWrite(s0: State, ops: seq<Op>, p: Process, org: OrgId, key: FlagKey, fail: Failures)
    requires Initial(s0) && ValidRun(s0, ops)
    requires var s := Run(s0, ops);
      p in s.l1 && ColonFree(org) && key in s.lastWriter && s.lastWriter[key] == p
    ensures var s := Run(s0, ops);
      var v := AskFlag(s.l1[p], s.l2, s.db, s.now, org, key, fail).value;
      v || (!fail.select && !fail.hset) ==> v == Lookup(s.db, org, key)
  {
    InitialInv(s0);
    RunKeepsInv(s0, ops);
    var s := Run(s0, ops);
    AskReadsTable(s, p, org, key, fail);
    assert EntryOk(s, p, org, key);
  }

  // ----- a cache fill that straddles a write

  /** The HSET of an isEnabled call whose SELECT returned this row some steps ago. */
  function Fill(s: State, key: FlagKey, row: Flag): State {
    s.(l2 := s.l2[key := row])
  }

  ghost predicate L2Agrees(s: State) {
    forall key :: key in s.l2 ==> key in s.db && s.l2[key] == s.db[key]
  }

  predicate Writes(op: Op, key: FlagKey) {
    (op.Create? || op.Update? || op.Delete?) && op.key == key
  }

  predicate Untouched(ops: seq<Op>, key: FlagKey) {
    forall i :: 0 <= i < |ops| ==> !Writes(ops[i], key)
  }

  lemma {:induction false} RowStays(s: State, ops: seq<Op>, key: FlagKey)
    requires ValidRun(s, ops) && Untouched(ops, key)
    ensures key in Run(s, ops).db <==> key in s.db
    ensures key in s.db ==> Run(s, ops).db[key] == s.db[key]
    decreases |ops|
  {
    if ops != [] {
      assert Untouched(ops[..|ops| - 1], key);
      RowStays(s, ops[..|ops| - 1], key);
      assert !Writes(ops[|ops| - 1], key);
    }
  }

  /**
   The guarantees need SELECT and HSET to be one step. When anything may happen between them, the shared
   cache agrees with the table after the HSET exactly when the row is still there as it was read; it is
   so whenever nobody wrote the flag in between. A reload repairs the entry exactly when the flag exists.
   */
  lemma StraddlingFillAgreesIff(s: State, between: seq<Op>, key: FlagKey)
    requires Inv(s) && ValidRun(s, between) && key in s.db
    ensures var t := Run(s, between); var u := Fill(t, key, s.db[key]);
      && (L2Agrees(u) <==> key in t.db && t.db[key] == s.db[key])
      && (Untouched(between, key) ==> L2Agrees(u))
      && (L2Agrees(Apply(u, Reload)) <==> key in t.db)
  {
    RunKeepsInv(s, between);
    var u := Fill(Run(s, between), key, s.db[key]);
    assert u.l2[key] == s.db[key];
    if Untouched(between, key) {
      RowStays(s, between, key);
    }
    if key !in u.db {
      assert Apply(u, Reload).l2[key] == s.db[key];
    }
  }

  /**
   After such a fill of a deleted flag, however long the run and however often it reloads, the entry stays
   until somebody writes the flag again, and a process without an entry of its own keeps answering from it.
   */
  lemma {:induction false} DeletedFlagLingers(u: State, ops: seq<Op>, key: FlagKey)
    requires key in u.l2 && key !in u.db && ValidRun(u, ops) && Untouched(ops, key)
    ensures var t := Run(u, ops);
      && key in t.l2 && t.l2[key] == u.l2[key] && key !in t.db
      && forall p, org, fail: Failures :: p in t.l1 && L1Key(org, key) !in t.l1[p] && !fail.hget ==>
           AskFlag(t.l1[p], t.l2, t.db, t.now, org, key, fail).value == ResolveFlag(u.l2[key], org)
    decreases |ops|
  {
    if ops != [] {
      assert Untouched(ops[..|ops| - 1], key);
      DeletedFlagLingers(u, ops[..|ops| - 1], key);
      assert !Writes(ops[|ops| - 1], key);
    }
  }

  // ----- what the operations achieve

  /** Invalidation drops exactly the entries whose key is some organization, a colon and the flag. */
  lemma ForgetDropsFlag(l1: L1, key: FlagKey, k: string)
    ensures k in Forget(l1, key) <==> k in l1 && !exists org :: k == org + ":" + key
    ensures k in Forget(l1, key) ==> Forget(l1, key)[k] == l1[k]
  {
    var suffix := ":" + key;
    if k in l1 && EndsWith(k, suffix) {
      var org := k[..|k| - |suffix|];
      assert k == org + suffix;
      assert org + ":" + key == org + suffix;
    }
    if k in l1 && exists org :: k == org + ":" + key {
      var org :| k == org + ":" + key;
      assert k[|k| - |suffix|..] == suffix;
    }
  }

  /**
   A write takes effect in the table at once and touches no other flag: what the plain lookup says
   afterwards, for every organization.
   */
  lemma WriteTakesEffect(s: State, op: Op, org: OrgId, other: FlagKey)
    requires Enabled(s, op) && (op.Create? || op.Update? || op.Delete?)
    ensures var t, key := Apply(s, op), op.key;
      && (other != key ==> Lookup(t.db, org, other) == Lookup(s.db, org, other) && (other in t.db <==> other in s.db))
      && (op.Create? ==>
            Lookup(t.db, org, key) == (org !in op.flag.disabledOrgs && (org in op.flag.enabledOrgs || op.flag.globallyEnabled)))
      && (op.Update? ==>
            var disabled := if op.patch.disabledOrgs.Some? then op.patch.disabledOrgs.value else s.db[key].disabledOrgs;
            var enabled := if op.patch.enabledOrgs.Some? then op.patch.enabledOrgs.value else s.db[key].enabledOrgs;
            var global := if op.patch.globallyEnabled.Some? then op.patch.globallyEnabled.value else s.db[key].globallyEnabled;
            Lookup(t.db, org, key) == (org !in disabled && (org in enabled || global)))
      && (op.Delete? ==> key !in t.db && !Lookup(t.db, org, key))
      && key !in t.l2
  {
  }

  /**
   The caches do their work: for five seconds after an answer the process repeats it without asking Redis or
   the table, and a flag read from the table is from then on answered from Redis in any process.
   */
  lemma AnswersAreCached(l1: L1, l2: Table, db: Table, now: Time, org: OrgId, key: FlagKey, fail: Failures,
                         l2': Table, db': Table, now': Time, fail': Failures, org': OrgId)
    requires !(L1Key(org, key) in l1 && l1[L1Key(org, key)].expiresAt > now) && !fail.select && !fail.hset
    ensures var a := AskFlag(l1, l2, db, now, org, key, fail);
      && (now' < now + 5_000 ==> AskFlag(a.l1, l2', db', now', org, key, fail') == Answer(a.l1, l2', a.value))
      && (key in db && (fail.hget || key !in l2) ==>
            && key in a.l2 && a.l2[key] == db[key]
            && AskFlag(map[], a.l2, db', now', org', key, Failures(false, true, true)).value == ResolveFlag(db[key], org'))
  {
  }

  /** An uncached answer is false whenever the table cannot be read, or Redis cannot be written after reading it. */
  lemma FailuresAnswerFalse(l1: L1, l2: Table, db: Table, now: Time, org: OrgId, key: FlagKey, fail: Failures)
    requires !(L1Key(org, key) in l1 && l1[L1Key(org, key)].expiresAt > now) && (fail.hget || key !in l2)
    ensures var a := AskFlag(l1, l2, db, now, org, key, fail);
      && (fail.select ==> a == Answer(l1, l2, false))
      && (!fail.select && fail.hset && key in db ==> !a.value && a.l2 == l2)
  {
  }

  /** A process that has received the invalidation of a flag answers from the current table. */
  lemma DeliveryBringsUpToDate(s0: State, ops: seq<Op>, p: Process, org: OrgId, key: FlagKey, fail: Failures)
    requires Initial(s0) && ValidRun(s0, ops)
    requires p in Run(s0, ops).l1 && ColonFree(org) && !fail.select && !fail.hset
    ensures var t := Apply(Run(s0, ops), Deliver(p, key));
      && AskFlag(t.l1[p], t.l2, t.db, t.now, org, key, fail).value == Lookup(t.db, org, key)
      && t.db == Run(s0, ops).db && t.l2 == Run(s0, ops).l2
  {
    InitialInv(s0);
    RunKeepsInv(s0, ops);
    ForgetRemoves(Run(s0, ops).l1[p], org, key);
  }

  // ----- the service, in one process

  class Shared {
    var db: Table
    var l2: Table

    constructor ()
      ensures db == map[] && l2 == map[]
    {
      db, l2 := map[], map[];
    }
  }

  class FlagService {
    const shared: Shared
    var l1Cache: L1

    constructor (shared: Shared)
      ensures this.shared == shared && l1Cache == map[]
    {
      this.shared, l1Cache := shared, map[];
    }

    method IsEnabled(now: Time, org: OrgId, key: FlagKey, fail: Failures) returns (value: bool)
      modifies this`l1Cache, shared`l2
      ensures Answer(l1Cache, shared.l2, value) ==
              AskFlag(old(l1Cache), old(shared.l2), shared.db, now, org, key, fail)
    {
      var k := L1Key(org, key);
      if k in l1Cache && l1Cache[k].expiresAt > now {
        return l1Cache[k].value;
      }
      if !fail.hget && key in shared.l2 {
        value := ResolveFlag(shared.l2[key], org);
        l1Cache := l1Cache[k := L1Entry(value, now + L1_TTL_MS)];
        return;
      }
      if fail.select {
        return false;
      }
      if key !in shared.db {
        l1Cache := l1Cache[k := L1Entry(false, now + L1_TTL_MS)];
        return false;
      }
      value := ResolveFlag(shared.db[key], org);
      l1Cache := l1Cache[k := L1Entry(value, now + L1_TTL_MS)];
      if fail.hset {
        return false;
      }
      shared.l2 := shared.l2[key := shared.db[key]];
    }

    /** The loop that drops every L1 entry of one flag. */
    method DropEntries(key: FlagKey)
      modifies this`l1Cache
      ensures l1Cache == Forget(old(l1Cache), key)
    {
      var todo := l1Cache.Keys;
      while todo != {}
        invariant todo <= old(l1Cache).Keys
        invariant l1Cache == map k | k in old(l1Cache) && (k in todo || !EndsWith(k, ":" + key)) :: old(l1Cache)[k]
        decreases todo
      {
        var k :| k in todo;
        todo := todo - {k};
        if EndsWith(k, ":" + key) {
          l1Cache := l1Cache - {k};
        }
      }
    }

    method InvalidateFlag(key: FlagKey)
      modifies this`l1Cache, shared`l2
      ensures l1Cache == Forget(old(l1Cache), key) && shared.l2 == old(shared.l2) - {key}
    {
      DropEntries(key);
      shared.l2 := shared.l2 - {key};
    }

    /** The safety-net reload: one hset per row. */
    method LoadFlagsIntoRedis()
      modifies shared`l2
      ensures shared.l2 == old(shared.l2) + shared.db
    {
      var todo := shared.db.Keys;
      while todo != {}
        modifies shared`l2
        invariant todo <= shared.db.Keys
        invariant shared.l2 == old(shared.l2) + (map key | key in shared.db && key !in todo :: shared.db[key])
        decreases todo
      {
        var key :| key in todo;
        todo := todo - {key};
        shared.l2 := shared.l2[key := shared.db[key]];
      }
    }

    method CreateFlag(key: FlagKey, flag: Flag) returns (ok: bool)
      modifies this`l1Cache, shared
      ensures ok <==> key !in old(shared.db)
      ensures ok ==> shared.db == old(shared.db)[key := flag]
                     && l1Cache == Forget(old(l1Cache), key) && shared.l2 == old(shared.l2) - {key}
      ensures !ok ==> shared.db == old(shared.db) && shared.l2 == old(shared.l2) && l1Cache == old(l1Cache)
    {
      if key in shared.db {
        return false;
      }
      shared.db := shared.db[key := flag];
      InvalidateFlag(key);
      return true;
    }

    method UpdateFlag(key: FlagKey, patch: Patch) returns (ok: bool)
      modifies this`l1Cache, shared
      ensures ok <==> key in old(shared.db)
      ensures ok ==> shared.db.Keys == old(shared.db).Keys && forall k :: k in shared.db && k != key ==> shared.db[k] == old(shared.db)[k]
      ensures ok ==>
              && shared.db[key].globallyEnabled ==
                 (if patch.globallyEnabled.Some? then patch.globallyEnabled.value else old(shared.db)[key].globallyEnabled)
              && shared.db[key].enabledOrgs ==
                 (if patch.enabledOrgs.Some? then patch.enabledOrgs.value else old(shared.db)[key].enabledOrgs)
              && shared.db[key].disabledOrgs ==
                 (if patch.disabledOrgs.Some? then patch.disabledOrgs.value else old(shared.db)[key].disabledOrgs)
      ensures ok ==> shared.db == old(shared.db)[key := Patched(old(shared.db)[key], patch)]
                     && l1Cache == Forget(old(l1Cache), key) && shared.l2 == old(shared.l2) - {key}
      ensures !ok ==> shared.db == old(shared.db) && shared.l2 == old(shared.l2) && l1Cache == old(l1Cache)
    {
      if key !in shared.db {
        return false;
      }
      shared.db := shared.db[key := Patched(shared.db[key], patch)];
      InvalidateFlag(key);
      return true;
    }

    method DeleteFlag(key: FlagKey)
      modifies this`l1Cache, shared
      ensures shared.db == old(shared.db) - {key}
      ensures key in old(shared.db) ==> l1Cache == Forget(old(l1Cache), key) && shared.l2 == old(shared.l2) - {key}
      ensures key !in old(shared.db) ==> shared.l2 == old(shared.l2) && l1Cache == old(l1Cache)
    {
      if key in shared.db {
        shared.db := shared.db - {key};
        InvalidateFlag(key);
      }
    }
  }
}
