/**
 Monthly partitions of audit_logs (src/shared/jobs/cleanup.worker.ts): each cleanup run creates the next
 two months and drops up to 24 months before the cutoff month. The process runs in UTC. A moment is
 milliseconds from 0000-01-01; the Date getters supply the month of a moment.
 */
module Partitions {
  import opened Calendar

  type Moment = int

  const DAY_MS := 24 * 60 * 60 * 1000
  const DEFAULT_RETENTION_DAYS := 90
  const MONTHS_BACK := 24
  const MONTHS_AHEAD := 2

  /** The first moment of a month. */
  ghost function From(m: Month): Moment {
    Start(m) * DAY_MS
  }

  ghost predicate MonthIs(t: Moment, m: Month) {
    From(m) <= t < From(m + 1)
  }

  lemma EveryMomentHasMonth(t: Moment)
    ensures exists m :: MonthIs(t, m)
  {
    var m := EveryDayHasMonth(t / DAY_MS);
    assert MonthIs(t, m);
  }

  /** getFullYear() * 12 + getMonth() */
  ghost function MonthAt(t: Moment): (m: Month)
    ensures MonthIs(t, m)
  {
    EveryMomentHasMonth(t);
    var m :| MonthIs(t, m);
    m
  }

  lemma FromMonotone(a: Month, b: Month)
    requires a < b
    ensures From(a) < From(b)
  {
    StartMonotone(a, b);
  }

  lemma MonthsInOrder(t: Moment, u: Moment, m: Month, n: Month)
    requires t <= u && MonthIs(t, m) && MonthIs(u, n)
    ensures m <= n
  {
    if n + 1 < m {
      FromMonotone(n + 1, m);
    }
  }

  // ----- labels

  function Digit(d: nat): char
    requires d < 10
  {
    ('0' as int + d) as char
  }

  function Decimal(n: nat): string {
    if n < 10 then [Digit(n)] else Decimal(n / 10) + [Digit(n % 10)]
  }

  function YearText(y: int): string {
    if y < 0 then "-" + Decimal(-y) else Decimal(y)
  }

  /** `${year}_${month padded to two digits}` */
  function Label(m: Month): string {
    YearText(m / 12) + ("_" + [Digit((m % 12 + 1) / 10)] + [Digit((m % 12 + 1) % 10)])
  }

  lemma {:induction false} DecimalInjective(a: nat, b: nat)
    requires Decimal(a) == Decimal(b)
    ensures a == b
  {
    DecimalNonempty(a / 10);
    DecimalNonempty(b / 10);
    if a >= 10 && b >= 10 {
      var s := Decimal(a);
      assert s[..|s| - 1] == Decimal(a / 10) && s[..|s| - 1] == Decimal(b / 10);
      assert s[|s| - 1] == Digit(a % 10) && s[|s| - 1] == Digit(b % 10);
      DecimalInjective(a / 10, b / 10);
    } else if a < 10 && b < 10 {
      assert Decimal(a)[0] == Digit(a) && Decimal(b)[0] == Digit(b);
    }
  }

  lemma {:induction false} DecimalNonempty(n: nat)
    ensures |Decimal(n)| > 0 && Decimal(n)[0] != '-'
  {
    if n >= 10 {
      DecimalNonempty(n / 10);
    }
  }

  lemma YearTextInjective(a: int, b: int)
    requires YearText(a) == YearText(b)
    ensures a == b
  {
    if a < 0 && b < 0 {
      assert YearText(a)[1..] == Decimal(-a) && YearText(b)[1..] == Decimal(-b);
      DecimalInjective(-a, -b);
    } else if a >= 0 && b >= 0 {
      DecimalInjective(a, b);
    } else if a >= 0 {
      DecimalNonempty(a);
    } else {
      DecimalNonempty(b);
    }
  }

  lemma SameTail(a: string, b: string, x: string, y: string)
    requires |x| == |y| && a + x == b + y
    ensures a == b && x == y
  {
    assert |a| == |b|;
    assert a == (a + x)[..|a|] && b == (b + y)[..|b|];
    assert x == (a + x)[|a|..] && y == (b + y)[|b|..];
  }

  /** A label names one month. */
  lemma LabelInjective(m: Month, n: Month)
    requires Label(m) == Label(n)
    ensures m == n
  {
    var x := "_" + [Digit((m % 12 + 1) / 10)] + [Digit((m % 12 + 1) % 10)];
    var y := "_" + [Digit((n % 12 + 1) / 10)] + [Digit((n % 12 + 1) % 10)];
    SameTail(YearText(m / 12), YearText(n / 12), x, y);
    YearTextInjective(m / 12, n / 12);
    assert x[1] == Digit((m % 12 + 1) / 10) && y[1] == Digit((n % 12 + 1) / 10);
    assert x[2] == Digit((m % 12 + 1) % 10) && y[2] == Digit((n % 12 + 1) % 10);
  }

  ghost predicate Spells(f: int -> string, m: Month) {
    f(m) == Label(m)
  }

  ghost predicate IsNaming(f: int -> string) {
    forall m :: Spells(f, m)
  }

  ghost function Naming(): (f: int -> string)
    ensures IsNaming(f)
  {
    assert forall m :: Spells(Label, m);
    assert IsNaming(Label);
    var f :| IsNaming(f);
    f
  }

  /** The label of a month; proofs use only that labels tell months apart. */
  ghost function Name(m: Month): string {
    Naming()(m)
  }

  lemma NameIsLabel(m: Month)
    ensures Name(m) == Label(m)
  {
    assert Spells(Naming(), m);
  }

  lemma NameInjective(m: Month, n: Month)
    requires Name(m) == Name(n)
    ensures m == n
  {
    NameIsLabel(m);
    NameIsLabel(n);
    LabelInjective(m, n);
  }

  // ----- the partitioned table

  datatype Partition = Partition(from: Moment, to: Moment, rows: seq<Moment>)

  type Table = map<string, Partition>

  predicate Overlaps(t: Table, from: Moment, to: Moment) {
    exists l :: l in t && t[l].from < to && from < t[l].to
  }

  /** The partition a label stands for. */
  ghost predicate IsMonthOf(l: string, p: Partition, m: Month) {
    && l == Name(m) && p.from == From(m) && p.to == From(m + 1)
    && forall r :: r in p.rows ==> MonthIs(r, m)
  }

  ghost predicate TableOk(t: Table) {
    forall l :: l in t ==> exists m :: IsMonthOf(l, t[l], m)
  }

  /** CREATE TABLE IF NOT EXISTS ... FOR VALUES FROM .. TO ..; overlapping ranges are refused. */
  ghost function CreateMonth(t: Table, m: Month, fails: bool): Table {
    if Name(m) in t || fails || Overlaps(t, From(m), From(m + 1)) then t
    else t[Name(m) := Partition(From(m), From(m + 1), [])]
  }

  /** The next n months after m. */
  ghost function CreateAhead(t: Table, m: Month, fails: seq<bool>, n: nat): Table
    requires n <= |fails|
  {
    if n == 0 then t else CreateMonth(CreateAhead(t, m, fails, n - 1), m + n, fails[n - 1])
  }

  ghost function DropMonths(t: Table, c: Month, n: nat): Table {
    if n == 0 then t else DropMonths(t, c, n - 1) - {Name(c - n)}
  }

  /** Label and range determine each other. */
  lemma LabelIffRange(m: Month, n: Month)
    ensures Label(m) == Label(n) <==> m == n
    ensures From(m) == From(n) <==> m == n
  {
    if Label(m) == Label(n) { LabelInjective(m, n); }
    if m < n {
      FromMonotone(m, n);
    } else if n < m {
      FromMonotone(n, m);
    }
  }

  /** Different months are disjoint, and a month ends exactly where the next begins. */
  lemma PartitionsIdenticalOrDisjoint(m: Month, n: Month)
    ensures m != n ==> From(m + 1) <= From(n) || From(n + 1) <= From(m)
    ensures From(m + 1) == From(m) + DaysIn(m) * DAY_MS
  {
    StartNext(m);
    if m + 1 < n {
      FromMonotone(m + 1, n);
    } else if n + 1 < m {
      FromMonotone(n + 1, m);
    }
  }

  /** In a well-formed table a missing month never overlaps an existing one, so creation goes through. */
  lemma MissingMonthIsFree(t: Table, m: Month)
    requires TableOk(t) && Name(m) !in t
    ensures !Overlaps(t, From(m), From(m + 1))
  {
    forall l | l in t ensures !(t[l].from < From(m + 1) && From(m) < t[l].to) {
      var n :| IsMonthOf(l, t[l], n);
      PartitionsIdenticalOrDisjoint(m, n);
      assert m != n;
    }
  }

  lemma CreateKeepsOk(t: Table, m: Month, fails: bool)
    requires TableOk(t)
    ensures TableOk(CreateMonth(t, m, fails))
    ensures !fails ==> Name(m) in CreateMonth(t, m, fails)
  {
    var u := CreateMonth(t, m, fails);
    if Name(m) !in t {
      MissingMonthIsFree(t, m);
    }
    forall l | l in u ensures exists n :: IsMonthOf(l, u[l], n) {
      if l in t {
        var n :| IsMonthOf(l, t[l], n);
        assert u[l] == t[l] && IsMonthOf(l, u[l], n);
      } else {
        assert IsMonthOf(l, u[l], m);
      }
    }
  }

  lemma CreateMonthExactly(t: Table, m: Month, fails: bool, l: string)
    requires TableOk(t)
    ensures var u := CreateMonth(t, m, fails);
      && (l in u <==> l in t || (l == Name(m) && !fails))
      && (l in t ==> u[l] == t[l])
      && (l in u && l !in t ==> u[l] == Partition(From(m), From(m + 1), []))
  {
    if Name(m) !in t {
      MissingMonthIsFree(t, m);
    }
  }

  /** One run creates exactly the two months after the present one, each unless its statement fails. */
  lemma CreatesNextTwo(t: Table, m: Month, fails: seq<bool>, l: string)
    requires TableOk(t) && |fails| == 2
    ensures var u := CreateAhead(t, m, fails, 2);
      && (l in u <==> l in t || (l == Name(m + 1) && !fails[0]) || (l == Name(m + 2) && !fails[1]))
      && (l in t ==> u[l] == t[l])
  {
    var one := CreateMonth(t, m + 1, fails[0]);
    UnfoldTwo(t, m, fails);
    CreateMonthExactly(t, m + 1, fails[0], l);
    CreateAheadKeepsOk(t, m, fails, 1);
    CreateMonthExactly(one, m + 2, fails[1], l);
  }

  lemma UnfoldTwo(t: Table, m: Month, fails: seq<bool>)
    requires |fails| == 2
    ensures CreateAhead(t, m, fails, 1) == CreateMonth(t, m + 1, fails[0])
    ensures CreateAhead(t, m, fails, 2) == CreateMonth(CreateMonth(t, m + 1, fails[0]), m + 2, fails[1])
  {
    assert CreateAhead(t, m, fails, 0) == t;
  }

  lemma LabelsLookLikeThis()
    ensures Label(12 * 2024 + 2) == "2024_03" && Label(12 * 2024 + 11) == "2024_12"
  {
    assert Decimal(2024) == Decimal(202) + ['4'];
    assert Decimal(202) == Decimal(20) + ['2'];
    assert Decimal(20) == Decimal(2) + ['0'];
    assert YearText(2024) == "2024";
  }

  /** The label belongs to one of the months lo, ..., hi - 1. */
  ghost predicate NamesMonth(l: string, lo: Month, hi: Month) {
    exists k :: lo <= k < hi && l == Name(k)
  }

  lemma {:induction false} DropLeaves(t: Table, c: Month, n: nat, l: string)
    ensures l in DropMonths(t, c, n) <==> l in t && !NamesMonth(l, c - n, c)
    ensures l in DropMonths(t, c, n) ==> DropMonths(t, c, n)[l] == t[l]
    decreases n
  {
    if n > 0 {
      DropLeaves(t, c, n - 1, l);
      assert NamesMonth(l, c - n, c) <==> NamesMonth(l, c - n + 1, c) || l == Name(c - n);
    }
  }

  // ----- a cleanup run

  /** What a run meets: the clock, the retention in force, and which statements fail. */
  datatype Job = Job(now: Moment, retentionDays: nat, createFails: seq<bool>, drops: nat)

  ghost predicate ValidJob(j: Job) {
    |j.createFails| == MONTHS_AHEAD && j.drops <= MONTHS_BACK
  }

  ghost function Cutoff(j: Job): Moment {
    j.now - j.retentionDays * DAY_MS
  }

  ghost function Created(t: Table, j: Job): Table
    requires ValidJob(j)
  {
    CreateAhead(t, MonthAt(j.now), j.createFails, MONTHS_AHEAD)
  }

  ghost function Cleaned(t: Table, j: Job): Table
    requires ValidJob(j)
  {
    DropMonths(Created(t, j), MonthAt(Cutoff(j)), j.drops)
  }

  lemma {:induction false} CreateAheadKeepsOk(t: Table, m: Month, fails: seq<bool>, n: nat)
    requires TableOk(t) && n <= |fails|
    ensures TableOk(CreateAhead(t, m, fails, n))
    decreases n
  {
    if n > 0 {
      CreateAheadKeepsOk(t, m, fails, n - 1);
      CreateKeepsOk(CreateAhead(t, m, fails, n - 1), m + n, fails[n - 1]);
    }
  }

  lemma {:induction false} CreateAheadExtends(t: Table, m: Month, fails: seq<bool>, n: nat, l: string)
    requires l in t && n <= |fails|
    ensures l in CreateAhead(t, m, fails, n) && CreateAhead(t, m, fails, n)[l] == t[l]
    decreases n
  {
    if n > 0 {
      CreateAheadExtends(t, m, fails, n - 1, l);
    }
  }

  lemma CreatedKeepsOk(t: Table, j: Job)
    requires TableOk(t) && ValidJob(j)
    ensures TableOk(Created(t, j))
  {
    CreateAheadKeepsOk(t, MonthAt(j.now), j.createFails, MONTHS_AHEAD);
  }

  lemma DropKeepsOk(t: Table, c: Month, n: nat)
    requires TableOk(t)
    ensures TableOk(DropMonths(t, c, n))
  {
    var u := DropMonths(t, c, n);
    forall l | l in u ensures exists m :: IsMonthOf(l, u[l], m) {
      DropLeaves(t, c, n, l);
      var m :| IsMonthOf(l, t[l], m);
      assert IsMonthOf(l, u[l], m);
    }
  }

  lemma CleanedKeepsOk(t: Table, j: Job)
    requires TableOk(t) && ValidJob(j)
    ensures TableOk(Cleaned(t, j))
  {
    CreatedKeepsOk(t, j);
    DropKeepsOk(Created(t, j), MonthAt(Cutoff(j)), j.drops);
  }

  /** Dropping only reaches rows before the start of month c. */
  lemma DropOnlyBefore(t: Table, c: Month, n: nat, l: string, r: Moment)
    requires TableOk(t) && l in t && r in t[l].rows && l !in DropMonths(t, c, n)
    ensures r < From(c)
  {
    DropLeaves(t, c, n, l);
    var m :| IsMonthOf(l, t[l], m);
    NamedBefore(l, t[l], m, c - n, c);
    EarlierRow(r, m, c);
  }

  lemma NamedBefore(l: string, p: Partition, m: Month, lo: Month, hi: Month)
    requires IsMonthOf(l, p, m) && NamesMonth(l, lo, hi)
    ensures lo <= m < hi
  {
    var k :| lo <= k < hi && l == Name(k);
    NameInjective(m, k);
  }

  lemma EarlierRow(r: Moment, m: Month, c: Month)
    requires MonthIs(r, m) && m < c
    ensures r < From(c)
  {
    if m + 1 < c {
      FromMonotone(m + 1, c);
    }
  }

  /** Every row a run removes is older than now minus the retention in force. */
  lemma DroppedRowsAreExpired(t: Table, j: Job, l: string, r: Moment)
    requires TableOk(t) && ValidJob(j) && l in t && r in t[l].rows && l !in Cleaned(t, j)
    ensures r < Cutoff(j)
  {
    CreatedKeepsOk(t, j);
    CreateAheadExtends(t, MonthAt(j.now), j.createFails, MONTHS_AHEAD, l);
    DropOnlyBefore(Created(t, j), MonthAt(Cutoff(j)), j.drops, l, r);
  }

  lemma CutoffNotLater(j: Job)
    ensures MonthAt(Cutoff(j)) <= MonthAt(j.now)
  {
    MonthsInOrder(Cutoff(j), j.now, MonthAt(Cutoff(j)), MonthAt(j.now));
  }

  lemma DropSparesLater(t: Table, c: Month, n: nat, m: Month)
    requires m >= c && Name(m) in t
    ensures Name(m) in DropMonths(t, c, n) && DropMonths(t, c, n)[Name(m)] == t[Name(m)]
  {
    DropLeaves(t, c, n, Name(m));
    if NamesMonth(Name(m), c - n, c) {
      var k :| c - n <= k < c && Name(m) == Name(k);
      NameInjective(m, k);
    }
  }

  /** No run drops a partition it creates or that covers the present. */
  lemma RunKeepsItsOwnPartitions(t: Table, j: Job, m: Month)
    requires ValidJob(j) && m >= MonthAt(j.now) && Name(m) in Created(t, j)
    ensures Name(m) in Cleaned(t, j) && Cleaned(t, j)[Name(m)] == Created(t, j)[Name(m)]
  {
    CutoffNotLater(j);
    DropSparesLater(Created(t, j), MonthAt(Cutoff(j)), j.drops, m);
  }

  // ----- whole histories: inserts and cleanup runs in any order

  datatype Op = Insert(at: Moment) | CleanupRun(job: Job)

  /** A row goes to the partition of its month, or to the default partition, which is never dropped. */
  ghost function Step(t: Table, op: Op): Table
    requires op.CleanupRun? ==> ValidJob(op.job)
  {
    match op
    case Insert(at) =>
      var l := Name(MonthAt(at));
      if l in t then t[l := t[l].(rows := t[l].rows + [at])] else t
    case CleanupRun(j) => Cleaned(t, j)
  }

  ghost predicate ValidOps(ops: seq<Op>) {
    forall i :: 0 <= i < |ops| && ops[i].CleanupRun? ==> ValidJob(ops[i].job)
  }

  ghost function Run(t: Table, ops: seq<Op>): Table
    requires ValidOps(ops)
    decreases |ops|
  {
    if ops == [] then t else Step(Run(t, ops[..|ops| - 1]), ops[|ops| - 1])
  }

  lemma InsertKeepsOk(t: Table, at: Moment)
    requires TableOk(t)
    ensures TableOk(Step(t, Insert(at)))
  {
    var u := Step(t, Insert(at));
    forall l | l in u ensures exists n :: IsMonthOf(l, u[l], n) {
      var n :| IsMonthOf(l, t[l], n);
      if l == Name(MonthAt(at)) {
        NameInjective(n, MonthAt(at));
      }
      assert IsMonthOf(l, u[l], n);
    }
  }

  lemma {:induction false} RunKeepsOk(t: Table, ops: seq<Op>)
    requires TableOk(t) && ValidOps(ops)
    ensures TableOk(Run(t, ops))
    decreases |ops|
  {
    if ops != [] {
      var s, op := Run(t, ops[..|ops| - 1]), ops[|ops| - 1];
      RunKeepsOk(t, ops[..|ops| - 1]);
      match op
      case Insert(at) => InsertKeepsOk(s, at);
      case CleanupRun(j) => CleanedKeepsOk(s, j);
    }
  }

  lemma TableIsDisjoint(t: Table, l: string, k: string)
    requires TableOk(t) && l in t && k in t && l != k
    ensures t[l].to <= t[k].from || t[k].to <= t[l].from
  {
    var m :| IsMonthOf(l, t[l], m);
    var n :| IsMonthOf(k, t[k], n);
    PartitionsIdenticalOrDisjoint(m, n);
  }

  /**
   Over any history of inserts and cleanup runs: partitions stay whole months, any two are disjoint, and
   whatever the next cleanup removes is older than its cutoff.
   */
  lemma HistoryIsSafe(t: Table, ops: seq<Op>, j: Job, l: string, k: string, r: Moment)
    requires TableOk(t) && ValidOps(ops) && ValidJob(j)
    ensures var s := Run(t, ops);
      && TableOk(s)
      && (l in s && k in s && l != k ==> s[l].to <= s[k].from || s[k].to <= s[l].from)
      && (l in s && r in s[l].rows && l !in Cleaned(s, j) ==> r < Cutoff(j))
  {
    RunKeepsOk(t, ops);
    var s := Run(t, ops);
    if l in s && k in s && l != k {
      TableIsDisjoint(s, l, k);
    }
    if l in s && r in s[l].rows && l !in Cleaned(s, j) {
      DroppedRowsAreExpired(s, j, l, r);
    }
  }

  // ----- retention of one organization

  /** MIN(retention_audit_days) over active and suspended organizations, 90 when there are none. */
  function MinRetention(days: seq<nat>): (r: nat)
    ensures days == [] ==> r == 90
    ensures days != [] ==> r in days && forall d :: d in days ==> r <= d
  {
    if days == [] then DEFAULT_RETENTION_DAYS
    else if |days| == 1 then days[0]
    else
      var r := MinRetention(days[1..]);
      assert forall d :: d in days ==> d == days[0] || d in days[1..];
      if days[0] <= r then days[0] else r
  }

  /** The run removes this row from the table. */
  ghost predicate Loses(t: Table, j: Job, l: string, r: Moment)
    requires ValidJob(j)
  {
    TableOk(t) && l in t && r in t[l].rows && l !in Cleaned(t, j)
  }

  /** A run that drops at all removes the last row of the month before the cutoff month, if there is one. */
  lemma EdgeIsLost(j: Job) returns (t: Table, l: string, r: Moment)
    requires ValidJob(j) && j.drops > 0
    ensures Loses(t, j, l, r) && r == From(MonthAt(Cutoff(j))) - 1
  {
    var c := MonthAt(Cutoff(j));
    l, r := Name(c - 1), From(c) - 1;
    FromMonotone(c - 1, c);
    t := map[l := Partition(From(c - 1), From(c), [r])];
    assert IsMonthOf(l, t[l], c - 1);
    CreateAheadExtends(t, MonthAt(j.now), j.createFails, MONTHS_AHEAD, l);
    DropLeaves(Created(t, j), c, j.drops, l);
    assert NamesMonth(l, c - j.drops, c);
  }

  lemma LostBeforeCutoffMonth(t: Table, j: Job, l: string, r: Moment)
    requires ValidJob(j) && Loses(t, j, l, r)
    ensures r < From(MonthAt(Cutoff(j))) && j.drops > 0
  {
    CreatedKeepsOk(t, j);
    CreateAheadExtends(t, MonthAt(j.now), j.createFails, MONTHS_AHEAD, l);
    DropOnlyBefore(Created(t, j), MonthAt(Cutoff(j)), j.drops, l, r);
  }

  /**
   The job uses the least retention for all organizations. One that asks for ownDays is sure to keep its
   rows for that long, whatever the table, exactly when the run drops nothing or ownDays do not reach
   back past the start of the cutoff month; the organization with the least retention always is.
   */
  lemma OwnRetentionKeptIff(j: Job, days: seq<nat>, ownDays: nat)
    requires ValidJob(j) && ownDays in days && j.retentionDays == MinRetention(days)
    ensures (forall t, l, r :: Loses(t, j, l, r) ==> r < j.now - ownDays * DAY_MS) <==>
            j.drops == 0 || From(MonthAt(Cutoff(j))) <= j.now - ownDays * DAY_MS
    ensures ownDays == j.retentionDays ==> From(MonthAt(Cutoff(j))) <= j.now - ownDays * DAY_MS
    ensures Cutoff(j) >= j.now - ownDays * DAY_MS
  {
    if j.drops > 0 {
      var t, l, r := EdgeIsLost(j);
    }
    forall t, l, r | Loses(t, j, l, r) ensures r < From(MonthAt(Cutoff(j))) && j.drops > 0 {
      LostBeforeCutoffMonth(t, j, l, r);
    }
  }

  // ----- the job

  class CleanupJob {
    var audit: Table

    constructor ()
      ensures audit == map[]
    {
      audit := map[];
    }

    /** CREATE TABLE IF NOT EXISTS for one month; a thrown error is caught and logged. */
    method EnsureMonth(m: Month, fails: bool)
      modifies this
      ensures audit == CreateMonth(old(audit), m, fails)
    {
      ClosedFormAgrees(m);
      ClosedFormAgrees(m + 1);
      NameIsLabel(m);
      var start, end := MonthStart(m) * DAY_MS, MonthStart(m + 1) * DAY_MS;
      var name := Label(m);
      if name !in audit && !fails && !Overlaps(audit, start, end) {
        audit := audit[name := Partition(start, end, [])];
      }
    }

    /** month is the month of the current Date. */
    method CreateNextPartitions(month: Month, fails: seq<bool>)
      requires |fails| == MONTHS_AHEAD
      modifies this
      ensures audit == CreateAhead(old(audit), month, fails, 2)
    {
      var i := 1;
      while i <= MONTHS_AHEAD
        invariant 1 <= i <= MONTHS_AHEAD + 1
        invariant audit == CreateAhead(old(audit), month, fails, i - 1)
      {
        EnsureMonth(month + i, fails[i - 1]);
        i := i + 1;
      }
    }

    method DropMonth(m: Month)
      modifies this
      ensures audit == old(audit) - {Name(m)}
    {
      NameIsLabel(m);
      audit := audit - {Label(m)};
    }

    /** cutoffMonth is the month of the cutoff Date; the drop after the first `drops` ones throws. */
    method DropExpiredPartitions(cutoffMonth: Month, drops: nat) returns (dropped: nat)
      modifies this
      ensures dropped == if drops < 24 then drops else 24
      ensures audit == DropMonths(old(audit), cutoffMonth, dropped)
    {
      var i := 1;
      while i <= MONTHS_BACK
        invariant 1 <= i <= MONTHS_BACK + 1 && i - 1 <= drops
        invariant audit == DropMonths(old(audit), cutoffMonth, i - 1)
      {
        if i - 1 == drops {
          break;
        }
        DropMonth(cutoffMonth - i);
        i := i + 1;
      }
      dropped := i - 1;
    }

    /** The partition part of one cleanup run; the Date getters supply the two months. */
    method RunPartitionJobs(ghost j: Job, month: Month, cutoffMonth: Month, createFails: seq<bool>, drops: nat)
      requires ValidJob(j) && createFails == j.createFails && drops == j.drops
      requires month == MonthAt(j.now) && cutoffMonth == MonthAt(Cutoff(j))
      modifies this
      ensures audit == Cleaned(old(audit), j)
    {
      CreateNextPartitions(month, createFails);
      var dropped := DropExpiredPartitions(cutoffMonth, drops);
    }
  }
}
