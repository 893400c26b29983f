/**
 One-time use of SAML assertions (src/modules/auth/services/saml.service.ts). The replay check and the
 insert are separate interleaved steps of concurrent requests, and the hourly cleanup may run between
 any two of them. saml_used_assertions has primary key (assertion_id, org_id). Times are milliseconds.
 */
module SamlReplay {
  import opened Wrappers

  type AssertionId = nat
  type OrgId = nat
  type RequestId = nat
  type Time = int

  const DAY_MS := 24 * 60 * 60 * 1000
  const DEFAULT_LIFETIME_MS := 60 * 60 * 1000

  datatype Phase = Validated | Checked | Accepted | Replayed

  /** A callback in progress: when its response validated and the expiry it will record. */
  datatype Request = Request(assertion: AssertionId, org: OrgId, validatedAt: Time, expiry: Time, phase: Phase)

  /** issued gives each assertion its notOnOrAfter, if the identity provider set one. */
  datatype State = State(
    now: Time,
    issued: map<AssertionId, Option<Time>>,
    used: map<(AssertionId, OrgId), Time>,
    requests: map<RequestId, Request>,
    accepted: seq<(AssertionId, OrgId)>)

  datatype Op =
    | Tick(to: Time)
    | Validate(req: RequestId, org: OrgId, assertion: AssertionId)
    | Check(req: RequestId)
    | Insert(req: RequestId)
    | Cleanup

  /**
   Validation rejects an assertion at or after its notOnOrAfter; a request inserts less than 24 hours
   after it validated.
   */
  predicate Enabled(s: State, op: Op) {
    match op
    case Tick(to) => s.now <= to
    case Validate(r, _, a) =>
      r !in s.requests && a in s.issued && (s.issued[a].Some? ==> s.now < s.issued[a].value)
    case Check(r) => r in s.requests && s.requests[r].phase == Validated
    case Insert(r) =>
      r in s.requests && s.requests[r].phase == Checked && s.now < s.requests[r].validatedAt + DAY_MS
    case Cleanup => true
  }

  function Key(r: Request): (AssertionId, OrgId) {
    (r.assertion, r.org)
  }

  function Apply(s: State, op: Op): State
    requires Enabled(s, op)
  {
    match op
    case Tick(to) => s.(now := to)
    case Validate(r, org, a) =>
      var expiry := if s.issued[a].Some? then s.issued[a].value else s.now + DEFAULT_LIFETIME_MS;
      s.(requests := s.requests[r := Request(a, org, s.now, expiry, Validated)])
    case Check(r) =>
      var x := s.requests[r];
      s.(requests := s.requests[r := x.(phase := if Key(x) in s.used then Replayed else Checked)])
    case Insert(r) =>
      var x := s.requests[r];
      if Key(x) in s.used then s.(requests := s.requests[r := x.(phase := Replayed)])  // primary key violation
      else s.(used := s.used[Key(x) := x.expiry], requests := s.requests[r := x.(phase := Accepted)],
              accepted := s.accepted + [Key(x)])
    case Cleanup => s.(used := map k | k in s.used && s.used[k] >= s.now - DAY_MS :: s.used[k])
  }

  ghost predicate ValidRun(s: State, ops: seq<Op>)
    decreases |ops|, 0
  {
    ops == [] || (ValidRun(s, ops[..|ops| - 1]) && Enabled(Run(s, ops[..|ops| - 1]), ops[|ops| - 1]))
  }

  ghost function Run(s: State, ops: seq<Op>): State
    requires ValidRun(s, ops)
    decreases |ops|, 1
  {
    if ops == [] then s else Apply(Run(s, ops[..|ops| - 1]), ops[|ops| - 1])
  }

  ghost predicate Initial(s: State) {
    s.used == map[] && s.requests == map[] && s.accepted == []
  }

  function Acceptances(log: seq<(AssertionId, OrgId)>, k: (AssertionId, OrgId)): nat {
    if log == [] then 0
    else Acceptances(log[..|log| - 1], k) + (if log[|log| - 1] == k then 1 else 0)
  }

  /** For an assertion that carries notOnOrAfter: an accepted key is on record until a day past it. */
  ghost predicate Inv(s: State, a: AssertionId, org: OrgId) {
    && a in s.issued && s.issued[a].Some?
    && var noa := s.issued[a].value;
    && Acceptances(s.accepted, (a, org)) <= 1
    && (Acceptances(s.accepted, (a, org)) > 0 ==> (a, org) in s.used || noa + DAY_MS < s.now)
    && ((a, org) in s.used ==> s.used[(a, org)] == noa)
    && (forall r :: r in s.requests ==> InTime(s.requests[r], a, noa))
  }

  /** A request for the assertion validated before notOnOrAfter and will record it. */
  predicate InTime(r: Request, a: AssertionId, noa: Time) {
    r.assertion == a ==> r.validatedAt < noa && r.expiry == noa
  }

  lemma AcceptancesSnoc(log: seq<(AssertionId, OrgId)>, x: (AssertionId, OrgId), k: (AssertionId, OrgId))
    ensures Acceptances(log + [x], k) == Acceptances(log, k) + (if x == k then 1 else 0)
  {
    assert (log + [x])[..|log|] == log;
  }

  /** A second insert within a day of a validation before notOnOrAfter still meets the first record. */
  lemma InsertKeepsInv(s: State, r: RequestId, a: AssertionId, org: OrgId)
    requires Inv(s, a, org) && Enabled(s, Insert(r))
    ensures Inv(Apply(s, Insert(r)), a, org)
  {
    var x, noa, t := s.requests[r], s.issued[a].value, Apply(s, Insert(r));
    AcceptancesSnoc(s.accepted, Key(x), (a, org));
    assert InTime(x, a, noa);
    forall q | q in t.requests ensures InTime(t.requests[q], a, noa) {
      assert q in s.requests && InTime(s.requests[q], a, noa);
    }
    if Key(x) == (a, org) && Key(x) !in s.used {
      // the first record can only have been purged more than a day after notOnOrAfter
      assert s.now < noa + DAY_MS;
      assert Acceptances(s.accepted, (a, org)) == 0;
    }
  }

  lemma CleanupKeepsInv(s: State, a: AssertionId, org: OrgId)
    requires Inv(s, a, org)
    ensures Inv(Apply(s, Cleanup), a, org)
  {
  }

  lemma StepKeepsInv(s: State, op: Op, a: AssertionId, org: OrgId)
    requires Inv(s, a, org) && Enabled(s, op)
    ensures Inv(Apply(s, op), a, org)
  {
    match op
    case Insert(r) => InsertKeepsInv(s, r, a, org);
    case Cleanup => CleanupKeepsInv(s, a, org);
    case Tick(_) =>
    case Validate(_, _, _) =>
    case Check(_) =>
  }

  lemma {:induction false} RunKeepsInv(s: State, ops: seq<Op>, a: AssertionId, org: OrgId)
    requires Inv(s, a, org) && ValidRun(s, ops)
    ensures Inv(Run(s, ops), a, org)
    decreases |ops|
  {
    if ops != [] {
      RunKeepsInv(s, ops[..|ops| - 1], a, org);
      StepKeepsInv(Run(s, ops[..|ops| - 1]), ops[|ops| - 1], a, org);
    }
  }

  /** Over every run and every interleaving, an assertion with notOnOrAfter is accepted at most once per org. */
  lemma AcceptedAtMostOnce(s0: State, ops: seq<Op>, a: AssertionId, org: OrgId)
    requires Initial(s0) && ValidRun(s0, ops) && a in s0.issued && s0.issued[a].Some?
    ensures Acceptances(Run(s0, ops).accepted, (a, org)) <= 1
  {
    RunKeepsInv(s0, ops, a, org);
  }

  lemma Extend(s: State, ops: seq<Op>, op: Op)
    requires ValidRun(s, ops) && Enabled(Run(s, ops), op)
    ensures ValidRun(s, ops + [op]) && Run(s, ops + [op]) == Apply(Run(s, ops), op)
  {
    assert (ops + [op])[..|ops|] == ops;
  }

  /** A request whose key is on record is refused, at the check or at the insert, and leaves no trace. */
  lemma ReplayIsRefused(s: State, op: Op)
    requires Enabled(s, op) && (op.Check? || op.Insert?)
    ensures var x, t := s.requests[op.req], Apply(s, op);
      && t.requests.Keys == s.requests.Keys
      && (Key(x) in s.used ==>
            t.requests[op.req].phase == Replayed && t.used == s.used && t.accepted == s.accepted)
      && (Key(x) !in s.used ==>
            t.requests[op.req].phase == if op.Check? then Checked else Accepted)
      && (forall r :: r in s.requests && r != op.req ==> t.requests[r] == s.requests[r])
  {
  }

  /** Cleanup forgets exactly the records that expired more than a day ago. */
  lemma CleanupForgetsIff(s: State, k: (AssertionId, OrgId))
    requires k in s.used
    ensures var t := Apply(s, Cleanup);
      && (k !in t.used <==> s.used[k] < s.now - 86_400_000)
      && (k in t.used ==> t.used[k] == s.used[k])
      && t.accepted == s.accepted && t.requests == s.requests
  {
  }

  /** A valid assertion whose key is not on record goes all the way through and is accepted. */
  lemma FreshAssertionAccepted(s: State, ops: seq<Op>, r: RequestId, a: AssertionId, org: OrgId) returns (more: seq<Op>)
    requires ValidRun(s, ops) && Enabled(Run(s, ops), Validate(r, org, a)) && (a, org) !in Run(s, ops).used
    ensures more == ops + [Validate(r, org, a), Check(r), Insert(r)] && ValidRun(s, more)
    ensures var t, u := Run(s, ops), Run(s, more);
      && u.now == t.now && u.issued == t.issued
      && u.accepted == t.accepted + [(a, org)]
      && u.used == t.used[(a, org) := if t.issued[a].Some? then t.issued[a].value else t.now + 3_600_000]
      && u.requests.Keys == t.requests.Keys + {r}
  {
    var t := Run(s, ops);
    Extend(s, ops, Validate(r, org, a));
    var one := ops + [Validate(r, org, a)];
    Extend(s, one, Check(r));
    var two := one + [Check(r)];
    assert Run(s, two).requests[r] == Request(a, org, t.now, if t.issued[a].Some? then t.issued[a].value else t.now + DEFAULT_LIFETIME_MS, Checked);
    Extend(s, two, Insert(r));
    more := ops + [Validate(r, org, a), Check(r), Insert(r)];
    assert more == two + [Insert(r)];
  }

  /** Without notOnOrAfter the record expires after an hour and is purged a day later: a second use succeeds. */
  lemma ReplaySucceedsWithoutExpiry(s0: State, a: AssertionId, org: OrgId) returns (ops: seq<Op>)
    requires Initial(s0) && a in s0.issued && s0.issued[a].None?
    ensures ValidRun(s0, ops) && Acceptances(Run(s0, ops).accepted, (a, org)) == 2
  {
    ops := FreshAssertionAccepted(s0, [], 0, a, org);
    var later := s0.now + DEFAULT_LIFETIME_MS + DAY_MS + 1;
    Extend(s0, ops, Tick(later));
    Extend(s0, ops + [Tick(later)], Cleanup);
    ops := ops + [Tick(later)] + [Cleanup];
    ops := FreshAssertionAccepted(s0, ops, 1, a, org);
    var log := Run(s0, ops).accepted;
    assert log == [(a, org), (a, org)];
    var first := log[..1];
    assert |first[..0]| == 0 && Acceptances(first, (a, org)) == 1;
  }

  /** Exactly the assertions without notOnOrAfter can be accepted twice. */
  lemma ReplayableIffNoExpiry(s0: State, a: AssertionId, org: OrgId)
    requires Initial(s0) && a in s0.issued
    ensures s0.issued[a].None? <==>
            exists ops :: ValidRun(s0, ops) && Acceptances(Run(s0, ops).accepted, (a, org)) >= 2
  {
    if s0.issued[a].None? {
      var ops := ReplaySucceedsWithoutExpiry(s0, a, org);
    } else {
      forall ops | ValidRun(s0, ops) ensures Acceptances(Run(s0, ops).accepted, (a, org)) <= 1 {
        AcceptedAtMostOnce(s0, ops, a, org);
      }
    }
  }
}
