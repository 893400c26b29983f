/**
 Session tokens: issue, refresh with rotation, logout and revoke-all
 (src/modules/auth/services/jwt.service.ts), password reset (auth.service.ts), erasure
 (gdpr/workers/erasure.worker.ts) and the access-token decision behind the Redis user cache
 (src/shared/auth-middleware/jwt.middleware.ts). Token hashes are injective, so a refresh token is
 its hash. Signatures are an abstract validity bit; of a token only sub, jti, iat and exp are kept.
 Redis is reachable. Times are milliseconds; iat and exp are seconds.
 */
module Sessions {
  import opened Wrappers

  type UserId = nat
  type OrgId = nat
  type FamilyId = nat
  type TokenHash = nat
  type Jti = nat
  type Time = int

  const REFRESH_TOKEN_TTL_MS := 30 * 24 * 60 * 60 * 1000
  const USER_CACHE_TTL_MS := 60_000
  const ACCESS_TOKEN_TTL_MS := 900_000

  datatype RefreshRow = RefreshRow(
    user: UserId, org: Option<OrgId>, family: FamilyId, lastJti: Jti, revoked: bool, expiresAt: Time)

  /** The columns the middleware reads; erasure sets status 'deleted' and deleted_at together. */
  datatype User = User(deleted: bool, passwordChangedAt: Option<Time>)

  datatype CacheEntry = CacheEntry(user: User, until: Time)

  datatype AccessToken = AccessToken(signed: bool, sub: UserId, jti: Jti, iat: Option<int>, exp: int)

  datatype State = State(
    now: Time,
    users: map<UserId, User>,
    rows: map<TokenHash, RefreshRow>,
    families: set<FamilyId>,          // family ids ever drawn
    redeemed: seq<TokenHash>,         // refresh tokens exchanged so far, in order
    blacklist: map<Jti, Time>,
    cache: map<UserId, CacheEntry>)

  datatype Outcome =
    | Issued(row: RefreshRow)
    | Done
    | TokenNotFound
    | TokenFamilyRevoked
    | TokenExpired
    | UserNotFound
    | HashConflict
    | Verdict(verdict: Decision)

  datatype Decision = Accepted | InvalidToken | TokenBlacklisted | NoSuchUser | UserDeleted | SessionInvalidated

  // ----- SQL updates

  function RevokeFamily(rows: map<TokenHash, RefreshRow>, f: FamilyId): map<TokenHash, RefreshRow> {
    map h | h in rows :: if rows[h].family == f then rows[h].(revoked := true) else rows[h]
  }

  function RevokeUser(rows: map<TokenHash, RefreshRow>, u: UserId): map<TokenHash, RefreshRow> {
    map h | h in rows :: if rows[h].user == u then rows[h].(revoked := true) else rows[h]
  }

  // ----- the access-token decision

  /** The tests of authenticate, given the user record it resolved. */
  function Decide(s: State, token: AccessToken, user: Option<User>): (d: Decision)
    ensures d == Accepted <==>
            && token.signed && s.now < token.exp * 1000
            && !(token.jti in s.blacklist && s.now < s.blacklist[token.jti])
            && user.Some? && !user.value.deleted
            && (token.iat.Some? && user.value.passwordChangedAt.Some? ==>
                  user.value.passwordChangedAt.value < (token.iat.value + 1) * 1000)
  {
    if !token.signed || token.exp <= s.now / 1000 then InvalidToken
    else if token.jti in s.blacklist && s.now < s.blacklist[token.jti] then TokenBlacklisted
    else if user.None? then NoSuchUser
    else if user.value.deleted then UserDeleted
    else if token.iat.Some? && user.value.passwordChangedAt.Some?
            && token.iat.value < user.value.passwordChangedAt.value / 1000 then SessionInvalidated
    else Accepted
  }

  function UserRow(s: State, u: UserId): Option<User> {
    if u in s.users then Some(s.users[u]) else None
  }

  predicate Cached(s: State, u: UserId) {
    u in s.cache && s.now < s.cache[u].until
  }

  function ResolveUser(s: State, u: UserId): Option<User> {
    if Cached(s, u) then Some(s.cache[u].user) else UserRow(s, u)
  }

  // ----- steps

  datatype Op =
    | Tick(to: Time)
    | Register(user: UserId)
    | Issue(user: UserId, org: Option<OrgId>, hash: TokenHash, family: FamilyId, jti: Jti)
    | Refresh(hash: TokenHash, newHash: TokenHash, jti: Jti)
    | Logout(hash: TokenHash, jti: Jti, ttlMs: nat)
    | ResetPassword(user: UserId)
    | Erase(user: UserId)
    | Authenticate(token: AccessToken)

  /** The clock is monotone; users and family ids are freshly drawn UUIDs. */
  predicate Enabled(s: State, op: Op) {
    match op
    case Tick(to) => s.now <= to
    case Register(u) => u !in s.users
    case Issue(u, _, _, f, _) => f !in s.families && u in s.users
    case _ => true
  }

  function StepIssue(s: State, u: UserId, org: Option<OrgId>, hash: TokenHash, f: FamilyId, jti: Jti): (State, Outcome) {
    var row := RefreshRow(u, org, f, jti, false, s.now + REFRESH_TOKEN_TTL_MS);
    if hash in s.rows then (s, HashConflict)
    else (s.(rows := s.rows[hash := row], families := s.families + {f}), Issued(row))
  }

  function StepRefresh(s: State, hash: TokenHash, newHash: TokenHash, jti: Jti): (State, Outcome) {
    if hash !in s.rows then (s, TokenNotFound) else
    var row := s.rows[hash];
    if row.revoked then
      (s.(rows := RevokeFamily(s.rows, row.family),
          blacklist := s.blacklist[row.lastJti := s.now + ACCESS_TOKEN_TTL_MS]), TokenFamilyRevoked)
    else if row.expiresAt < s.now then (s, TokenExpired)
    else if row.user !in s.users || s.users[row.user].deleted then (s, UserNotFound)
    else
      var spent := s.rows[hash := row.(revoked := true)];
      var next := RefreshRow(row.user, row.org, row.family, jti, false, s.now + REFRESH_TOKEN_TTL_MS);
      if newHash in s.rows then (s.(rows := spent), HashConflict)
      else (s.(rows := spent[newHash := next], redeemed := s.redeemed + [hash]), Issued(next))
  }

  function Step(s: State, op: Op): (State, Outcome) {
    match op
    case Tick(to) => (s.(now := to), Done)
    case Register(u) => (s.(users := s.users[u := User(false, None)]), Done)
    case Issue(u, org, hash, f, jti) => StepIssue(s, u, org, hash, f, jti)
    case Refresh(hash, newHash, jti) => StepRefresh(s, hash, newHash, jti)
    case Logout(hash, jti, ttl) =>
      var rows := if hash in s.rows then s.rows[hash := s.rows[hash].(revoked := true)] else s.rows;
      (s.(rows := rows, blacklist := s.blacklist[jti := s.now + ttl]), Done)
    case ResetPassword(u) =>
      var users := if u in s.users && !s.users[u].deleted
                   then s.users[u := s.users[u].(passwordChangedAt := Some(s.now))] else s.users;
      (s.(users := users, cache := s.cache - {u}, rows := RevokeUser(s.rows, u)), Done)
    case Erase(u) =>
      var users := if u in s.users then s.users[u := s.users[u].(deleted := true)] else s.users;
      (s.(users := users, rows := RevokeUser(s.rows, u), cache := s.cache - {u}), Done)
    case Authenticate(token) =>
      var d := Decide(s, token, ResolveUser(s, token.sub));
      var fills := d != InvalidToken && d != TokenBlacklisted && !Cached(s, token.sub) && token.sub in s.users;
      (if fills then s.(cache := s.cache[token.sub := CacheEntry(s.users[token.sub], s.now + USER_CACHE_TTL_MS)]) else s,
       Verdict(d))
  }

  ghost predicate ValidRun(s: State, ops: seq<Op>)
    decreases |ops|
  {
    ops == [] || (ValidRun(s, ops[..|ops| - 1]) && Enabled(Run(s, ops[..|ops| - 1]), ops[|ops| - 1]))
  }

  ghost function Run(s: State, ops: seq<Op>): State
    decreases |ops|
  {
    if ops == [] then s else Step(Run(s, ops[..|ops| - 1]), ops[|ops| - 1]).0
  }

  ghost predicate Initial(s: State) {
    s.rows == map[] && s.families == {} && s.redeemed == [] && s.cache == map[]
  }

  // ----- invariants

  /** One user and one org per family, at most one unrevoked row, and no row outside known families. */
  ghost predicate FamiliesOk(s: State) {
    && (forall h :: h in s.rows ==> s.rows[h].family in s.families)
    && (forall g, h :: g in s.rows && h in s.rows && s.rows[g].family == s.rows[h].family ==>
          && s.rows[g].user == s.rows[h].user && s.rows[g].org == s.rows[h].org
          && (!s.rows[g].revoked && !s.rows[h].revoked ==> g == h))
  }

  /** No token has been redeemed twice, and every redeemed token is revoked. */
  ghost predicate RedeemedOk(s: State) {
    && (forall i, j :: 0 <= i < j < |s.redeemed| ==> s.redeemed[i] != s.redeemed[j])
    && (forall h :: h in s.redeemed ==> h in s.rows && s.rows[h].revoked)
  }

  ghost predicate CacheOk(s: State) {
    forall u :: u in s.cache ==> u in s.users && s.cache[u].user == s.users[u]
  }

  ghost predicate Inv(s: State) {
    FamiliesOk(s) && RedeemedOk(s) && CacheOk(s)
  }

  /** The same rows, except that some may have become revoked. */
  ghost predicate OnlyRevokes(a: map<TokenHash, RefreshRow>, b: map<TokenHash, RefreshRow>) {
    a.Keys == b.Keys && forall h :: h in a ==> b[h] == a[h] || b[h] == a[h].(revoked := true)
  }

  /** What a step may do to the refresh-token table: revoke, start a family, or rotate inside one. */
  ghost predicate RowChange(s: State, t: State) {
    || (OnlyRevokes(s.rows, t.rows) && t.families == s.families && t.redeemed == s.redeemed)
    || (exists h, row :: StartsFamily(s, t, h, row))
    || (exists h, n, row :: Rotates(s, t, h, n, row))
  }

  ghost predicate StartsFamily(s: State, t: State, h: TokenHash, row: RefreshRow) {
    && h !in s.rows && row.family !in s.families
    && t.rows == s.rows[h := row] && t.families == s.families + {row.family} && t.redeemed == s.redeemed
  }

  ghost predicate Rotates(s: State, t: State, h: TokenHash, n: TokenHash, row: RefreshRow) {
    && h in s.rows && !s.rows[h].revoked && n !in s.rows
    && row.family == s.rows[h].family && row.user == s.rows[h].user && row.org == s.rows[h].org
    && t.rows == s.rows[h := s.rows[h].(revoked := true)][n := row]
    && t.families == s.families && t.redeemed == s.redeemed + [h]
  }

  lemma StepChangesRows(s: State, op: Op)
    requires Enabled(s, op)
    ensures RowChange(s, Step(s, op).0)
  {
    var t := Step(s, op).0;
    match op
    case Issue(u, org, hash, f, jti) =>
      if hash !in s.rows { assert StartsFamily(s, t, hash, t.rows[hash]); }
    case Refresh(hash, newHash, jti) =>
      if t.redeemed != s.redeemed { assert Rotates(s, t, hash, newHash, t.rows[newHash]); }
    case _ => assert OnlyRevokes(s.rows, t.rows);
  }

  lemma RevokingKeepsRows(s: State, t: State)
    requires FamiliesOk(s) && RedeemedOk(s) && OnlyRevokes(s.rows, t.rows)
    requires t.families == s.families && t.redeemed == s.redeemed
    ensures FamiliesOk(t) && RedeemedOk(t)
  {
  }

  lemma StartingKeepsRows(s: State, t: State, h: TokenHash, row: RefreshRow)
    requires FamiliesOk(s) && RedeemedOk(s) && StartsFamily(s, t, h, row)
    ensures FamiliesOk(t) && RedeemedOk(t)
  {
  }

  lemma RotatingKeepsRows(s: State, t: State, h: TokenHash, n: TokenHash, row: RefreshRow)
    requires FamiliesOk(s) && RedeemedOk(s) && Rotates(s, t, h, n, row)
    ensures FamiliesOk(t) && RedeemedOk(t)
  {
    assert h !in s.redeemed;
  }

  lemma ChangeKeepsRows(s: State, t: State)
    requires FamiliesOk(s) && RedeemedOk(s) && RowChange(s, t)
    ensures FamiliesOk(t) && RedeemedOk(t)
  {
    if h, row :| StartsFamily(s, t, h, row) {
      StartingKeepsRows(s, t, h, row);
    } else if h, n, row :| Rotates(s, t, h, n, row) {
      RotatingKeepsRows(s, t, h, n, row);
    } else {
      RevokingKeepsRows(s, t);
    }
  }

  lemma StepKeepsCache(s: State, op: Op)
    requires CacheOk(s) && Enabled(s, op)
    ensures CacheOk(Step(s, op).0)
  {
  }

  lemma StepKeepsInv(s: State, op: Op)
    requires Inv(s) && Enabled(s, op)
    ensures Inv(Step(s, op).0)
  {
    StepChangesRows(s, op);
    ChangeKeepsRows(s, Step(s, op).0);
    StepKeepsCache(s, op);
  }

  lemma {:induction false} RunKeepsInv(s: State, ops: seq<Op>)
    requires Inv(s) && ValidRun(s, ops)
    ensures Inv(Run(s, ops))
    decreases |ops|
  {
    if ops != [] {
      RunKeepsInv(s, ops[..|ops| - 1]);
      StepKeepsInv(Run(s, ops[..|ops| - 1]), ops[|ops| - 1]);
    }
  }

  // ----- refresh rotation

  /** In every run: one live token per family, one owner per family, each token exchanged at most once. */
  lemma RotationIsSound(s0: State, ops: seq<Op>)
    requires Initial(s0) && ValidRun(s0, ops)
    ensures FamiliesOk(Run(s0, ops)) && RedeemedOk(Run(s0, ops))
  {
    RunKeepsInv(s0, ops);
  }

  /** Rows never disappear, keep their family and owner, and revocation is permanent. */
  lemma {:induction false} RevocationIsPermanent(s: State, ops: seq<Op>, h: TokenHash)
    requires h in s.rows && ValidRun(s, ops)
    ensures var t := Run(s, ops);
      && h in t.rows
      && t.rows[h].family == s.rows[h].family && t.rows[h].user == s.rows[h].user
      && (s.rows[h].revoked ==> t.rows[h].revoked)
    decreases |ops|
  {
    if ops != [] {
      RevocationIsPermanent(s, ops[..|ops| - 1], h);
      StepChangesRows(Run(s, ops[..|ops| - 1]), ops[|ops| - 1]);
    }
  }

  /**
   A token is exchanged exactly when it is on record, live, unexpired, its user is not deleted and the new
   hash is unused; then it is spent and the new token is its family's only live one.
   */
  lemma RefreshRotates(s: State, h: TokenHash, n: TokenHash, j: Jti)
    requires Inv(s)
    ensures StepRefresh(s, h, n, j).1.Issued? <==>
            && h in s.rows && !s.rows[h].revoked && s.now <= s.rows[h].expiresAt
            && s.rows[h].user in s.users && !s.users[s.rows[h].user].deleted && n !in s.rows
    ensures StepRefresh(s, h, n, j).1.Issued? ==>
            var t := StepRefresh(s, h, n, j).0;
            && t.rows[h] == s.rows[h].(revoked := true)
            && n in t.rows && !t.rows[n].revoked && t.rows[n].lastJti == j
            && t.rows[n].user == s.rows[h].user && t.rows[n].org == s.rows[h].org
            && (forall g :: g in t.rows && t.rows[g].family == s.rows[h].family && !t.rows[g].revoked ==> g == n)
  {
  }

  ghost predicate FamilyDead(s: State, f: FamilyId) {
    f in s.families && forall h :: h in s.rows && s.rows[h].family == f ==> s.rows[h].revoked
  }

  lemma {:induction false} DeadFamilyStaysDead(s: State, ops: seq<Op>, f: FamilyId)
    requires FamilyDead(s, f) && ValidRun(s, ops)
    ensures FamilyDead(Run(s, ops), f)
    decreases |ops|
  {
    if ops != [] {
      DeadFamilyStaysDead(s, ops[..|ops| - 1], f);
      StepChangesRows(Run(s, ops[..|ops| - 1]), ops[|ops| - 1]);
    }
  }

  /** Once a revoked token has been presented, no token of its family is ever exchanged again. */
  lemma ReuseKillsFamily(s0: State, before: seq<Op>, h: TokenHash, n: TokenHash, j: Jti, after: seq<Op>, h': TokenHash, n': TokenHash, j': Jti)
    requires Initial(s0) && ValidRun(s0, before)
    requires var s := Run(s0, before); h in s.rows && s.rows[h].revoked
    requires var t := Step(Run(s0, before), Refresh(h, n, j)).0; ValidRun(t, after)
    ensures var s := Run(s0, before);
      var t := Step(s, Refresh(h, n, j)).0;
      var u := Run(t, after);
      h' in u.rows && u.rows[h'].family == s.rows[h].family ==> StepRefresh(u, h', n', j').1 == TokenFamilyRevoked
  {
    RunKeepsInv(s0, before);
    var s := Run(s0, before);
    var t := Step(s, Refresh(h, n, j)).0;
    assert FamilyDead(t, s.rows[h].family);
    DeadFamilyStaysDead(t, after, s.rows[h].family);
  }

  // ----- the user cache and password resets

  /** In every reachable state the cached decision is the decision of a direct database read. */
  lemma CacheIsTransparent(s0: State, ops: seq<Op>, token: AccessToken)
    requires Initial(s0) && ValidRun(s0, ops)
    ensures var s := Run(s0, ops);
      Step(s, Authenticate(token)).1 == Verdict(Decide(s, token, UserRow(s, token.sub)))
  {
    RunKeepsInv(s0, ops);
  }

  /** A password change at or after time r, or deletion, stays on record. */
  ghost predicate ChangedSince(s: State, u: UserId, r: Time) {
    u in s.users &&
    (s.users[u].deleted || (s.users[u].passwordChangedAt.Some? && s.users[u].passwordChangedAt.value >= r))
  }

  lemma ChangeStep(s: State, op: Op, u: UserId, r: Time)
    requires ChangedSince(s, u, r) && r <= s.now && Enabled(s, op)
    ensures ChangedSince(Step(s, op).0, u, r) && r <= Step(s, op).0.now
  {
  }

  lemma {:induction false} ChangeStays(s: State, ops: seq<Op>, u: UserId, r: Time)
    requires ChangedSince(s, u, r) && r <= s.now && ValidRun(s, ops)
    ensures ChangedSince(Run(s, ops), u, r) && r <= Run(s, ops).now
    decreases |ops|
  {
    if ops != [] {
      ChangeStays(s, ops[..|ops| - 1], u, r);
      ChangeStep(Run(s, ops[..|ops| - 1]), ops[|ops| - 1], u, r);
    }
  }

  /**
   After a password reset, no access token issued before the second of the reset is ever accepted
   again, and no refresh token the user held at the reset can ever be exchanged.
   */
  lemma ResetEndsOldSessions(s0: State, before: seq<Op>, u: UserId, after: seq<Op>, token: AccessToken, h: TokenHash, n: TokenHash, j: Jti)
    requires Initial(s0) && ValidRun(s0, before) && u in Run(s0, before).users
    requires ValidRun(Step(Run(s0, before), ResetPassword(u)).0, after)
    ensures var s := Run(s0, before);
      var t := Run(Step(s, ResetPassword(u)).0, after);
      && (token.sub == u && token.iat.Some? && token.iat.value < s.now / 1000 ==>
            Step(t, Authenticate(token)).1 != Verdict(Accepted))
      && (h in s.rows && s.rows[h].user == u ==> StepRefresh(t, h, n, j).1 == TokenFamilyRevoked)
  {
    var s := Run(s0, before);
    var r := Step(s, ResetPassword(u)).0;
    RunKeepsInv(s0, before);
    StepKeepsInv(s, ResetPassword(u));
    RunKeepsInv(r, after);
    ChangeStays(r, after, u, s.now);
    if h in s.rows {
      RevocationIsPermanent(r, after, h);
    }
  }

  // ----- logout, erasure and reuse

  /** The access token with this jti is turned away until then. */
  ghost predicate BarredUntil(s: State, jti: Jti, until: Time) {
    jti in s.blacklist && s.blacklist[jti] >= until
  }

  /**
   A later logout or reuse that names the same jti replaces its blacklist entry, which shortens the bar
   when the new entry ends too soon.
   */
  predicate Shortens(s: State, op: Op, jti: Jti, until: Time) {
    || (op.Logout? && op.jti == jti && s.now + op.ttlMs < until)
    || (op.Refresh? && op.hash in s.rows && s.rows[op.hash].revoked && s.rows[op.hash].lastJti == jti
        && s.now + 900_000 < until)
  }

  ghost predicate NeverShortened(s: State, ops: seq<Op>, jti: Jti, until: Time)
    decreases |ops|
  {
    ops == [] ||
    (NeverShortened(s, ops[..|ops| - 1], jti, until) && !Shortens(Run(s, ops[..|ops| - 1]), ops[|ops| - 1], jti, until))
  }

  ghost predicate BarredThroughout(s: State, ops: seq<Op>, jti: Jti, until: Time)
    decreases |ops|
  {
    BarredUntil(Run(s, ops), jti, until) && (ops == [] || BarredThroughout(s, ops[..|ops| - 1], jti, until))
  }

  /** Over every run a bar holds throughout exactly when no later entry for the same jti shortens it. */
  lemma {:induction false} BarHoldsIff(s: State, ops: seq<Op>, jti: Jti, until: Time)
    requires BarredUntil(s, jti, until) && ValidRun(s, ops)
    ensures BarredThroughout(s, ops, jti, until) <==> NeverShortened(s, ops, jti, until)
    decreases |ops|
  {
    if ops != [] {
      BarHoldsIff(s, ops[..|ops| - 1], jti, until);
    }
  }

  /** The other refresh rows and blacklist entries are as before, and nothing else has changed. */
  ghost predicate OnlyTouches(s: State, t: State, h: TokenHash, jti: Jti) {
    && (forall g :: g != h ==> (g in t.rows <==> g in s.rows) && (g in s.rows ==> t.rows[g] == s.rows[g]))
    && (forall k :: k != jti ==> (k in t.blacklist <==> k in s.blacklist) && (k in s.blacklist ==> t.blacklist[k] == s.blacklist[k]))
    && t.users == s.users && t.cache == s.cache && t.families == s.families && t.redeemed == s.redeemed && t.now == s.now
  }

  lemma BarredIsRefused(s: State, token: AccessToken, until: Time)
    requires BarredUntil(s, token.jti, until) && s.now < until
    ensures Step(s, Authenticate(token)).1 != Verdict(Accepted)
  {
  }

  lemma RevokedIsRefused(s: State, h: TokenHash, n: TokenHash, j: Jti)
    requires h in s.rows && s.rows[h].revoked
    ensures StepRefresh(s, h, n, j).1 == TokenFamilyRevoked
  {
  }

  /** A logout revokes its refresh token, bars its access token, and does nothing else. */
  lemma LogoutTouches(s: State, h: TokenHash, jti: Jti, ttl: nat)
    ensures var t := Step(s, Logout(h, jti, ttl)).0;
      && OnlyTouches(s, t, h, jti)
      && (h in t.rows <==> h in s.rows)
      && (h in s.rows ==> t.rows[h] == s.rows[h].(revoked := true))
      && jti in t.blacklist && t.blacklist[jti] == s.now + ttl
  {
  }

  lemma RevokedStaysRefused(t: State, after: seq<Op>, h: TokenHash, n: TokenHash, j: Jti)
    requires h in t.rows && t.rows[h].revoked && ValidRun(t, after)
    ensures StepRefresh(Run(t, after), h, n, j).1 == TokenFamilyRevoked
  {
    RevocationIsPermanent(t, after, h);
    RevokedIsRefused(Run(t, after), h, n, j);
  }

  lemma BarredStaysRefused(t: State, after: seq<Op>, token: AccessToken, until: Time)
    requires BarredUntil(t, token.jti, until) && ValidRun(t, after) && NeverShortened(t, after, token.jti, until)
    requires Run(t, after).now < until
    ensures Step(Run(t, after), Authenticate(token)).1 != Verdict(Accepted)
  {
    BarHoldsIff(t, after, token.jti, until);
    BarredIsRefused(Run(t, after), token, until);
  }

  /** After a logout with a refresh token on record, every later refresh with it fails, over every continuation. */
  lemma LogoutEndsRefresh(s: State, h: TokenHash, jti: Jti, ttl: nat, t: State, after: seq<Op>, n: TokenHash, j: Jti)
    requires h in s.rows && t == Step(s, Logout(h, jti, ttl)).0 && ValidRun(t, after)
    ensures StepRefresh(Run(t, after), h, n, j).1 == TokenFamilyRevoked
  {
    LogoutTouches(s, h, jti, ttl);
    RevokedStaysRefused(t, after, h, n, j);
  }

  /** For the ttl given to a logout its access token is not accepted, unless a later entry for it ends sooner. */
  lemma LogoutEndsAccess(s: State, h: TokenHash, ttl: nat, token: AccessToken, t: State, after: seq<Op>)
    requires t == Step(s, Logout(h, token.jti, ttl)).0 && ValidRun(t, after) && Run(t, after).now < s.now + ttl
    requires NeverShortened(t, after, token.jti, s.now + ttl)
    ensures Step(Run(t, after), Authenticate(token)).1 != Verdict(Accepted)
  {
    LogoutTouches(s, h, token.jti, ttl);
    BarredStaysRefused(t, after, token, s.now + ttl);
  }

  /** Reuse of a spent token revokes just its family and bars its last access token for fifteen minutes. */
  lemma ReuseTouches(s: State, h: TokenHash, n: TokenHash, j: Jti)
    requires h in s.rows && s.rows[h].revoked
    ensures var t := Step(s, Refresh(h, n, j)).0;
      && t.rows.Keys == s.rows.Keys
      && (forall g :: g in s.rows && s.rows[g].family != s.rows[h].family ==> t.rows[g] == s.rows[g])
      && (forall g :: g in s.rows && s.rows[g].family == s.rows[h].family ==> t.rows[g] == s.rows[g].(revoked := true))
      && t == s.(rows := t.rows, blacklist := s.blacklist[s.rows[h].lastJti := s.now + 900_000])
  {
  }

  lemma ReuseBarsAccessToken(s: State, h: TokenHash, n: TokenHash, j: Jti, t: State, after: seq<Op>, token: AccessToken)
    requires h in s.rows && s.rows[h].revoked && t == Step(s, Refresh(h, n, j)).0 && ValidRun(t, after)
    requires token.jti == s.rows[h].lastJti && Run(t, after).now < s.now + 900_000
    requires NeverShortened(t, after, token.jti, s.now + 900_000)
    ensures Step(Run(t, after), Authenticate(token)).1 != Verdict(Accepted)
  {
    assert BarredUntil(t, token.jti, s.now + 900_000) by { ReuseTouches(s, h, n, j); }
    BarredStaysRefused(t, after, token, s.now + 900_000);
  }

  lemma {:induction false} DeletionIsPermanent(s: State, ops: seq<Op>, u: UserId)
    requires u in s.users && s.users[u].deleted && ValidRun(s, ops)
    ensures u in Run(s, ops).users && Run(s, ops).users[u].deleted
    decreases |ops|
  {
    if ops != [] {
      DeletionIsPermanent(s, ops[..|ops| - 1], u);
    }
  }

  /** No refresh token of a deleted user is exchanged. */
  lemma DeletedUserCannotRefresh(s: State, h: TokenHash, n: TokenHash, j: Jti)
    requires h in s.rows && s.rows[h].user in s.users && s.users[s.rows[h].user].deleted
    ensures !StepRefresh(s, h, n, j).1.Issued?
  {
  }

  /**
   After an erasure no access token of the user is ever accepted and no refresh token of theirs, old or new,
   is ever exchanged; nobody else's rows are touched.
   */
  lemma ErasureEndsEverything(s0: State, before: seq<Op>, u: UserId, after: seq<Op>, token: AccessToken, h: TokenHash, n: TokenHash, j: Jti)
    requires Initial(s0) && ValidRun(s0, before) && u in Run(s0, before).users
    requires ValidRun(Step(Run(s0, before), Erase(u)).0, after)
    ensures var s := Run(s0, before);
      var r := Step(s, Erase(u)).0;
      var t := Run(r, after);
      && (token.sub == u ==> Step(t, Authenticate(token)).1 != Verdict(Accepted))
      && (h in t.rows && t.rows[h].user == u ==> !StepRefresh(t, h, n, j).1.Issued?)
      && (forall g :: g in s.rows && s.rows[g].user != u ==> g in r.rows && r.rows[g] == s.rows[g])
      && (forall v :: v in s.users && v != u ==> v in r.users && r.users[v] == s.users[v])
  {
    var s := Run(s0, before);
    var r := Step(s, Erase(u)).0;
    RunKeepsInv(s0, before);
    StepKeepsInv(s, Erase(u));
    RunKeepsInv(r, after);
    DeletionIsPermanent(r, after, u);
    if h in Run(r, after).rows && Run(r, after).rows[h].user == u {
      DeletedUserCannotRefresh(Run(r, after), h, n, j);
    }
  }

  /** A fresh login can be refreshed for thirty days, if it is not revoked and the user not deleted meanwhile. */
  lemma IssuedTokenRefreshes(s: State, u: UserId, org: Option<OrgId>, h: TokenHash, f: FamilyId, j: Jti, to: Time, n: TokenHash, k: Jti)
    requires Enabled(s, Issue(u, org, h, f, j)) && h !in s.rows && !s.users[u].deleted
    requires s.now <= to && n !in s.rows && n != h
    ensures var t := Step(Step(s, Issue(u, org, h, f, j)).0, Tick(to)).0;
      && t.rows == s.rows[h := RefreshRow(u, org, f, j, false, s.now + 2_592_000_000)]
      && StepRefresh(t, h, n, k).1 == (if to <= s.now + 2_592_000_000
                                       then Issued(RefreshRow(u, org, f, k, false, to + 2_592_000_000)) else TokenExpired)
  {
  }

  /** Whatever the middleware answers is true of the token, the blacklist and the user. */
  lemma VerdictIsTrue(s: State, token: AccessToken, user: Option<User>)
    ensures var d := Decide(s, token, user);
      var invalid := !token.signed || token.exp * 1000 <= s.now;
      var barred := token.jti in s.blacklist && s.now < s.blacklist[token.jti];
      && (d == InvalidToken <==> invalid)
      && (d == TokenBlacklisted <==> !invalid && barred)
      && (d == NoSuchUser <==> !invalid && !barred && user.None?)
      && (d == UserDeleted <==> !invalid && !barred && user.Some? && user.value.deleted)
      && (d == SessionInvalidated ==> token.iat.Some? && user.Some? && user.value.passwordChangedAt.Some?
                                      && (token.iat.value + 1) * 1000 <= user.value.passwordChangedAt.value)
  {
  }

  /**
   A request that gets as far as an uncached user caches the row for sixty seconds; nothing else changes,
   and for that time the users table is not consulted.
   */
  lemma LookupFillsCache(s: State, token: AccessToken)
    ensures var t := Step(s, Authenticate(token)).0;
      var reached := token.signed && s.now < token.exp * 1000 && !(token.jti in s.blacklist && s.now < s.blacklist[token.jti]);
      && t == s.(cache := t.cache)
      && (reached && token.sub in s.users && !Cached(s, token.sub) ==>
            t.cache == s.cache[token.sub := CacheEntry(s.users[token.sub], s.now + 60_000)])
      && (!reached || token.sub !in s.users || Cached(s, token.sub) ==> t.cache == s.cache)
  {
  }

  /** A refusal other than reuse changes nothing; a clash of new hashes costs the old token only. */
  lemma RefusedRefreshKeepsState(s: State, h: TokenHash, n: TokenHash, j: Jti)
    ensures var (t, o) := StepRefresh(s, h, n, j);
      && (o == TokenNotFound || o == TokenExpired || o == UserNotFound ==> t == s)
      && (o == TokenNotFound <==> h !in s.rows)
      && (o == TokenFamilyRevoked <==> h in s.rows && s.rows[h].revoked)
      && (o == TokenExpired <==> h in s.rows && !s.rows[h].revoked && s.rows[h].expiresAt < s.now)
      && (o == HashConflict ==> h in s.rows && n in s.rows && t == s.(rows := s.rows[h := s.rows[h].(revoked := true)]))
  {
  }

  // ----- the services

  class SessionService {
    var now: Time
    var users: map<UserId, User>
    var rows: map<TokenHash, RefreshRow>
    var families: set<FamilyId>
    var redeemed: seq<TokenHash>
    var blacklist: map<Jti, Time>
    var cache: map<UserId, CacheEntry>

    ghost function Snapshot(): State
      reads this
    {
      State(now, users, rows, families, redeemed, blacklist, cache)
    }

    constructor ()
      ensures Initial(Snapshot()) && Inv(Snapshot())
    {
      now, users, rows, families, redeemed, blacklist, cache := 0, map[], map[], {}, [], map[], map[];
    }

    method IssueTokenPair(user: UserId, org: Option<OrgId>, hash: TokenHash, family: FamilyId, jti: Jti) returns (r: Outcome)
      modifies this
      ensures (Snapshot(), r) == Step(old(Snapshot()), Issue(user, org, hash, family, jti))
      ensures r.Issued? <==> hash !in old(rows)
      ensures r.Issued? ==> rows == old(rows)[hash := RefreshRow(user, org, family, jti, false, now + REFRESH_TOKEN_TTL_MS)]
      ensures !r.Issued? ==> rows == old(rows)
    {
      if hash in rows {
        return HashConflict;
      }
      families := families + {family};
      rows := rows[hash := RefreshRow(user, org, family, jti, false, now + REFRESH_TOKEN_TTL_MS)];
      return Issued(rows[hash]);
    }

    method RefreshTokenPair(hash: TokenHash, newHash: TokenHash, jti: Jti) returns (r: Outcome)
      modifies this
      ensures (Snapshot(), r) == Step(old(Snapshot()), Refresh(hash, newHash, jti))
      ensures r == TokenNotFound <==> hash !in old(rows)
      ensures r == TokenFamilyRevoked <==> hash in old(rows) && old(rows)[hash].revoked
      ensures r == TokenFamilyRevoked ==> forall g :: g in rows && rows[g].family == rows[hash].family ==> rows[g].revoked
      ensures r == TokenFamilyRevoked ==> blacklist == old(blacklist)[old(rows)[hash].lastJti := now + ACCESS_TOKEN_TTL_MS]
      ensures r.Issued? ==> rows == old(rows)[hash := old(rows)[hash].(revoked := true)][newHash := r.row]
    {
      if hash !in rows {
        return TokenNotFound;
      }
      var row := rows[hash];
      if row.revoked {
        rows := RevokeFamily(rows, row.family);
        blacklist := blacklist[row.lastJti := now + ACCESS_TOKEN_TTL_MS];
        return TokenFamilyRevoked;
      }
      if row.expiresAt < now {
        return TokenExpired;
      }
      if row.user !in users || users[row.user].deleted {
        return UserNotFound;
      }
      rows := rows[hash := row.(revoked := true)];
      if newHash in rows {
        return HashConflict;
      }
      rows := rows[newHash := RefreshRow(row.user, row.org, row.family, jti, false, now + REFRESH_TOKEN_TTL_MS)];
      redeemed := redeemed + [hash];
      return Issued(rows[newHash]);
    }

    method RevokeTokens(hash: TokenHash, jti: Jti, ttlMs: nat)
      modifies this
      ensures Snapshot() == Step(old(Snapshot()), Logout(hash, jti, ttlMs)).0
      ensures hash in old(rows) ==> rows == old(rows)[hash := old(rows)[hash].(revoked := true)]
      ensures hash !in old(rows) ==> rows == old(rows)
      ensures blacklist == old(blacklist)[jti := now + ttlMs]
    {
      if hash in rows {
        rows := rows[hash := rows[hash].(revoked := true)];
      }
      blacklist := blacklist[jti := now + ttlMs];
    }

    /** With the reset key already resolved to a user id. */
    method ConfirmPasswordReset(user: UserId)
      modifies this
      ensures Snapshot() == Step(old(Snapshot()), ResetPassword(user)).0
      ensures user in old(users) && !old(users)[user].deleted ==>
                users == old(users)[user := User(false, Some(now))]
      ensures user !in cache && rows.Keys == old(rows).Keys
      ensures forall h :: h in rows ==> rows[h] == if rows[h].user == user then old(rows)[h].(revoked := true) else old(rows)[h]
    {
      if user in users && !users[user].deleted {
        users := users[user := users[user].(passwordChangedAt := Some(now))];
      }
      cache := cache - {user};
      rows := RevokeUser(rows, user);
    }

    method EraseUser(user: UserId)
      modifies this
      ensures Snapshot() == Step(old(Snapshot()), Erase(user)).0
      ensures user in old(users) ==> users == old(users)[user := old(users)[user].(deleted := true)]
      ensures user !in cache && rows.Keys == old(rows).Keys
      ensures forall h :: h in rows ==> rows[h] == if rows[h].user == user then old(rows)[h].(revoked := true) else old(rows)[h]
    {
      if user in users {
        users := users[user := users[user].(deleted := true)];
      }
      rows := RevokeUser(rows, user);
      cache := cache - {user};
    }

    method AuthenticateRequest(token: AccessToken) returns (d: Decision)
      modifies this`cache
      ensures (Snapshot(), Verdict(d)) == Step(old(Snapshot()), Authenticate(token))
    {
      if !token.signed || token.exp <= now / 1000 {
        return InvalidToken;
      }
      if token.jti in blacklist && now < blacklist[token.jti] {
        return TokenBlacklisted;
      }
      var user;
      if token.sub in cache && now < cache[token.sub].until {
        user := cache[token.sub].user;
      } else if token.sub !in users {
        return NoSuchUser;
      } else {
        user := users[token.sub];
        cache := cache[token.sub := CacheEntry(user, now + USER_CACHE_TTL_MS)];
      }
      if user.deleted {
        return UserDeleted;
      }
      if token.iat.Some? && user.passwordChangedAt.Some? {
        var changed := user.passwordChangedAt.value / 1000;
        if token.iat.value < changed {
          return SessionInvalidated;
        }
      }
      return Accepted;
    }
  }
}
