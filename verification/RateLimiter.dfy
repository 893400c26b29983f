/**
 Sliding-window rate limiting: the HTTP limiter with its in-process fallback
 (src/shared/redis/rate-limiter.ts) and the socket limiter (src/shared/realtime/rate-limiter.ts).
 A Redis sorted set is the sequence of its scores in insertion order; members are unique. A key with no
 entry does not exist. Times are milliseconds and each trace has a monotone clock.
 */
module RateLimiter {
  import opened Wrappers

  type Time = int

  // ----- filtering by time

  /** The entries strictly after the cut, in order. */
  function Keep(ts: seq<Time>, cut: Time): seq<Time> {
    if ts == [] then []
    else
      var k := Keep(ts[..|ts| - 1], cut);
      if ts[|ts| - 1] > cut then k + [ts[|ts| - 1]] else k
  }

  lemma KeepSnoc(ts: seq<Time>, x: Time, cut: Time)
    ensures Keep(ts + [x], cut) == if x > cut then Keep(ts, cut) + [x] else Keep(ts, cut)
  {
    assert (ts + [x])[..|ts|] == ts;
  }

  lemma {:induction false} KeepKeep(ts: seq<Time>, a: Time, c: Time)
    requires a <= c
    ensures Keep(Keep(ts, a), c) == Keep(ts, c)
    ensures |Keep(ts, c)| <= |Keep(ts, a)|
    decreases |ts|
  {
    if ts != [] {
      var init, last := ts[..|ts| - 1], ts[|ts| - 1];
      KeepKeep(init, a, c);
      KeepSnoc(Keep(init, a), last, c);
    }
  }

  lemma {:induction false} KeepNone(ts: seq<Time>, c: Time)
    requires forall i :: 0 <= i < |ts| ==> ts[i] <= c
    ensures Keep(ts, c) == []
    decreases |ts|
  {
    if ts != [] {
      KeepNone(ts[..|ts| - 1], c);
    }
  }

  // ----- Redis commands

  datatype ZSet = ZSet(entries: seq<Time>, expireAt: Option<Time>)

  const EMPTY := ZSet([], None)

  function Live(z: ZSet, now: Time): ZSet {
    if z.expireAt.Some? && z.expireAt.value <= now then EMPTY else z
  }

  function ZRemRangeByScore(z: ZSet, cut: Time): ZSet {
    var k := Keep(z.entries, cut);
    if k == [] then EMPTY else ZSet(k, z.expireAt)
  }

  function ZAdd(z: ZSet, now: Time): ZSet {
    z.(entries := z.entries + [now])
  }

  function PExpire(z: ZSet, at: Time): ZSet {
    z.(expireAt := Some(at))
  }

  // ----- the three decisions

  /** checkLimit through Redis: count, then add. */
  function CountThenAdd(z: ZSet, now: Time, limit: int, windowMs: nat): (ZSet, bool) {
    var pruned := ZRemRangeByScore(Live(z, now), now - windowMs);
    (PExpire(ZAdd(pruned, now), now + windowMs), |pruned.entries| < limit)
  }

  /** checkRateLimit: add, then count; the key lives a second longer than the window. */
  function AddThenCount(z: ZSet, now: Time, limit: int, windowMs: nat): (ZSet, bool) {
    var added := ZAdd(ZRemRangeByScore(Live(z, now), now - windowMs), now);
    (PExpire(added, now + windowMs + 1000), |added.entries| <= limit)
  }

  /** checkLimitFallback: only admitted requests are recorded. */
  function FallbackCheck(store: seq<Time>, now: Time, limit: int, windowMs: nat): (seq<Time>, bool) {
    var recent := Keep(store, now - windowMs);
    if |recent| < limit then (recent + [now], true) else (store, false)
  }

  /** Both Redis limiters record every request, admitted or not; the keys outlive the window by nothing and by a second. */
  lemma EveryRequestIsRecorded(z: ZSet, now: Time, limit: int, windowMs: nat)
    ensures var k := Keep(Live(z, now).entries, now - windowMs);
      && CountThenAdd(z, now, limit, windowMs).0 == ZSet(k + [now], Some(now + windowMs))
      && AddThenCount(z, now, limit, windowMs).0 == ZSet(k + [now], Some(now + windowMs + 1000))
  {
  }

  predicate Monotone(trace: seq<Time>) {
    forall i, j :: 0 <= i < j < |trace| ==> trace[i] <= trace[j]
  }

  /** The HTTP limiter or the socket limiter. */
  function RedisCheck(z: ZSet, now: Time, limit: int, windowMs: nat, socket: bool): (ZSet, bool) {
    if socket then AddThenCount(z, now, limit, windowMs) else CountThenAdd(z, now, limit, windowMs)
  }

  function RunRedis(trace: seq<Time>, limit: int, windowMs: nat, socket: bool): (ZSet, seq<bool>)
    decreases |trace|
  {
    if trace == [] then (EMPTY, [])
    else
      var (z, ds) := RunRedis(trace[..|trace| - 1], limit, windowMs, socket);
      var (z', d) := RedisCheck(z, trace[|trace| - 1], limit, windowMs, socket);
      (z', ds + [d])
  }

  function RunFallback(trace: seq<Time>, limit: int, windowMs: nat): (seq<Time>, seq<bool>)
    decreases |trace|
  {
    if trace == [] then ([], [])
    else
      var (store, ds) := RunFallback(trace[..|trace| - 1], limit, windowMs);
      var (store', d) := FallbackCheck(store, trace[|trace| - 1], limit, windowMs);
      (store', ds + [d])
  }

  // ----- the reference: count every earlier request of the window, with no key expiry and no store

  /** The positions below n with a time after the cut. */
  function Later(ts: seq<Time>, n: nat, cut: Time): set<int>
    requires n <= |ts|
  {
    set j | 0 <= j < n && ts[j] > cut
  }

  function Recent(trace: seq<Time>, i: nat, windowMs: nat): nat
    requires i < |trace|
  {
    |Later(trace, i, trace[i] - windowMs)|
  }

  /** Filtering keeps as many entries as there are positions after the cut. */
  lemma {:induction false} KeepCounts(ts: seq<Time>, n: nat, cut: Time)
    requires n <= |ts|
    ensures |Keep(ts[..n], cut)| == |Later(ts, n, cut)|
    decreases n
  {
    if n > 0 {
      KeepCounts(ts, n - 1, cut);
      LaterNext(ts, n - 1, cut);
      assert ts[..n] == ts[..n - 1] + [ts[n - 1]];
      KeepSnoc(ts[..n - 1], ts[n - 1], cut);
    }
  }

  lemma LaterNext(ts: seq<Time>, n: nat, cut: Time)
    requires n < |ts|
    ensures |Later(ts, n + 1, cut)| == |Later(ts, n, cut)| + (if ts[n] > cut then 1 else 0)
  {
    assert Later(ts, n + 1, cut) == if ts[n] > cut then Later(ts, n, cut) + {n} else Later(ts, n, cut);
  }

  /** What the sorted set holds: the last request and those of the window that ended with it. */
  ghost predicate Remembers(z: ZSet, trace: seq<Time>, windowMs: nat) {
    if trace == [] then z == EMPTY
    else HoldsWindow(z, trace[..|trace| - 1], trace[|trace| - 1], windowMs)
  }

  ghost predicate HoldsWindow(z: ZSet, init: seq<Time>, last: Time, windowMs: nat) {
    && z.entries == Keep(init, last - windowMs) + [last]
    && z.expireAt.Some? && z.expireAt.value >= last + windowMs
  }

  lemma KeepAfterPrune(trace: seq<Time>, now: Time, cut: Time, c: Time)
    requires cut <= c
    ensures Keep(Keep(trace, cut) + [now], c) == Keep(trace + [now], c)
  {
    KeepKeep(trace, cut, c);
    KeepSnoc(Keep(trace, cut), now, c);
    KeepSnoc(trace, now, c);
  }

  lemma LastBefore(trace: seq<Time>, now: Time)
    requires Monotone(trace + [now]) && trace != []
    ensures forall i :: 0 <= i < |trace| ==> trace[i] <= trace[|trace| - 1] <= now
  {
    forall i | 0 <= i < |trace| ensures trace[i] <= trace[|trace| - 1] <= now {
      assert trace[i] == (trace + [now])[i] && trace[|trace| - 1] == (trace + [now])[|trace| - 1];
      assert (trace + [now])[|trace|] == now;
    }
  }

  lemma PrunedIsKept(z: ZSet, cut: Time)
    ensures ZRemRangeByScore(z, cut).entries == Keep(z.entries, cut)
  {
  }

  lemma LeftTheWindow(trace: seq<Time>, now: Time, cut: Time)
    requires Monotone(trace + [now]) && trace != [] && trace[|trace| - 1] <= cut
    ensures Keep(trace, cut) == []
  {
    LastBefore(trace, now);
    KeepNone(trace, cut);
  }

  lemma StillRemembered(z: ZSet, init: seq<Time>, last: Time, windowMs: nat, cut: Time)
    requires HoldsWindow(z, init, last, windowMs) && last - windowMs <= cut
    ensures Keep(z.entries, cut) == Keep(init + [last], cut)
  {
    KeepAfterPrune(init, last, last - windowMs, cut);
  }

  /** A key expires only when every request it remembers has left the window. */
  lemma LiveKeeps(z: ZSet, init: seq<Time>, last: Time, now: Time, windowMs: nat)
    requires Monotone(init + [last] + [now]) && HoldsWindow(z, init, last, windowMs)
    ensures Keep(Live(z, now).entries, now - windowMs) == Keep(init + [last], now - windowMs)
  {
    assert last <= now by {
      LastBefore(init + [last], now);
      assert (init + [last])[|init|] == last;
    }
    if z.expireAt.value <= now {
      LeftTheWindow(init + [last], now, now - windowMs);
    } else {
      StillRemembered(z, init, last, windowMs, now - windowMs);
    }
  }

  /** Pruning finds exactly the requests of the window, whether or not the key had expired. */
  lemma PrunedEntries(z: ZSet, trace: seq<Time>, now: Time, windowMs: nat)
    requires Monotone(trace + [now]) && Remembers(z, trace, windowMs)
    ensures ZRemRangeByScore(Live(z, now), now - windowMs).entries == Keep(trace, now - windowMs)
  {
    PrunedIsKept(Live(z, now), now - windowMs);
    if trace != [] {
      var init, last := trace[..|trace| - 1], trace[|trace| - 1];
      assert trace == init + [last];
      LiveKeeps(z, init, last, now, windowMs);
    }
  }

  function Reference(trace: seq<Time>, limit: int, windowMs: nat): seq<bool> {
    if trace == [] then []
    else
      var init, now := trace[..|trace| - 1], trace[|trace| - 1];
      Reference(init, limit, windowMs) + [|Keep(init, now - windowMs)| < limit]
  }

  lemma {:induction false} ReferenceCounts(trace: seq<Time>, limit: int, windowMs: nat, i: nat)
    requires i < |trace|
    ensures |Reference(trace, limit, windowMs)| == |trace|
    ensures Reference(trace, limit, windowMs)[i] <==> |Keep(trace[..i], trace[i] - windowMs)| < limit
    decreases |trace|
  {
    var init := trace[..|trace| - 1];
    if i < |init| {
      ReferenceCounts(init, limit, windowMs, i);
      assert init[..i] == trace[..i];
    } else if init != [] {
      ReferenceCounts(init, limit, windowMs, 0);
    }
  }

  lemma MonotonePrefix(trace: seq<Time>)
    requires Monotone(trace) && trace != []
    ensures Monotone(trace[..|trace| - 1]) && trace == trace[..|trace| - 1] + [trace[|trace| - 1]]
  {
  }

  lemma RedisCheckRemembers(z: ZSet, trace: seq<Time>, now: Time, limit: int, windowMs: nat, socket: bool)
    requires Monotone(trace + [now]) && Remembers(z, trace, windowMs)
    ensures Remembers(RedisCheck(z, now, limit, windowMs, socket).0, trace + [now], windowMs)
  {
    PrunedEntries(z, trace, now, windowMs);
    assert (trace + [now])[..|trace|] == trace;
  }

  lemma RedisCheckDecides(z: ZSet, trace: seq<Time>, now: Time, limit: int, windowMs: nat, socket: bool)
    requires Monotone(trace + [now]) && Remembers(z, trace, windowMs)
    ensures RedisCheck(z, now, limit, windowMs, socket).1 <==> |Keep(trace, now - windowMs)| < limit
  {
    PrunedEntries(z, trace, now, windowMs);
  }

  lemma {:induction false} RunRemembers(trace: seq<Time>, limit: int, windowMs: nat, socket: bool)
    requires Monotone(trace)
    ensures Remembers(RunRedis(trace, limit, windowMs, socket).0, trace, windowMs)
    decreases |trace|
  {
    if trace != [] {
      var init, now := trace[..|trace| - 1], trace[|trace| - 1];
      MonotonePrefix(trace);
      RunRemembers(init, limit, windowMs, socket);
      RedisCheckRemembers(RunRedis(init, limit, windowMs, socket).0, init, now, limit, windowMs, socket);
    }
  }

  lemma {:induction false} RunFollowsReference(trace: seq<Time>, limit: int, windowMs: nat, socket: bool)
    requires Monotone(trace)
    ensures RunRedis(trace, limit, windowMs, socket).1 == Reference(trace, limit, windowMs)
    decreases |trace|
  {
    if trace != [] {
      var init, now := trace[..|trace| - 1], trace[|trace| - 1];
      MonotonePrefix(trace);
      RunFollowsReference(init, limit, windowMs, socket);
      var (z, ds) := RunRedis(init, limit, windowMs, socket);
      var d := RedisCheck(z, now, limit, windowMs, socket).1;
      assert d == (|Keep(init, now - windowMs)| < limit) by {
        RunRemembers(init, limit, windowMs, socket);
        RedisCheckDecides(z, init, now, limit, windowMs, socket);
      }
      assert RunRedis(trace, limit, windowMs, socket).1 == ds + [d];
    }
  }

  /**
   On every trace the HTTP limiter (count, then add) and the socket limiter (add, then count) make the same
   decisions, and both equal the count over the bare trace: neither the order of ZADD and ZCARD nor the
   expiry of the key ever changes one.
   */
  lemma RedisLimitersAgree(trace: seq<Time>, limit: int, windowMs: nat)
    requires Monotone(trace)
    ensures RunRedis(trace, limit, windowMs, false).1 == RunRedis(trace, limit, windowMs, true).1
    ensures |RunRedis(trace, limit, windowMs, false).1| == |trace|
    ensures forall i :: 0 <= i < |trace| ==>
      (RunRedis(trace, limit, windowMs, false).1[i] <==> Recent(trace, i, windowMs) < limit)
  {
    RunFollowsReference(trace, limit, windowMs, false);
    RunFollowsReference(trace, limit, windowMs, true);
    FallbackLength(trace, limit, windowMs);
    forall i | 0 <= i < |trace|
      ensures Reference(trace, limit, windowMs)[i] <==> Recent(trace, i, windowMs) < limit
    {
      ReferenceIsRecent(trace, limit, windowMs, i);
    }
  }

  lemma ReferenceIsRecent(trace: seq<Time>, limit: int, windowMs: nat, i: nat)
    requires i < |trace|
    ensures |Reference(trace, limit, windowMs)| == |trace|
    ensures Reference(trace, limit, windowMs)[i] <==> Recent(trace, i, windowMs) < limit
  {
    ReferenceCounts(trace, limit, windowMs, i);
    KeepCounts(trace, i, trace[i] - windowMs);
  }

  /** The fallback never remembers more than the trace. */
  lemma {:induction false} FallbackRemembersLess(trace: seq<Time>, limit: int, windowMs: nat, c: Time)
    ensures |Keep(RunFallback(trace, limit, windowMs).0, c)| <= |Keep(trace, c)|
    decreases |trace|
  {
    if trace != [] {
      var init, now := trace[..|trace| - 1], trace[|trace| - 1];
      var store := RunFallback(init, limit, windowMs).0;
      FallbackRemembersLess(init, limit, windowMs, c);
      KeepSnoc(Keep(store, now - windowMs), now, c);
      if now - windowMs <= c {
        KeepKeep(store, now - windowMs, c);
      } else {
        KeepTwice(store, now - windowMs, c);
      }
    }
  }

  lemma {:induction false} KeepTwice(ts: seq<Time>, a: Time, c: Time)
    ensures |Keep(Keep(ts, a), c)| <= |Keep(ts, c)|
    decreases |ts|
  {
    if ts != [] {
      KeepTwice(ts[..|ts| - 1], a, c);
      KeepSnoc(Keep(ts[..|ts| - 1], a), ts[|ts| - 1], c);
    }
  }

  lemma {:induction false} FallbackLength(trace: seq<Time>, limit: int, windowMs: nat)
    ensures |RunFallback(trace, limit, windowMs).1| == |trace| == |Reference(trace, limit, windowMs)|
    decreases |trace|
  {
    if trace != [] {
      FallbackLength(trace[..|trace| - 1], limit, windowMs);
    }
  }

  lemma {:induction false} FallbackAboveReference(trace: seq<Time>, limit: int, windowMs: nat, i: nat)
    requires i < |trace|
    ensures |RunFallback(trace, limit, windowMs).1| == |trace| == |Reference(trace, limit, windowMs)|
    ensures Reference(trace, limit, windowMs)[i] ==> RunFallback(trace, limit, windowMs).1[i]
    decreases |trace|
  {
    var init := trace[..|trace| - 1];
    FallbackLength(init, limit, windowMs);
    if i < |init| {
      FallbackAboveReference(init, limit, windowMs, i);
    } else {
      FallbackRemembersLess(init, limit, windowMs, trace[i] - windowMs);
    }
  }

  /** Whatever Redis admits on a trace, the fallback admits too. */
  lemma FallbackIsLaxer(trace: seq<Time>, limit: int, windowMs: nat, i: nat)
    requires Monotone(trace) && i < |trace|
    ensures |RunFallback(trace, limit, windowMs).1| == |RunRedis(trace, limit, windowMs, false).1| == |trace|
    ensures RunRedis(trace, limit, windowMs, false).1[i] ==> RunFallback(trace, limit, windowMs).1[i]
  {
    RunFollowsReference(trace, limit, windowMs, false);
    FallbackAboveReference(trace, limit, windowMs, i);
  }

  // ----- the fallback counts admissions

  /** The admitted requests among the first n with a time after the cut. */
  function AdmittedAfter(trace: seq<Time>, ds: seq<bool>, n: nat, cut: Time): set<int>
    requires n <= |trace| && n <= |ds|
  {
    set j | 0 <= j < n && ds[j] && trace[j] > cut
  }

  lemma AdmittedAfterNext(trace: seq<Time>, ds: seq<bool>, n: nat, cut: Time)
    requires n < |trace| && n < |ds|
    ensures |AdmittedAfter(trace, ds, n + 1, cut)| ==
            |AdmittedAfter(trace, ds, n, cut)| + (if ds[n] && trace[n] > cut then 1 else 0)
  {
    assert AdmittedAfter(trace, ds, n + 1, cut) ==
           if ds[n] && trace[n] > cut then AdmittedAfter(trace, ds, n, cut) + {n} else AdmittedAfter(trace, ds, n, cut);
  }

  /** What the list says about the past: for every cut in the current window, the admissions after it. */
  ghost predicate ListKnows(store: seq<Time>, trace: seq<Time>, ds: seq<bool>, n: nat, from: Time)
    requires n <= |trace| && n <= |ds|
  {
    forall c :: c >= from ==> KnowsAt(store, trace, ds, n, c)
  }

  ghost predicate KnowsAt(store: seq<Time>, trace: seq<Time>, ds: seq<bool>, n: nat, c: Time)
    requires n <= |trace| && n <= |ds|
  {
    |Keep(store, c)| == |AdmittedAfter(trace, ds, n, c)|
  }

  lemma KnowsNext(store: seq<Time>, trace: seq<Time>, ds: seq<bool>, n: nat, limit: int, windowMs: nat, c: Time)
    requires n < |trace| && n < |ds| && c >= trace[n] - windowMs && KnowsAt(store, trace, ds, n, c)
    requires FallbackCheck(store, trace[n], limit, windowMs).1 == ds[n]
    ensures KnowsAt(FallbackCheck(store, trace[n], limit, windowMs).0, trace, ds, n + 1, c)
  {
    AdmittedAfterNext(trace, ds, n, c);
    if ds[n] {
      KeepKeep(store, trace[n] - windowMs, c);
      KeepSnoc(Keep(store, trace[n] - windowMs), trace[n], c);
    }
  }

  lemma {:induction false} FallbackKnows(trace: seq<Time>, limit: int, windowMs: nat, n: nat)
    requires Monotone(trace) && n <= |trace|
    ensures |RunFallback(trace[..n], limit, windowMs).1| == n
    ensures |RunFallback(trace, limit, windowMs).1| == |trace|
    ensures RunFallback(trace[..n], limit, windowMs).1 == RunFallback(trace, limit, windowMs).1[..n]
    ensures ListKnows(RunFallback(trace[..n], limit, windowMs).0, trace, RunFallback(trace, limit, windowMs).1, n,
                      if n == 0 then 0 else trace[n - 1] - windowMs)
    decreases n
  {
    FallbackLength(trace, limit, windowMs);
    FallbackLength(trace[..n], limit, windowMs);
    FallbackPrefix(trace, limit, windowMs, n);
    if n > 0 {
      FallbackKnows(trace, limit, windowMs, n - 1);
      var store, ds := RunFallback(trace[..n - 1], limit, windowMs).0, RunFallback(trace, limit, windowMs).1;
      FallbackNext(trace, limit, windowMs, n - 1);
      forall c | c >= trace[n - 1] - windowMs
        ensures KnowsAt(RunFallback(trace[..n], limit, windowMs).0, trace, ds, n, c)
      {
        assert n > 1 ==> trace[n - 2] <= trace[n - 1];
        assert KnowsAt(store, trace, ds, n - 1, c) by {
          if n == 1 {
            assert AdmittedAfter(trace, ds, 0, c) == {};
          }
        }
        KnowsNext(store, trace, ds, n - 1, limit, windowMs, c);
      }
    } else {
      forall c | c >= 0 ensures KnowsAt([], trace, RunFallback(trace, limit, windowMs).1, 0, c) {
        assert AdmittedAfter(trace, RunFallback(trace, limit, windowMs).1, 0, c) == {};
      }
    }
  }

  lemma {:induction false} FallbackPrefix(trace: seq<Time>, limit: int, windowMs: nat, n: nat)
    requires n <= |trace|
    ensures |RunFallback(trace, limit, windowMs).1| == |trace|
    ensures RunFallback(trace[..n], limit, windowMs).1 == RunFallback(trace, limit, windowMs).1[..n]
    decreases |trace|
  {
    FallbackLength(trace, limit, windowMs);
    if n < |trace| {
      FallbackPrefix(trace[..|trace| - 1], limit, windowMs, n);
      assert trace[..|trace| - 1][..n] == trace[..n];
    } else {
      assert trace[..n] == trace;
    }
  }

  lemma FallbackNext(trace: seq<Time>, limit: int, windowMs: nat, n: nat)
    requires n < |trace|
    ensures |RunFallback(trace, limit, windowMs).1| == |trace|
    ensures (RunFallback(trace[..n + 1], limit, windowMs).0, RunFallback(trace, limit, windowMs).1[n]) ==
            FallbackCheck(RunFallback(trace[..n], limit, windowMs).0, trace[n], limit, windowMs)
  {
    FallbackLength(trace, limit, windowMs);
    FallbackLength(trace[..n], limit, windowMs);
    FallbackPrefix(trace, limit, windowMs, n + 1);
    assert trace[..n + 1][..n] == trace[..n];
  }

  /** On every trace the fallback admits a request exactly when it admitted fewer than limit in the window before it. */
  lemma FallbackCountsAdmitted(trace: seq<Time>, limit: int, windowMs: nat, i: nat)
    requires Monotone(trace) && i < |trace|
    ensures |RunFallback(trace, limit, windowMs).1| == |trace|
    ensures var ds := RunFallback(trace, limit, windowMs).1;
      ds[i] <==> |AdmittedAfter(trace, ds, i, trace[i] - windowMs)| < limit
  {
    FallbackKnows(trace, limit, windowMs, i);
    FallbackNext(trace, limit, windowMs, i);
    var store, ds := RunFallback(trace[..i], limit, windowMs).0, RunFallback(trace, limit, windowMs).1;
    assert i > 0 ==> trace[i - 1] <= trace[i];
    assert KnowsAt(store, trace, ds, i, trace[i] - windowMs) by {
      if i == 0 {
        assert AdmittedAfter(trace, ds, 0, trace[i] - windowMs) == {};
      }
    }
  }

  // ----- switching between Redis and the fallback

  /** How a checkLimit call fares: through Redis, or falling back after some pipeline commands ran. */
  datatype Route = ViaRedis | FellBack(executed: nat)

  datatype Call = Call(at: Time, route: Route)

  datatype Store = Store(z: ZSet, fallback: seq<Time>)

  /** The sorted set after the first commands of the pipeline. */
  function Partial(z: ZSet, now: Time, windowMs: nat, executed: nat): ZSet {
    var z0 := Live(z, now);
    var z1 := ZRemRangeByScore(z0, now - windowMs);
    if executed == 0 then z0
    else if executed <= 2 then z1
    else if executed == 3 then ZAdd(z1, now)
    else PExpire(ZAdd(z1, now), now + windowMs)
  }

  function CheckLimit(s: Store, c: Call, limit: int, windowMs: nat): (Store, bool) {
    match c.route
    case ViaRedis =>
      var (z, d) := CountThenAdd(s.z, c.at, limit, windowMs);
      (s.(z := z), d)
    case FellBack(n) =>
      var (f, d) := FallbackCheck(s.fallback, c.at, limit, windowMs);
      (Store(Partial(s.z, c.at, windowMs, n), f), d)
  }

  /** The requests of the window that this call counts against itself. */
  function Seen(s: Store, c: Call, windowMs: nat): nat {
    |Keep(if c.route.ViaRedis? then Live(s.z, c.at).entries else s.fallback, c.at - windowMs)|
  }

  /** Either route admits a call exactly when what it counts is below the limit. */
  lemma SeenDecides(s: Store, c: Call, limit: int, windowMs: nat)
    ensures CheckLimit(s, c, limit, windowMs).1 <==> Seen(s, c, windowMs) < limit
  {
    PrunedIsKept(Live(s.z, c.at), c.at - windowMs);
  }

  function RunMixed(calls: seq<Call>, limit: int, windowMs: nat): (Store, seq<bool>)
    decreases |calls|
  {
    if calls == [] then (Store(EMPTY, []), [])
    else
      var (s, ds) := RunMixed(calls[..|calls| - 1], limit, windowMs);
      var (s', d) := CheckLimit(s, calls[|calls| - 1], limit, windowMs);
      (s', ds + [d])
  }

  predicate InOrder(calls: seq<Call>) {
    forall i, j :: 0 <= i < j < |calls| ==> calls[i].at <= calls[j].at
  }

  /** The times of the admitted calls of one kind. */
  function AdmittedTimes(calls: seq<Call>, ds: seq<bool>, redis: bool): seq<Time>
    requires |ds| == |calls|
  {
    if calls == [] then []
    else
      var rest := AdmittedTimes(calls[..|calls| - 1], ds[..|ds| - 1], redis);
      var c := calls[|calls| - 1];
      if ds[|ds| - 1] && c.route.ViaRedis? == redis then rest + [c.at] else rest
  }

  /** How many of the times lie in the half-open window (lo, lo + windowMs]. */
  function InWindow(ts: seq<Time>, lo: Time, windowMs: nat): nat {
    if ts == [] then 0
    else InWindow(ts[..|ts| - 1], lo, windowMs) + (if lo < ts[|ts| - 1] <= lo + windowMs then 1 else 0)
  }

  lemma {:induction false} WindowWithinKeep(ts: seq<Time>, lo: Time, windowMs: nat)
    ensures InWindow(ts, lo, windowMs) <= |Keep(ts, lo)|
    decreases |ts|
  {
    if ts != [] {
      WindowWithinKeep(ts[..|ts| - 1], lo, windowMs);
    }
  }

  lemma WindowSnoc(ts: seq<Time>, x: Time, lo: Time, windowMs: nat)
    ensures InWindow(ts + [x], lo, windowMs) ==
            InWindow(ts, lo, windowMs) + (if lo < x <= lo + windowMs then 1 else 0)
  {
    assert (ts + [x])[..|ts|] == ts;
  }

  /** After the cut, the store holds at least as many requests as were admitted. */
  ghost predicate Covers(store: seq<Time>, admitted: seq<Time>, cut: Time) {
    |Keep(admitted, cut)| <= |Keep(store, cut)|
  }

  lemma PruneCovers(store: seq<Time>, admitted: seq<Time>, cut: Time, c: Time)
    requires cut <= c && Covers(store, admitted, c)
    ensures Covers(Keep(store, cut), admitted, c)
  {
    KeepKeep(store, cut, c);
  }

  lemma AddCovers(store: seq<Time>, admitted: seq<Time>, now: Time, c: Time)
    requires Covers(store, admitted, c)
    ensures Covers(store + [now], admitted, c) && Covers(store + [now], admitted + [now], c)
  {
    var kept, counted := Keep(store, c), Keep(admitted, c);
    assert |Keep(store + [now], c)| == |kept| + (if now > c then 1 else 0) by { KeepSnoc(store, now, c); }
    assert |Keep(admitted + [now], c)| == |counted| + (if now > c then 1 else 0) by { KeepSnoc(admitted, now, c); }
  }

  /** The sorted set still knows every admission inside the window ending now, and will until it is stale. */
  ghost predicate SetTracks(z: ZSet, admitted: seq<Time>, now: Time, windowMs: nat) {
    && (forall c :: c >= now - windowMs ==> Covers(z.entries, admitted, c))
    && (z.expireAt.Some? ==> forall t :: t in admitted ==> t + windowMs <= z.expireAt.value)
  }

  ghost predicate ListTracks(store: seq<Time>, admitted: seq<Time>, now: Time, windowMs: nat) {
    forall c :: c >= now - windowMs ==> Covers(store, admitted, c)
  }

  lemma LiveTracks(z: ZSet, admitted: seq<Time>, before: Time, now: Time, windowMs: nat)
    requires SetTracks(z, admitted, before, windowMs) && before <= now
    ensures SetTracks(Live(z, now), admitted, now, windowMs)
  {
    if z.expireAt.Some? && z.expireAt.value <= now {
      forall c | c >= now - windowMs ensures Covers([], admitted, c) {
        forall i | 0 <= i < |admitted| ensures admitted[i] <= c { assert admitted[i] in admitted; }
        KeepNone(admitted, c);
      }
    }
  }

  lemma PruneTracks(z: ZSet, admitted: seq<Time>, now: Time, windowMs: nat)
    requires SetTracks(z, admitted, now, windowMs)
    ensures SetTracks(ZRemRangeByScore(z, now - windowMs), admitted, now, windowMs)
    ensures |Keep(admitted, now - windowMs)| <= |ZRemRangeByScore(z, now - windowMs).entries|
  {
    assert Covers(z.entries, admitted, now - windowMs);
    var kept := Keep(z.entries, now - windowMs);
    forall c | c >= now - windowMs ensures Covers(kept, admitted, c) {
      PruneCovers(z.entries, admitted, now - windowMs, c);
    }
  }

  lemma AddTracks(z: ZSet, admitted: seq<Time>, now: Time, windowMs: nat)
    requires SetTracks(z, admitted, now, windowMs)
    ensures SetTracks(ZAdd(z, now), admitted, now, windowMs)
  {
    forall c | c >= now - windowMs ensures Covers(z.entries + [now], admitted, c) {
      AddCovers(z.entries, admitted, now, c);
    }
  }

  lemma ExpireTracks(z: ZSet, admitted: seq<Time>, now: Time, windowMs: nat)
    requires SetTracks(z, admitted, now, windowMs) && forall t :: t in admitted ==> t <= now
    ensures SetTracks(PExpire(z, now + windowMs), admitted, now, windowMs)
  {
  }

  lemma AdmitTracks(z: ZSet, admitted: seq<Time>, now: Time, windowMs: nat)
    requires SetTracks(z, admitted, now, windowMs) && forall t :: t in admitted ==> t <= now
    ensures SetTracks(PExpire(ZAdd(z, now), now + windowMs), admitted + [now], now, windowMs)
  {
    forall c | c >= now - windowMs ensures Covers(z.entries + [now], admitted + [now], c) {
      AddCovers(z.entries, admitted, now, c);
    }
  }

  /** One more call through Redis: the set keeps track, and an admission found fewer than limit. */
  lemma RedisStep(z: ZSet, admitted: seq<Time>, before: Time, now: Time, limit: int, windowMs: nat)
    requires SetTracks(z, admitted, before, windowMs) && before <= now && forall t :: t in admitted ==> t <= now
    ensures var (z', d) := CountThenAdd(z, now, limit, windowMs);
      && SetTracks(z', if d then admitted + [now] else admitted, now, windowMs)
      && (d ==> |Keep(admitted, now - windowMs)| < limit)
  {
    var pruned := ZRemRangeByScore(Live(z, now), now - windowMs);
    LiveTracks(z, admitted, before, now, windowMs);
    PruneTracks(Live(z, now), admitted, now, windowMs);
    AdmitTracks(pruned, admitted, now, windowMs);
    AddTracks(pruned, admitted, now, windowMs);
    ExpireTracks(ZAdd(pruned, now), admitted, now, windowMs);
  }

  /** However far the pipeline got before the call fell back, Redis forgets none of its admissions. */
  lemma PartialStep(z: ZSet, admitted: seq<Time>, before: Time, now: Time, n: nat, windowMs: nat)
    requires SetTracks(z, admitted, before, windowMs) && before <= now && forall t :: t in admitted ==> t <= now
    ensures SetTracks(Partial(z, now, windowMs, n), admitted, now, windowMs)
  {
    var pruned := ZRemRangeByScore(Live(z, now), now - windowMs);
    LiveTracks(z, admitted, before, now, windowMs);
    PruneTracks(Live(z, now), admitted, now, windowMs);
    AddTracks(pruned, admitted, now, windowMs);
    ExpireTracks(ZAdd(pruned, now), admitted, now, windowMs);
  }

  lemma ListAdmits(store: seq<Time>, admitted: seq<Time>, now: Time, windowMs: nat)
    requires ListTracks(store, admitted, now, windowMs)
    ensures ListTracks(Keep(store, now - windowMs) + [now], admitted + [now], now, windowMs)
  {
    var kept := Keep(store, now - windowMs);
    forall c | c >= now - windowMs ensures Covers(kept + [now], admitted + [now], c) {
      PruneCovers(store, admitted, now - windowMs, c);
      AddCovers(kept, admitted, now, c);
    }
  }

  lemma ListLater(store: seq<Time>, admitted: seq<Time>, before: Time, now: Time, windowMs: nat)
    requires ListTracks(store, admitted, before, windowMs) && before <= now
    ensures ListTracks(store, admitted, now, windowMs)
    ensures |Keep(admitted, now - windowMs)| <= |Keep(store, now - windowMs)|
  {
    assert Covers(store, admitted, now - windowMs);
  }

  lemma FallbackStep(store: seq<Time>, admitted: seq<Time>, before: Time, now: Time, limit: int, windowMs: nat)
    requires ListTracks(store, admitted, before, windowMs) && before <= now
    ensures var (f, d) := FallbackCheck(store, now, limit, windowMs);
      && ListTracks(f, if d then admitted + [now] else admitted, now, windowMs)
      && (d ==> |Keep(admitted, now - windowMs)| < limit)
  {
    ListLater(store, admitted, before, now, windowMs);
    ListAdmits(store, admitted, now, windowMs);
  }

  ghost predicate Bounded(ts: seq<Time>, limit: int, windowMs: nat) {
    forall lo :: InWindow(ts, lo, windowMs) <= (if limit < 0 then 0 else limit)
  }

  lemma BoundedSnoc(ts: seq<Time>, now: Time, limit: int, windowMs: nat)
    requires Bounded(ts, limit, windowMs) && |Keep(ts, now - windowMs)| < limit
    ensures Bounded(ts + [now], limit, windowMs)
  {
    forall lo ensures InWindow(ts + [now], lo, windowMs) <= limit {
      WindowSnoc(ts, now, lo, windowMs);
      if lo < now <= lo + windowMs {
        WindowWithinKeep(ts, lo, windowMs);
        KeepKeep(ts, now - windowMs, lo);
      }
    }
  }

  /** All that a run maintains; upTo is the time of its last call. */
  ghost predicate RunOk(s: Store, redis: seq<Time>, fallback: seq<Time>, upTo: Time, limit: int, windowMs: nat) {
    && Bounded(redis, limit, windowMs) && Bounded(fallback, limit, windowMs)
    && SetTracks(s.z, redis, upTo, windowMs) && ListTracks(s.fallback, fallback, upTo, windowMs)
    && (forall t :: t in redis ==> t <= upTo)
  }

  lemma RunOkRedis(s: Store, redis: seq<Time>, fallback: seq<Time>, upTo: Time, now: Time, limit: int, windowMs: nat)
    requires RunOk(s, redis, fallback, upTo, limit, windowMs) && upTo <= now
    ensures var (s', d) := CheckLimit(s, Call(now, ViaRedis), limit, windowMs);
      RunOk(s', if d then redis + [now] else redis, fallback, now, limit, windowMs)
  {
    RedisStep(s.z, redis, upTo, now, limit, windowMs);
    if CountThenAdd(s.z, now, limit, windowMs).1 {
      BoundedSnoc(redis, now, limit, windowMs);
    }
  }

  lemma RunOkFallback(s: Store, redis: seq<Time>, fallback: seq<Time>, upTo: Time, now: Time, n: nat, limit: int, windowMs: nat)
    requires RunOk(s, redis, fallback, upTo, limit, windowMs) && upTo <= now
    ensures var (s', d) := CheckLimit(s, Call(now, FellBack(n)), limit, windowMs);
      RunOk(s', redis, if d then fallback + [now] else fallback, now, limit, windowMs)
  {
    PartialStep(s.z, redis, upTo, now, n, windowMs);
    FallbackStep(s.fallback, fallback, upTo, now, limit, windowMs);
    if FallbackCheck(s.fallback, now, limit, windowMs).1 {
      BoundedSnoc(fallback, now, limit, windowMs);
    }
  }

  lemma EmptyRunOk(upTo: Time, limit: int, windowMs: nat)
    ensures RunOk(Store(EMPTY, []), [], [], upTo, limit, windowMs)
  {
  }

  lemma RunMixedNext(init: seq<Call>, c: Call, limit: int, windowMs: nat)
    ensures var (s, ds) := RunMixed(init, limit, windowMs);
      var (s', d) := CheckLimit(s, c, limit, windowMs);
      RunMixed(init + [c], limit, windowMs) == (s', ds + [d])
  {
    assert (init + [c])[..|init|] == init;
  }

  /** What one more call adds to the admissions of a route. */
  lemma AdmittedNext(init: seq<Call>, ds: seq<bool>, c: Call, d: bool, redis: bool)
    requires |ds| == |init|
    ensures AdmittedTimes(init + [c], ds + [d], redis) ==
            if d && c.route.ViaRedis? == redis then AdmittedTimes(init, ds, redis) + [c.at] else AdmittedTimes(init, ds, redis)
  {
    assert (init + [c])[..|init|] == init && (ds + [d])[..|ds|] == ds;
  }

  lemma CheckLimitRunOk(s: Store, redis: seq<Time>, fallback: seq<Time>, upTo: Time, c: Call, limit: int, windowMs: nat)
    requires RunOk(s, redis, fallback, upTo, limit, windowMs) && upTo <= c.at
    ensures var (s', d) := CheckLimit(s, c, limit, windowMs);
      RunOk(s', if d && c.route.ViaRedis? then redis + [c.at] else redis,
            if d && !c.route.ViaRedis? then fallback + [c.at] else fallback, c.at, limit, windowMs)
  {
    match c.route
    case ViaRedis =>
      assert c == Call(c.at, ViaRedis);
      RunOkRedis(s, redis, fallback, upTo, c.at, limit, windowMs);
    case FellBack(n) =>
      assert c == Call(c.at, FellBack(n));
      RunOkFallback(s, redis, fallback, upTo, c.at, n, limit, windowMs);
  }

  lemma {:induction false} MixedRunBounded(calls: seq<Call>, limit: int, windowMs: nat, upTo: Time)
    requires InOrder(calls) && (calls == [] || upTo == calls[|calls| - 1].at)
    ensures |RunMixed(calls, limit, windowMs).1| == |calls|
    ensures var (s, ds) := RunMixed(calls, limit, windowMs);
      RunOk(s, AdmittedTimes(calls, ds, true), AdmittedTimes(calls, ds, false), upTo, limit, windowMs)
    decreases |calls|
  {
    if calls == [] {
      EmptyRunOk(upTo, limit, windowMs);
    } else {
      var init, c := calls[..|calls| - 1], calls[|calls| - 1];
      assert calls == init + [c];
      var before := if init == [] then c.at else init[|init| - 1].at;
      MixedRunBounded(init, limit, windowMs, before);
      var (s, ds) := RunMixed(init, limit, windowMs);
      var (s', d) := CheckLimit(s, c, limit, windowMs);
      RunMixedNext(init, c, limit, windowMs);
      AdmittedNext(init, ds, c, d, true);
      AdmittedNext(init, ds, c, d, false);
      CheckLimitRunOk(s, AdmittedTimes(init, ds, true), AdmittedTimes(init, ds, false), before, c, limit, windowMs);
    }
  }

  /** Every admitted call, by either route. */
  function Admitted(calls: seq<Call>, ds: seq<bool>): seq<Time>
    requires |ds| == |calls|
  {
    if calls == [] then []
    else
      var rest := Admitted(calls[..|calls| - 1], ds[..|ds| - 1]);
      if ds[|ds| - 1] then rest + [calls[|calls| - 1].at] else rest
  }

  lemma {:induction false} AdmittedByRoute(calls: seq<Call>, ds: seq<bool>, lo: Time, windowMs: nat)
    requires |ds| == |calls|
    ensures InWindow(Admitted(calls, ds), lo, windowMs) ==
            InWindow(AdmittedTimes(calls, ds, true), lo, windowMs) + InWindow(AdmittedTimes(calls, ds, false), lo, windowMs)
    decreases |calls|
  {
    if calls != [] {
      var init, dinit, x := calls[..|calls| - 1], ds[..|ds| - 1], calls[|calls| - 1].at;
      AdmittedByRoute(init, dinit, lo, windowMs);
      WindowSnoc(Admitted(init, dinit), x, lo, windowMs);
      WindowSnoc(AdmittedTimes(init, dinit, true), x, lo, windowMs);
      WindowSnoc(AdmittedTimes(init, dinit, false), x, lo, windowMs);
    }
  }

  predicate OneRoute(calls: seq<Call>, redis: bool) {
    forall c :: c in calls ==> c.route.ViaRedis? == redis
  }

  lemma {:induction false} OneRouteOnly(calls: seq<Call>, ds: seq<bool>, redis: bool)
    requires |ds| == |calls| && OneRoute(calls, redis)
    ensures AdmittedTimes(calls, ds, !redis) == []
    decreases |calls|
  {
    if calls != [] {
      assert calls[|calls| - 1] in calls;
      assert forall c :: c in calls[..|calls| - 1] ==> c in calls;
      OneRouteOnly(calls[..|calls| - 1], ds[..|ds| - 1], redis);
    }
  }

  /**
   Any window of the configured length holds at most limit admitted requests while all calls take one
   route, and at most twice limit however they switch between Redis and the fallback.
   */
  lemma WindowBound(calls: seq<Call>, limit: nat, windowMs: nat, lo: Time)
    requires InOrder(calls)
    ensures |RunMixed(calls, limit, windowMs).1| == |calls|
    ensures var n := InWindow(Admitted(calls, RunMixed(calls, limit, windowMs).1), lo, windowMs);
      && n <= 2 * limit
      && (OneRoute(calls, true) || OneRoute(calls, false) ==> n <= limit)
  {
    MixedRunBounded(calls, limit, windowMs, if calls == [] then 0 else calls[|calls| - 1].at);
    var ds := RunMixed(calls, limit, windowMs).1;
    AdmittedByRoute(calls, ds, lo, windowMs);
    if OneRoute(calls, true) {
      OneRouteOnly(calls, ds, true);
    } else if OneRoute(calls, false) {
      OneRouteOnly(calls, ds, false);
    }
  }

  // ----- the middleware

  class Limiter {
    var redis: map<string, ZSet>
    var fallbackStore: map<string, seq<Time>>

    ghost function StoreOf(key: string): Store
      reads this
    {
      Store(if key in redis then redis[key] else EMPTY, if key in fallbackStore then fallbackStore[key] else [])
    }

    constructor ()
      ensures forall key :: StoreOf(key) == Store(EMPTY, [])
    {
      redis, fallbackStore := map[], map[];
    }

    /** timestamps.filter(ts => ts > windowStart) */
    method FilterAfter(ts: seq<Time>, windowStart: Time) returns (kept: seq<Time>)
      ensures kept == Keep(ts, windowStart)
    {
      kept := [];
      var i := 0;
      while i < |ts|
        invariant 0 <= i <= |ts|
        invariant kept == Keep(ts[..i], windowStart)
      {
        assert ts[..i + 1][..i] == ts[..i];
        if ts[i] > windowStart {
          kept := kept + [ts[i]];
        }
        i := i + 1;
      }
      assert ts[..|ts|] == ts;
    }

    /** The pipeline: prune, count, add, set the expiry. */
    method RedisRoute(key: string, limit: int, windowMs: nat, now: Time) returns (allowed: bool, count: nat)
      modifies this`redis
      ensures (StoreOf(key), allowed) == CheckLimit(old(StoreOf(key)), Call(now, ViaRedis), limit, windowMs)
      ensures count == Seen(old(StoreOf(key)), Call(now, ViaRedis), windowMs)
      ensures redis - {key} == old(redis) - {key}
    {
      var z := if key in redis then redis[key] else EMPTY;
      z := Live(z, now);
      z := ZRemRangeByScore(z, now - windowMs);
      count := |z.entries|;
      z := ZAdd(z, now);
      z := PExpire(z, now + windowMs);
      redis := redis[key := z];
      allowed := count < limit;
    }

    /** checkLimitFallback on the timestamps of one key. */
    method DecideLocally(stored: seq<Time>, limit: int, windowMs: nat, now: Time) returns (allowed: bool, kept: seq<Time>, count: nat)
      ensures (if allowed then kept else stored, allowed) == FallbackCheck(stored, now, limit, windowMs)
      ensures count == |Keep(stored, now - windowMs)|
    {
      kept := FilterAfter(stored, now - windowMs);
      count := |kept|;
      allowed := count < limit;
      if allowed {
        kept := kept + [now];
      }
    }

    /** The pipeline threw after some commands; decide from the in-process list. */
    method FallbackRoute(key: string, limit: int, windowMs: nat, now: Time, executed: nat) returns (allowed: bool, count: nat)
      modifies this
      ensures (StoreOf(key), allowed) == CheckLimit(old(StoreOf(key)), Call(now, FellBack(executed)), limit, windowMs)
      ensures count == Seen(old(StoreOf(key)), Call(now, FellBack(executed)), windowMs)
      ensures redis - {key} == old(redis) - {key} && fallbackStore - {key} == old(fallbackStore) - {key}
    {
      var z := if key in redis then redis[key] else EMPTY;
      redis := redis[key := Partial(z, now, windowMs, executed)];
      var stored := if key in fallbackStore then fallbackStore[key] else [];
      var timestamps;
      allowed, timestamps, count := DecideLocally(stored, limit, windowMs, now);
      if allowed {
        fallbackStore := fallbackStore[key := timestamps];
      }
    }

    method Check(key: string, limit: int, windowMs: nat, call: Call) returns (allowed: bool, remaining: int, retryAfter: nat)
      modifies this
      ensures (StoreOf(key), allowed) == CheckLimit(old(StoreOf(key)), call, limit, windowMs)
      ensures redis - {key} == old(redis) - {key} && fallbackStore - {key} == old(fallbackStore) - {key}
      ensures remaining == if allowed then limit - 1 - Seen(old(StoreOf(key)), call, windowMs) else 0
      ensures retryAfter == if allowed then 0 else (windowMs + 999) / 1000
    {
      var count;
      if call.route.ViaRedis? {
        allowed, count := RedisRoute(key, limit, windowMs, call.at);
      } else {
        allowed, count := FallbackRoute(key, limit, windowMs, call.at, call.route.executed);
      }
      remaining := if limit - count - 1 > 0 then limit - count - 1 else 0;
      retryAfter := if allowed then 0 else (windowMs + 999) / 1000;
    }

    /** The socket limiter; scores are never negative, so removing from 0 removes all old ones. */
    method CheckSocketEvent(key: string, limit: int, windowSeconds: nat, now: Time) returns (allowed: bool)
      modifies this`redis
      ensures (StoreOf(key).z, allowed) == AddThenCount(old(StoreOf(key)).z, now, limit, windowSeconds * 1000)
      ensures redis - {key} == old(redis) - {key}
    {
      var z := if key in redis then redis[key] else EMPTY;
      z := Live(z, now);
      z := ZRemRangeByScore(z, now - windowSeconds * 1000);
      z := ZAdd(z, now);
      var count := |z.entries|;
      z := PExpire(z, now + (windowSeconds + 1) * 1000);
      redis := redis[key := z];
      allowed := count <= limit;
    }
  }
}
