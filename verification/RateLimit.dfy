/** The clock-aligned fixed-window limiter: apps/api/src/rate-limit.ts.
    Clock readings are whole seconds. */
module RateLimit {
  import opened OrderedMap
  import opened Tally

  /** A counter in Redis; a missing expiry would make it immortal. */
  datatype Counter = Counter(count: nat, expiresAt: Option<int>)

  /** `rl:<namespace>:<who>:<window>`. */
  datatype Key = Key(who: string, window: int)

  type Counters = map<Key, Counter>

  predicate Lives(counters: Counters, key: Key, now: int) {
    key in counters && (counters[key].expiresAt.None? || now < counters[key].expiresAt.value)
  }

  /** `INCR`, then `EXPIRE` when the key is new. */
  function Incremented(counters: Counters, key: Key, now: int, windowSec: int): Counters {
    if Lives(counters, key, now) then counters[key := counters[key].(count := counters[key].count + 1)]
    else counters[key := Counter(1, Some(now + windowSec))]
  }

  function KeyAt(who: string, now: int, windowSec: int): Key
    requires windowSec > 0
  {
    Key(who, now / windowSec)
  }

  datatype Verdict = Pass | TooMany(retryAfter: int) | Unavailable

  const OUTAGE_LOG_INTERVAL: int := 60_000

  /** A request let through during an outage is logged when the last log is a minute old. */
  predicate Logs(last: int, at: int) {
    at - last >= OUTAGE_LOG_INTERVAL
  }

  function NextLog(last: int, at: int): int {
    if Logs(last, at) then at else last
  }

  class RateLimiter {
    const limit: nat
    const windowSec: int
    const failOpen: bool
    var counters: Counters
    var lastOutageLog: int
    var outageLogs: nat

    ghost predicate Valid()
      reads this
    {
      windowSec > 0
    }

    constructor (limit: nat, windowSec: int, failOpen: bool)
      requires windowSec > 0
      ensures Valid() && counters == map[] && lastOutageLog == 0 && outageLogs == 0
      ensures this.limit == limit && this.windowSec == windowSec && this.failOpen == failOpen
    {
      this.limit, this.windowSec, this.failOpen := limit, windowSec, failOpen;
      counters, lastOutageLog, outageLogs := map[], 0, 0;
    }

    method CountInWindow(key: Key, now: int) returns (count: nat)
      requires Valid() && (key in counters ==> counters[key].count > 0)
      modifies this`counters
      ensures counters == Incremented(old(counters), key, now, windowSec)
      ensures key in counters && count == counters[key].count
    {
      if Lives(counters, key, now) {
        count := counters[key].count + 1;
        counters := counters[key := counters[key].(count := count)];
      } else {
        count := 1;
        counters := counters[key := Counter(count, None)];
      }
      if count == 1 {
        counters := counters[key := counters[key].(expiresAt := Some(now + windowSec))];
      }
    }

    /** One request at `nowMs`, `up` when Redis answers, `exempt` for reads and skipped requests. */
    method Handle(who: string, nowMs: int, up: bool, exempt: bool) returns (verdict: Verdict)
      requires Valid() && forall k :: k in counters ==> counters[k].count > 0
      modifies this
      ensures exempt ==> verdict == Pass && counters == old(counters)
      ensures !exempt && up ==>
        var now := nowMs / 1000; var key := KeyAt(who, now, windowSec);
        && counters == Incremented(old(counters), key, now, windowSec)
        && verdict == if counters[key].count <= limit then Pass else TooMany((now / windowSec + 1) * windowSec - now)
      ensures !exempt && !up ==> counters == old(counters) && verdict == if failOpen then Pass else Unavailable
      ensures var letThrough := !exempt && !up && failOpen;
        && lastOutageLog == (if letThrough then NextLog(old(lastOutageLog), nowMs) else old(lastOutageLog))
        && outageLogs == old(outageLogs) + if letThrough && Logs(old(lastOutageLog), nowMs) then 1 else 0
      ensures forall k :: k in counters ==> counters[k].count > 0
    {
      if exempt { return Pass; }
      var now := nowMs / 1000;
      var retryAfter := windowSec - now % windowSec;
      RetryAfterIsNextWindow(now, windowSec);
      if !up {
        if failOpen {
          if nowMs - lastOutageLog >= OUTAGE_LOG_INTERVAL {
            lastOutageLog := nowMs;
            outageLogs := outageLogs + 1;
          }
          return Pass;
        }
        return Unavailable;
      }
      var count := CountInWindow(KeyAt(who, now, windowSec), now);
      verdict := if count > limit then TooMany(retryAfter) else Pass;
    }
  }

  /** The time of the last log after requests let through at these moments. */
  function LastLog(moments: seq<int>): int {
    if moments == [] then 0 else NextLog(LastLog(moments[..|moments| - 1]), moments[|moments| - 1])
  }

  ghost predicate LoggedAt(moments: seq<int>, i: nat)
    requires i < |moments|
  {
    Logs(LastLog(moments[..i]), moments[i])
  }

  lemma {:induction false} LastLogIsLog(moments: seq<int>, i: nat)
    requires i < |moments| && LoggedAt(moments, i)
    requires forall j, k :: 0 <= j <= k < |moments| ==> moments[j] <= moments[k]
    ensures moments[i] <= LastLog(moments) <= moments[|moments| - 1]
  {
    var n := |moments| - 1;
    if i < n {
      assert moments[..n][..i] == moments[..i];
      LastLogIsLog(moments[..n], i);
    }
  }

  /** An outage is logged at most once a minute, and whenever no log of it was
      made in the last minute. */
  lemma OutageLoggedOnceAMinute(moments: seq<int>, j: nat)
    requires j < |moments| && moments[0] >= 60_000
    requires forall i, k :: 0 <= i <= k < |moments| ==> moments[i] <= moments[k]
    ensures LoggedAt(moments, j) <==>
      forall i :: 0 <= i < j && LoggedAt(moments, i) ==> moments[j] - moments[i] >= 60_000
  {
    var before := moments[..j];
    forall i | 0 <= i < j ensures LoggedAt(before, i) <==> LoggedAt(moments, i) { PrefixLogs(moments, j, i); }
    if i :| 0 <= i < j && LoggedAt(moments, i) {
      SomeLogIsLast(before, i);
      forall k | 0 <= k < j && LoggedAt(moments, k) ensures moments[k] <= LastLog(before) {
        LastLogIsLog(before, k);
      }
    } else {
      NoLogYet(before);
    }
  }

  lemma PrefixLogs(moments: seq<int>, n: nat, i: nat)
    requires i < n <= |moments|
    ensures LoggedAt(moments[..n], i) <==> LoggedAt(moments, i)
  {
    assert moments[..n][..i] == moments[..i];
  }

  lemma {:induction false} NoLogYet(moments: seq<int>)
    requires forall i :: 0 <= i < |moments| ==> !LoggedAt(moments, i)
    ensures LastLog(moments) == 0
  {
    if moments != [] {
      var n := |moments| - 1;
      forall i | 0 <= i < n ensures !LoggedAt(moments[..n], i) { PrefixLogs(moments, n, i); }
      NoLogYet(moments[..n]);
      assert !LoggedAt(moments, n);
    }
  }

  lemma {:induction false} SomeLogIsLast(moments: seq<int>, i: nat)
    requires i < |moments| && LoggedAt(moments, i)
    ensures exists k :: 0 <= k < |moments| && LoggedAt(moments, k) && LastLog(moments) == moments[k]
  {
    var n := |moments| - 1;
    if LoggedAt(moments, n) {
    } else {
      assert moments[..n][..i] == moments[..i];
      SomeLogIsLast(moments[..n], i);
      var k :| 0 <= k < n && LoggedAt(moments[..n], k) && LastLog(moments[..n]) == moments[..n][k];
      assert moments[..n][..k] == moments[..k];
      assert LoggedAt(moments, k);
    }
  }

  /** `now` plus `Retry-After` is exactly the start of the next window. */
  lemma RetryAfterIsNextWindow(now: int, windowSec: int)
    requires windowSec > 0
    ensures now + (windowSec - now % windowSec) == (now / windowSec + 1) * windowSec
  {
    WindowOf(now, windowSec);
    assert (now / windowSec + 1) * windowSec == now / windowSec * windowSec + windowSec;
  }

  lemma WindowOf(now: int, windowSec: int)
    requires windowSec > 0
    ensures now == now / windowSec * windowSec + now % windowSec && 0 <= now % windowSec < windowSec
  {
  }

  // ---- whole runs ---------------------------------------------------------------------

  /** The counters and the counted requests, all of them and the admitted ones. */
  datatype State = State(counters: Counters, all: seq<Hit<string>>, admitted: seq<Hit<string>>)

  function After(s: State, h: Hit<string>, limit: nat, windowSec: int): State
    requires windowSec > 0
  {
    var key := KeyAt(h.key, h.at, windowSec);
    var counters := Incremented(s.counters, key, h.at, windowSec);
    State(counters, s.all + [h], if counters[key].count <= limit then s.admitted + [h] else s.admitted)
  }

  function Run(requests: seq<Hit<string>>, limit: nat, windowSec: int): State
    requires windowSec > 0
  {
    if requests == [] then State(map[], [], [])
    else After(Run(requests[..|requests| - 1], limit, windowSec), requests[|requests| - 1], limit, windowSec)
  }

  /** Hits of one client in one window. */
  function InWindow(log: seq<Hit<string>>, who: string, k: int, windowSec: int): nat {
    Count(log, who, k * windowSec, k * windowSec + windowSec)
  }

  function Min(a: nat, b: nat): nat {
    if a < b then a else b
  }

  /** Every counter has an expiry no earlier than its window's end, and counts
      its window's requests; the admitted ones are the first `limit` of them. */
  ghost predicate KeyOk(s: State, key: Key, limit: nat, windowSec: int) {
    var n := InWindow(s.all, key.who, key.window, windowSec);
    && (if key in s.counters then s.counters[key].count else 0) == n
    && InWindow(s.admitted, key.who, key.window, windowSec) == Min(n, limit)
    && (key in s.counters ==>
          s.counters[key].expiresAt.Some? && s.counters[key].expiresAt.value >= key.window * windowSec + windowSec)
  }

  lemma SameWindow(at: int, k: int, windowSec: int)
    requires windowSec > 0
    ensures k * windowSec <= at < k * windowSec + windowSec <==> k == at / windowSec
  {
    WindowOf(at, windowSec);
    var q := at / windowSec;
    if k < q { MulLess(k, q, windowSec); }
    if k > q { MulLess(q, k, windowSec); }
  }

  lemma {:induction false} MulLess(a: int, b: int, w: int)
    requires a < b && w > 0
    ensures a * w + w <= b * w
    decreases b - a
  {
    if a + 1 < b { MulLess(a + 1, b, w); }
    assert (a + 1) * w == a * w + w;
  }

  /** `KeyOk` with the window's bounds made plain. */
  ghost predicate CounterOk(s: State, key: Key, limit: nat, lo: int, hi: int) {
    var n := Count(s.all, key.who, lo, hi);
    && (if key in s.counters then s.counters[key].count else 0) == n
    && Count(s.admitted, key.who, lo, hi) == Min(n, limit)
    && (key in s.counters ==> s.counters[key].expiresAt.Some? && s.counters[key].expiresAt.value >= hi)
  }

  ghost predicate Counted(log: seq<Hit<string>>, h: Hit<string>, who: string, lo: int, hi: int) {
    Count(log + [h], who, lo, hi) == Count(log, who, lo, hi) + if h.key == who && lo <= h.at < hi then 1 else 0
  }

  lemma StepKeepsCounter(s: State, h: Hit<string>, key: Key, limit: nat, windowSec: int, lo: int, hi: int)
    requires windowSec > 0 && lo + windowSec == hi
    requires KeyAt(h.key, h.at, windowSec) == key <==> h.key == key.who && lo <= h.at < hi
    requires CounterOk(s, key, limit, lo, hi)
    requires Counted(s.all, h, key.who, lo, hi) && Counted(s.admitted, h, key.who, lo, hi)
    ensures CounterOk(After(s, h, limit, windowSec), key, limit, lo, hi)
  {
    hide Count, KeyAt;
  }

  lemma StepKeepsKey(s: State, h: Hit<string>, key: Key, limit: nat, windowSec: int)
    requires windowSec > 0 && KeyOk(s, key, limit, windowSec)
    ensures KeyOk(After(s, h, limit, windowSec), key, limit, windowSec)
  {
    hide Count;
    var lo, hi := key.window * windowSec, key.window * windowSec + windowSec;
    SameWindow(h.at, key.window, windowSec);
    CountAppend(s.all, h, key.who, lo, hi);
    CountAppend(s.admitted, h, key.who, lo, hi);
    StepKeepsCounter(s, h, key, limit, windowSec, lo, hi);
  }

  lemma {:induction false} RunKeepsKey(requests: seq<Hit<string>>, key: Key, limit: nat, windowSec: int)
    requires windowSec > 0
    ensures KeyOk(Run(requests, limit, windowSec), key, limit, windowSec)
  {
    if requests != [] {
      RunKeepsKey(requests[..|requests| - 1], key, limit, windowSec);
      StepKeepsKey(Run(requests[..|requests| - 1], limit, windowSec), requests[|requests| - 1], key, limit, windowSec);
    }
  }

  /** In every run each window admits exactly the first `limit` requests of a
      client, and no counter expires before its window is over. */
  lemma WindowAdmitsLimit(requests: seq<Hit<string>>, who: string, k: int, limit: nat, windowSec: int)
    requires windowSec > 0
    ensures var s := Run(requests, limit, windowSec);
      && InWindow(s.admitted, who, k, windowSec) == Min(InWindow(s.all, who, k, windowSec), limit)
      && (Key(who, k) in s.counters ==> s.counters[Key(who, k)].expiresAt.Some?)
      && (Key(who, k) in s.counters ==> Lives(s.counters, Key(who, k), k * windowSec + windowSec - 1))
  {
    RunKeepsKey(requests, Key(who, k), limit, windowSec);
  }

  /** Any interval of the window's length admits at most twice the limit. */
  lemma IntervalAdmitsTwice(requests: seq<Hit<string>>, who: string, a: int, limit: nat, windowSec: int)
    requires windowSec > 0
    ensures Count(Run(requests, limit, windowSec).admitted, who, a, a + windowSec) <= 2 * limit
  {
    var admitted := Run(requests, limit, windowSec).admitted;
    var k := a / windowSec;
    WindowOf(a, windowSec);
    var mid := k * windowSec + windowSec;
    assert (k + 1) * windowSec == mid;
    WindowAdmitsLimit(requests, who, k, limit, windowSec);
    WindowAdmitsLimit(requests, who, k + 1, limit, windowSec);
    CountSplit(admitted, who, a, mid, a + windowSec);
    CountWithin(admitted, who, a, mid, k * windowSec, mid);
    CountWithin(admitted, who, mid, a + windowSec, mid, mid + windowSec);
  }

  lemma {:induction false} RunKeepsAll(requests: seq<Hit<string>>, limit: nat, windowSec: int)
    requires windowSec > 0
    ensures Run(requests, limit, windowSec).all == requests
  {
    if requests != [] {
      RunKeepsAll(requests[..|requests| - 1], limit, windowSec);
    }
  }

  /** A request whose window has none yet is admitted. */
  lemma FirstInWindow(requests: seq<Hit<string>>, next: Hit<string>, k: int, limit: nat, windowSec: int)
    requires windowSec > 0 && limit > 0 && KeyAt(next.key, next.at, windowSec) == Key(next.key, k)
    requires InWindow(Run(requests, limit, windowSec).all, next.key, k, windowSec) == 0
    ensures Run(requests + [next], limit, windowSec).admitted == Run(requests, limit, windowSec).admitted + [next]
  {
    hide KeyAt, InWindow, Lives;
    var s := Run(requests, limit, windowSec);
    RunKeepsKey(requests, Key(next.key, k), limit, windowSec);
    assert (requests + [next])[..|requests|] == requests;
    hide Run;
    FirstCounts(s.counters, Key(next.key, k), next.at, windowSec);
  }

  lemma FirstCounts(counters: Counters, key: Key, now: int, windowSec: int)
    ensures Incremented(counters, key, now, windowSec)[key].count
      <= 1 + if key in counters then counters[key].count else 0
  {
  }

  /** The second named by `Retry-After` is the first of the next window. */
  lemma NextWindow(now: int, windowSec: int)
    requires windowSec > 0
    ensures var k := now / windowSec + 1;
      && now + (windowSec - now % windowSec) == k * windowSec && now < k * windowSec && k * windowSec / windowSec == k
  {
    RetryAfterIsNextWindow(now, windowSec);
    WindowOf(now, windowSec);
    SameWindow((now / windowSec + 1) * windowSec, now / windowSec + 1, windowSec);
  }

  /** A client turned away who waits for `Retry-After` seconds is admitted. */
  lemma WaitingIsAdmitted(requests: seq<Hit<string>>, who: string, now: int, limit: nat, windowSec: int)
    requires windowSec > 0 && limit > 0
    requires forall i :: 0 <= i < |requests| ==> requests[i].at <= now
    ensures var next := Hit(who, now + (windowSec - now % windowSec));
      Run(requests + [next], limit, windowSec).admitted == Run(requests, limit, windowSec).admitted + [next]
  {
    hide Run, Count;
    NextWindow(now, windowSec);
    var k := now / windowSec + 1;
    var start := k * windowSec;
    RunKeepsAll(requests, limit, windowSec);
    CountNone(requests, who, start, start + windowSec);
    FirstInWindow(requests, Hit(who, start), k, limit, windowSec);
  }
}
