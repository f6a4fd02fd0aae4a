/** The two-key quota script of the verification codes:
    apps/api/src/modules/auth/otp-delivery.ts. Clock readings are seconds. */
module OtpQuota {
  import opened OrderedMap
  import opened Tally

  const WINDOW: int := 900

  datatype Key = Recipient(to: string) | Source(ip: string)

  function Quota(key: Key): nat {
    if key.Recipient? then 5 else 20
  }

  /** A counter and the moment its window opened; it lives for 900 s. */
  datatype Counter = Counter(count: nat, since: int)

  type Counters = map<Key, Counter>

  /** `tonumber(redis.call('GET', key) or '0')`. */
  function Value(counters: Counters, key: Key, now: int): nat {
    if key in counters && now < counters[key].since + WINDOW then counters[key].count else 0
  }

  /** `INCR`, and `EXPIRE` on the first. */
  function Bumped(counters: Counters, key: Key, now: int): Counters {
    if Value(counters, key, now) > 0 then counters[key := counters[key].(count := counters[key].count + 1)]
    else counters[key := Counter(1, now)]
  }

  datatype Send = Send(to: string, ip: Option<string>, at: int)

  function Keys(s: Send): (keys: seq<Key>)
    ensures 1 <= |keys| <= 2 && keys[0].Recipient? && (|keys| == 2 ==> keys[1].Source?)
  {
    [Recipient(s.to)] + if s.ip.Some? then [Source(s.ip.value)] else []
  }

  predicate Allowed(counters: Counters, s: Send) {
    && Value(counters, Recipient(s.to), s.at) < 5
    && (s.ip.Some? ==> Value(counters, Source(s.ip.value), s.at) < 20)
  }

  function BumpAll(counters: Counters, keys: seq<Key>, now: int): Counters {
    if keys == [] then counters else Bumped(BumpAll(counters, keys[..|keys| - 1], now), keys[|keys| - 1], now)
  }

  class OtpCounters {
    var counters: Counters

    constructor ()
      ensures counters == map[]
    {
      counters := map[];
    }

    /** The script; a rejected call changes nothing. */
    method Eval(keys: seq<Key>, now: int) returns (allowed: bool)
      requires 1 <= |keys| <= 2
      modifies this
      ensures allowed ==
        (Value(old(counters), keys[0], now) < 5 && (|keys| > 1 ==> Value(old(counters), keys[1], now) < 20))
      ensures counters == if allowed then BumpAll(old(counters), keys, now) else old(counters)
    {
      if Value(counters, keys[0], now) >= 5 { return false; }
      if |keys| > 1 && Value(counters, keys[1], now) >= 20 { return false; }
      for i := 0 to |keys|
        invariant counters == BumpAll(old(counters), keys[..i], now)
      {
        assert keys[..i + 1][..i] == keys[..i];
        counters := Bumped(counters, keys[i], now);
      }
      assert keys[..|keys|] == keys;
      allowed := true;
    }
  }

  // ---- whole runs -----------------------------------------------------------------------

  /** The counters, and a hit on each key of every accepted send. */
  datatype State = State(counters: Counters, hits: seq<Hit<Key>>)

  function HitAll(s: State, keys: seq<Key>, now: int): State {
    if keys == [] then s
    else
      var t := HitAll(s, keys[..|keys| - 1], now);
      var key := keys[|keys| - 1];
      State(Bumped(t.counters, key, now), t.hits + [Hit(key, now)])
  }

  function After(s: State, send: Send): State {
    if Allowed(s.counters, send) then HitAll(s, Keys(send), send.at) else s
  }

  function Run(sends: seq<Send>): State {
    if sends == [] then State(map[], []) else After(Run(sends[..|sends| - 1]), sends[|sends| - 1])
  }

  ghost predicate InOrder(sends: seq<Send>) {
    forall i, j :: 0 <= i < j < |sends| ==> sends[i].at <= sends[j].at
  }

  /** No 900 s hold more than twice the quota. */
  ghost predicate Spread(hits: seq<Hit<Key>>, key: Key) {
    forall a, b :: b == a + WINDOW ==> Count(hits, key, a, b) <= 2 * Quota(key)
  }

  /** None came at or after a moment. */
  ghost predicate NoneFrom(hits: seq<Hit<Key>>, key: Key, at: int) {
    forall lo, hi :: at <= lo ==> Count(hits, key, lo, hi) == 0
  }

  /** At most the quota came in the 900 s before a moment. */
  ghost predicate QuietBefore(hits: seq<Hit<Key>>, key: Key, at: int) {
    forall x :: at - WINDOW <= x ==> Count(hits, key, x, at) <= Quota(key)
  }

  /** A counter equals the accepted sends since its window opened and is within
      the quota; so were the accepted sends of the 900 s before it opened; none
      came after it closed; and no 900 s accepted more than twice the quota. */
  ghost predicate KeyOk(s: State, key: Key, now: int) {
    && (key !in s.counters ==> forall lo, hi :: Count(s.hits, key, lo, hi) == 0)
    && (key in s.counters ==>
          var c := s.counters[key];
          && c.since <= now && 1 <= c.count <= Quota(key)
          && c.count == Count(s.hits, key, c.since, c.since + WINDOW)
          && NoneFrom(s.hits, key, c.since + WINDOW)
          && QuietBefore(s.hits, key, c.since))
    && Spread(s.hits, key)
  }

  ghost predicate Ok(s: State, now: int) {
    forall key :: KeyOk(s, key, now)
  }

  function Hit1(s: State, key: Key, now: int): State {
    State(Bumped(s.counters, key, now), s.hits + [Hit(key, now)])
  }

  /** What a hit adds to a count. */
  function One(hit: Key, now: int, key: Key, lo: int, hi: int): nat {
    if hit == key && lo <= now < hi then 1 else 0
  }

  lemma HitCounts(s: State, hit: Key, key: Key, now: int)
    ensures var hits := Hit1(s, hit, now).hits;
      forall lo, hi :: Count(hits, key, lo, hi) == Count(s.hits, key, lo, hi) + One(hit, now, key, lo, hi)
  {
    hide Count;
    forall lo, hi
      ensures Count(Hit1(s, hit, now).hits, key, lo, hi) == Count(s.hits, key, lo, hi) + One(hit, now, key, lo, hi)
    {
      CountAppend(s.hits, Hit(hit, now), key, lo, hi);
    }
  }

  lemma HitKeepsOther(s: State, hit: Key, key: Key, now: int)
    requires KeyOk(s, key, now) && hit != key
    ensures KeyOk(Hit1(s, hit, now), key, now)
  {
    hide Count;
    HitCounts(s, hit, key, now);
  }

  /** An interval that reaches into a window holds at most its hits and those of the 900 s before it. */
  lemma IntervalInWindow(hits: seq<Hit<Key>>, key: Key, a: int, now: int, since: int)
    requires a <= now < a + WINDOW && since <= now < since + WINDOW
    requires Count(hits, key, since, since + WINDOW) <= Quota(key)
    requires Count(hits, key, since + WINDOW, a + WINDOW) == 0
    requires a <= since ==> Count(hits, key, a, since) <= Quota(key)
    ensures Count(hits, key, a, a + WINDOW) <= 2 * Quota(key)
  {
    hide Count;
    if a <= since {
      CountSplit(hits, key, a, since, a + WINDOW);
      CountWithin(hits, key, since, a + WINDOW, since, since + WINDOW);
    } else {
      CountSplit(hits, key, a, since + WINDOW, a + WINDOW);
      CountWithin(hits, key, a, since + WINDOW, since, since + WINDOW);
    }
  }

  /** A hit inside a window that is not full. */
  lemma HitInWindow(s: State, key: Key, now: int)
    requires KeyOk(s, key, now) && 0 < Value(s.counters, key, now) < Quota(key)
    ensures KeyOk(Hit1(s, key, now), key, now)
  {
    hide Count;
    HitCounts(s, key, key, now);
    var t := Hit1(s, key, now);
    forall a, b | b == a + WINDOW ensures Count(t.hits, key, a, b) <= 2 * Quota(key) {
      if a <= now < b { IntervalInWindow(t.hits, key, a, now, s.counters[key].since); }
    }
  }

  /** Before a window opens: what is left of the last 900 s, and nothing at this moment. */
  lemma BeforeWindow(s: State, key: Key, now: int)
    requires KeyOk(s, key, now) && Value(s.counters, key, now) == 0
    ensures QuietBefore(s.hits, key, now) && NoneFrom(s.hits, key, now)
  {
    hide Count;
    if key in s.counters {
      var since := s.counters[key].since;
      forall x | now - WINDOW <= x ensures Count(s.hits, key, x, now) <= Quota(key) {
        if x <= now {
          CountWithin(s.hits, key, x, now, since, now);
          CountSplit(s.hits, key, since, since + WINDOW, now);
        } else {
          CountNone(s.hits, key, x, now);
        }
      }
      forall lo, hi | now <= lo ensures Count(s.hits, key, lo, hi) == 0 {
        if lo <= hi { CountWithin(s.hits, key, lo, hi, since + WINDOW, hi); } else { CountNone(s.hits, key, lo, hi); }
      }
    }
  }

  /** The first hit of a new window. */
  lemma HitOpensWindow(s: State, key: Key, now: int)
    requires KeyOk(s, key, now) && Value(s.counters, key, now) == 0
    ensures KeyOk(Hit1(s, key, now), key, now)
  {
    hide Count;
    HitCounts(s, key, key, now);
    BeforeWindow(s, key, now);
    var t := Hit1(s, key, now);
    forall a, b | b == a + WINDOW ensures Count(t.hits, key, a, b) <= 2 * Quota(key) {
      if a <= now < b { IntervalInWindow(t.hits, key, a, now, now); }
    }
  }

  lemma HitKeepsOk(s: State, hit: Key, now: int)
    requires Ok(s, now) && Value(s.counters, hit, now) < Quota(hit)
    ensures Ok(Hit1(s, hit, now), now)
  {
    hide KeyOk;
    forall key ensures KeyOk(Hit1(s, hit, now), key, now) {
      assert KeyOk(s, key, now);
      if key != hit { HitKeepsOther(s, hit, key, now); }
      else if Value(s.counters, hit, now) == 0 { HitOpensWindow(s, hit, now); }
      else { HitInWindow(s, hit, now); }
    }
  }

  lemma LaterStaysOk(s: State, now: int, later: int)
    requires Ok(s, now) && now <= later
    ensures Ok(s, later)
  {
    hide Count;
    forall key ensures KeyOk(s, key, later) {
      assert KeyOk(s, key, now);
    }
  }

  lemma HitBoth(s: State, send: Send)
    ensures HitAll(s, Keys(send), send.at) == if send.ip.None? then Hit1(s, Recipient(send.to), send.at)
      else Hit1(Hit1(s, Recipient(send.to), send.at), Source(send.ip.value), send.at)
  {
    var keys := Keys(send);
    assert keys[..1] == [Recipient(send.to)];
    assert HitAll(s, [Recipient(send.to)], send.at) == Hit1(s, Recipient(send.to), send.at);
  }

  lemma SendKeepsOk(s: State, send: Send)
    requires Ok(s, send.at)
    ensures Ok(After(s, send), send.at)
  {
    hide Ok;
    HitBoth(s, send);
    if Allowed(s.counters, send) {
      var t := Hit1(s, Recipient(send.to), send.at);
      HitKeepsOk(s, Recipient(send.to), send.at);
      if send.ip.Some? { HitKeepsOk(t, Source(send.ip.value), send.at); }
    }
  }

  /** The script's counters are the run's: the two loops do the same. */
  lemma {:induction false} ScriptIsTheRun(s: State, keys: seq<Key>, now: int)
    ensures HitAll(s, keys, now).counters == BumpAll(s.counters, keys, now)
  {
    if keys != [] { ScriptIsTheRun(s, keys[..|keys| - 1], now); }
  }

  lemma {:induction false} RunIsOk(sends: seq<Send>, now: int)
    requires InOrder(sends) && forall i :: 0 <= i < |sends| ==> sends[i].at <= now
    ensures Ok(Run(sends), now)
  {
    if sends != [] {
      var n := |sends| - 1;
      RunIsOk(sends[..n], sends[n].at);
      SendKeepsOk(Run(sends[..n]), sends[n]);
      LaterStaysOk(Run(sends), sends[n].at, now);
    }
  }

  /** In every run: a live counter equals the accepted sends since its window
      opened, at most 5 for a recipient and 20 for a source; and no 900 s accept
      more than twice that. */
  lemma QuotaHolds(sends: seq<Send>, now: int, key: Key, a: int)
    requires InOrder(sends) && forall i :: 0 <= i < |sends| ==> sends[i].at <= now
    ensures Count(Run(sends).hits, key, a, a + 900) <= if key.Recipient? then 10 else 40
    ensures Value(Run(sends).counters, key, now) <= if key.Recipient? then 5 else 20
    ensures Value(Run(sends).counters, key, now) > 0 ==>
      var since := Run(sends).counters[key].since;
      && now < since + 900
      && Value(Run(sends).counters, key, now) == Count(Run(sends).hits, key, since, since + 900)
  {
    RunIsOk(sends, now);
    hide Count;
    assert KeyOk(Run(sends), key, now);
  }

  /** The window that is open at this moment has accepted the whole quota. */
  ghost predicate Full(s: State, key: Key, now: int) {
    && key in s.counters
    && var since := s.counters[key].since;
      now < since + 900 && Count(s.hits, key, since, since + 900) == if key.Recipient? then 5 else 20
  }

  /** A send is refused, and then changes nothing, exactly when the recipient or
      the source has used up its window; otherwise each of its keys takes a hit. */
  lemma RefusedIffFull(sends: seq<Send>, send: Send)
    requires InOrder(sends + [send])
    ensures var s := Run(sends);
      var refused := exists key :: key in Keys(send) && Full(s, key, send.at);
      Run(sends + [send]) == if refused then s else HitAll(s, Keys(send), send.at)
  {
    assert (sends + [send])[..|sends|] == sends;
    forall i, j | 0 <= i < j < |sends| ensures sends[i].at <= sends[j].at {
      assert (sends + [send])[i] == sends[i] && (sends + [send])[j] == sends[j];
    }
    forall i | 0 <= i < |sends| ensures sends[i].at <= send.at {
      assert (sends + [send])[i] == sends[i] && (sends + [send])[|sends|] == send;
    }
    RunIsOk(sends, send.at);
    AllowedIffNoneFull(Run(sends), send);
  }

  lemma AllowedIffNoneFull(s: State, send: Send)
    requires Ok(s, send.at)
    ensures Allowed(s.counters, send) <==> !exists key :: key in Keys(send) && Full(s, key, send.at)
  {
    hide Count;
    forall key ensures Full(s, key, send.at) <==> Value(s.counters, key, send.at) >= Quota(key) {
      assert KeyOk(s, key, send.at);
    }
    hide Full, Ok, KeyOk;
    assert Keys(send)[0] == Recipient(send.to);
    if send.ip.Some? { assert Keys(send)[1] == Source(send.ip.value); }
  }
}
