/** The inactivity hook of one browser tab: apps/web/src/lib/idle-timeout.ts.
    Times are milliseconds. */
module IdleTab {
  import opened OrderedMap
  import opened Sessions

  const IDLE_WARNING: int := 60_000
  const ACTIVITY_SIGNAL: int := 30_000

  datatype Message = ActivityMsg(at: int) | ExpiredMsg

  /** The hook's variables; `trailing` is when its one-shot timer fires. */
  datatype Tab = Tab(lastActivity: int, lastSignal: int, trailing: Option<int>, warning: bool, expired: bool)

  // ---- what each handler does to the variables ---------------------------------------

  function Signalled(t: Tab, now: int): Tab {
    t.(trailing := None, lastSignal := now, lastActivity := now)
  }

  function Ticked(t: Tab, now: int): Tab {
    var left := t.lastActivity + IDLE_TIMEOUT - now;
    if left <= 0 then t.(expired := true) else t.(warning := left <= IDLE_WARNING)
  }

  /** An interaction counts outside the warning; it signals at once or arms the timer. */
  predicate Counts(t: Tab) {
    !t.warning && !t.expired
  }

  predicate SignalsAtOnce(t: Tab, now: int) {
    Counts(t) && now - t.lastSignal >= ACTIVITY_SIGNAL
  }

  function Interacted(t: Tab, now: int): Tab {
    if !Counts(t) then t
    else if SignalsAtOnce(t, now) then Signalled(t, now)
    else if t.trailing.None? then t.(trailing := Some(now + (ACTIVITY_SIGNAL - (now - t.lastSignal))))
    else t
  }

  function Max(a: int, b: int): int {
    if a < b then b else a
  }

  function Heard(t: Tab, m: Message, now: int): Tab {
    match m
    case ExpiredMsg => t.(expired := true)
    case ActivityMsg(at) =>
      Ticked(t.(lastActivity := Max(t.lastActivity, at), lastSignal := Max(t.lastSignal, at)), now)
  }

  function Stayed(t: Tab, now: int): Tab {
    Ticked(Signalled(t.(warning := false), now), now)
  }

  // ---- the hook -------------------------------------------------------------------------

  /** The closure of one mounted hook. `sent` collects what it posts to the
      channel, `posts` counts its activity requests to the API. */
  class IdleHook {
    var lastActivity: int
    var lastSignal: int
    var trailing: Option<int>
    var warning: bool
    var expired: bool
    var sent: seq<Message>
    var posts: nat

    function Value(): Tab
      reads this
    {
      Tab(lastActivity, lastSignal, trailing, warning, expired)
    }

    /** Mounting is itself activity. */
    constructor (now: int)
      ensures Value() == Signalled(Tab(now, 0, None, false, false), now)
      ensures sent == [ActivityMsg(now)] && posts == 1
    {
      lastActivity, lastSignal, trailing, warning, expired, sent, posts := now, 0, None, false, false, [], 0;
      new;
      Signal(now);
    }

    method Expire(broadcast: bool)
      modifies this
      ensures Value() == old(Value()).(expired := true)
      ensures sent == if broadcast && !old(expired) then old(sent) + [ExpiredMsg] else old(sent)
      ensures posts == old(posts)
    {
      if expired { return; }
      expired := true;
      if broadcast { sent := sent + [ExpiredMsg]; }
    }

    method Signal(now: int)
      modifies this
      ensures Value() == Signalled(old(Value()), now)
      ensures sent == old(sent) + [ActivityMsg(now)] && posts == old(posts) + 1
    {
      trailing := None;
      lastSignal := now;
      lastActivity := now;
      sent := sent + [ActivityMsg(lastActivity)];
      posts := posts + 1;
    }

    /** The API's answer to an activity request. */
    method OnResponse(status: nat)
      modifies this
      ensures Value() == if status == 401 then old(Value()).(expired := true) else old(Value())
      ensures sent == if status == 401 && !old(expired) then old(sent) + [ExpiredMsg] else old(sent)
      ensures posts == old(posts)
    {
      if status == 401 { Expire(true); }
    }

    method Tick(now: int)
      modifies this
      ensures Value() == Ticked(old(Value()), now)
      ensures expired == (old(expired) || now - old(lastActivity) >= 600_000)
      ensures now - old(lastActivity) < 600_000 ==> warning == (now - old(lastActivity) >= 540_000)
      ensures sent ==
        if now - old(lastActivity) >= 600_000 && !old(expired) then old(sent) + [ExpiredMsg] else old(sent)
      ensures posts == old(posts)
    {
      var left := lastActivity + IDLE_TIMEOUT - now;
      if left <= 0 {
        Expire(true);
        return;
      }
      warning := left <= IDLE_WARNING;
    }

    method Interact(now: int)
      modifies this
      ensures Value() == Interacted(old(Value()), now)
      ensures old(warning) || old(expired) ==>
        Value() == old(Value()) && sent == old(sent) && posts == old(posts)
      ensures posts == old(posts) + if SignalsAtOnce(old(Value()), now) then 1 else 0
      ensures sent == if SignalsAtOnce(old(Value()), now) then old(sent) + [ActivityMsg(now)] else old(sent)
    {
      if warning || expired { return; }
      var since := now - lastSignal;
      if since >= ACTIVITY_SIGNAL {
        Signal(now);
      } else if trailing.None? {
        trailing := Some(now + (ACTIVITY_SIGNAL - since));
      }
    }

    method OnMessage(m: Message, now: int)
      modifies this
      ensures Value() == Heard(old(Value()), m, now)
      ensures posts == old(posts)
      ensures m.ActivityMsg? ==> lastActivity == Max(old(lastActivity), m.at)
      ensures sent == if m.ActivityMsg? && now - lastActivity >= 600_000 && !old(expired)
        then old(sent) + [ExpiredMsg] else old(sent)
    {
      match m {
        case ExpiredMsg =>
          Expire(false);
        case ActivityMsg(at) =>
          lastActivity := Max(lastActivity, at);
          lastSignal := Max(lastSignal, at);
          Tick(now);
      }
    }

    method Stay(now: int)
      modifies this
      ensures Value() == Stayed(old(Value()), now)
      ensures sent == old(sent) + [ActivityMsg(now)] && posts == old(posts) + 1
    {
      warning := false;
      Signal(now);
      Tick(now);
    }
  }
}
