/** Several tabs, the channel between them and the server session, with one
    clock. Messages arrive late and in any order; timers fire on time; a tab
    that has been signed out only leaves the page. */
module IdleProtocol {
  import opened OrderedMap
  import opened Sessions
  import opened IdleTab

  /** A tab, the messages it was not there for (`joined`) or has dealt with
      (`seen`), the earliest interaction it accepted and has not signalled, and
      the latest sign of the user it knows of. */
  datatype Client = Client(tab: Tab, joined: nat, seen: set<nat>, unsignalled: Option<int>, heard: int)

  /** `channel` is everything ever posted to the broadcast channel. */
  datatype World = World(
    now: int,
    clients: map<nat, Client>,
    channel: seq<Message>,
    session: Cell,
    lastAccepted: int,
    signedOut: bool,
    lost: bool)

  datatype Action =
    | Advance(to: int)
    | Open(t: nat, online: bool)
    | Interact(t: nat, online: bool)
    | Fire(t: nat, online: bool)
    | Tick(t: nat)
    | Deliver(t: nat, k: nat)
    | Stay(t: nat, online: bool)
    | Close(t: nat)
    | Poll
    | SignOut

  predicate Live(w: World, t: nat) {
    t in w.clients && !w.clients[t].tab.expired
  }

  /** Message `k` has yet to reach the tab. */
  predicate Awaits(channel: seq<Message>, c: Client, k: int) {
    c.joined <= k < |channel| && k !in c.seen
  }

  ghost predicate Enabled(w: World, a: Action) {
    match a
    case Advance(to) =>
      w.now <= to && forall t :: Live(w, t) && w.clients[t].tab.trailing.Some? ==> to <= w.clients[t].tab.trailing.value
    case Open(t, _) => t !in w.clients
    case Interact(t, _) => Live(w, t)
    case Fire(t, _) => Live(w, t) && w.clients[t].tab.trailing == Some(w.now)
    case Tick(t) => Live(w, t)
    case Deliver(t, k) => Live(w, t) && Awaits(w.channel, w.clients[t], k)
    case Stay(t, _) => Live(w, t)
    case Close(t) => t in w.clients
    case Poll => true
    case SignOut => true
  }

  /** Tab `t` becomes `c` and posts a message, which it does not get itself. */
  function Post(w: World, t: nat, c: Client, m: Message): World {
    w.(clients := w.clients[t := c.(seen := c.seen + {|w.channel|})], channel := w.channel + [m])
  }

  function SignalledClient(c: Client, now: int): Client {
    c.(tab := Signalled(c.tab, now), unsignalled := None, heard := Max(c.heard, now))
  }

  function Expired(c: Client): Client {
    c.(tab := c.tab.(expired := true))
  }

  /** A signal of tab `t` and its activity request, which is lost offline,
      accepted, or refused with a 401 that expires the tab. */
  function Signal(w: World, t: nat, c: Client, online: bool): World {
    var v := Post(w, t, SignalledClient(c, w.now), ActivityMsg(w.now));
    if !online then v.(lost := true)
    else if Accepts(w.session, w.now) then
      v.(session := Some(w.session.value.(lastActivityAt := w.now)), lastAccepted := w.now)
    else Post(v, t, Expired(v.clients[t]), ExpiredMsg).(session := None)
  }

  /** Tab `t`, being `c`, ticks; if that expires it, it tells the others. */
  function TickTab(w: World, t: nat, c: Client): World {
    if Ticked(c.tab, w.now).expired then Post(w, t, Expired(c), ExpiredMsg)
    else w.(clients := w.clients[t := c.(tab := Ticked(c.tab, w.now))])
  }

  /** The variables after an activity message, before the tick that follows. */
  function HeardClient(c: Client, k: nat, at: int): Client {
    c.(tab := c.tab.(lastActivity := Max(c.tab.lastActivity, at), lastSignal := Max(c.tab.lastSignal, at)),
       seen := c.seen + {k}, heard := Max(c.heard, at))
  }

  function Armed(c: Client, now: int): Client {
    c.(tab := Interacted(c.tab, now), heard := now,
       unsignalled := if c.unsignalled.Some? then c.unsignalled else Some(now))
  }

  function Next(w: World, a: Action): World
    requires Enabled(w, a)
  {
    match a
    case Advance(to) => w.(now := to)
    case Open(t, online) =>
      Signal(w, t, Client(Tab(w.now, 0, None, false, false), |w.channel|, {}, None, w.now), online)
    case Interact(t, online) =>
      var c := w.clients[t];
      if !Counts(c.tab) then w
      else if SignalsAtOnce(c.tab, w.now) then Signal(w, t, c, online)
      else w.(clients := w.clients[t := Armed(c, w.now)])
    case Fire(t, online) => Signal(w, t, w.clients[t], online)
    case Tick(t) => TickTab(w, t, w.clients[t])
    case Deliver(t, k) =>
      var c := w.clients[t];
      if w.channel[k].ExpiredMsg? then w.(clients := w.clients[t := Expired(c).(seen := c.seen + {k})])
      else TickTab(w, t, HeardClient(c, k, w.channel[k].at))
    case Stay(t, online) =>
      var c := w.clients[t];
      var v := Signal(w, t, c.(tab := c.tab.(warning := false)), online);
      if Live(v, t) then TickTab(v, t, v.clients[t]) else v
    case Close(t) => w.(clients := w.clients - {t})
    case Poll =>
      // `find`: an idle session is deleted, activity is never recorded.
      if w.session.Some? && IsIdle(w.session.value, w.now) then w.(session := None) else w
    case SignOut => w.(session := None, signedOut := true)
  }

  /** The handlers the world runs are the hook's, up to the end a refused request brings. */
  lemma TickIsTheHooks(w: World, t: nat)
    requires Live(w, t)
    ensures Next(w, Tick(t)).clients[t].tab == Ticked(w.clients[t].tab, w.now)
  {
  }

  lemma InteractIsTheHooks(w: World, t: nat, online: bool)
    requires Live(w, t)
    ensures Next(w, Interact(t, online)).clients[t].tab.(expired := false) == Interacted(w.clients[t].tab, w.now)
  {
  }

  lemma DeliverIsTheHooks(w: World, t: nat, k: nat)
    requires Enabled(w, Deliver(t, k))
    ensures Next(w, Deliver(t, k)).clients[t].tab == Heard(w.clients[t].tab, w.channel[k], w.now)
  {
  }

  lemma StayIsTheHooks(w: World, t: nat, online: bool)
    requires Live(w, t)
    ensures Next(w, Stay(t, online)).clients[t].tab.(expired := false) == Stayed(w.clients[t].tab, w.now)
  {
  }

  // ---- every accepted interaction is signalled within 30 s ------------------------------------

  /** What holds of every live tab's timer and activity. */
  ghost predicate TabOk(now: int, c: Client) {
    !c.tab.expired ==>
      && c.tab.lastActivity == c.tab.lastSignal <= now
      && c.heard <= now
      && (c.tab.trailing.Some? ==> now <= c.tab.trailing.value <= c.tab.lastSignal + ACTIVITY_SIGNAL)
      && (c.unsignalled.Some? ==> c.tab.trailing.Some? && c.tab.trailing.value <= c.unsignalled.value + ACTIVITY_SIGNAL)
      && (c.unsignalled.None? ==> c.heard <= c.tab.lastActivity)
  }

  /** A tab has dealt with no message that was not posted. */
  ghost predicate SeenOk(n: nat, c: Client) {
    c.joined <= n && forall k :: k in c.seen ==> k < n
  }

  ghost predicate NoneLater(channel: seq<Message>, now: int) {
    forall k :: 0 <= k < |channel| && channel[k].ActivityMsg? ==> channel[k].at <= now
  }

  ghost predicate TabsOk(w: World) {
    && NoneLater(w.channel, w.now)
    && forall t :: t in w.clients ==> TabOk(w.now, w.clients[t]) && SeenOk(|w.channel|, w.clients[t])
  }

  lemma PostKeepsTabs(w: World, t: nat, c: Client, m: Message)
    requires TabsOk(w) && TabOk(w.now, c) && SeenOk(|w.channel|, c) && (m.ActivityMsg? ==> m.at <= w.now)
    ensures TabsOk(Post(w, t, c, m))
  {
    hide TabOk;
    assert TabOk(w.now, c.(seen := c.seen + {|w.channel|})) by { TabOkIgnoresSeen(w.now, c, c.seen + {|w.channel|}); }
  }

  lemma TabOkIgnoresSeen(now: int, c: Client, seen: set<nat>)
    ensures TabOk(now, c.(seen := seen)) == TabOk(now, c)
  {
  }

  lemma SignalKeepsTabs(w: World, t: nat, c: Client, online: bool)
    requires TabsOk(w) && SeenOk(|w.channel|, c) && c.heard <= w.now
    ensures TabsOk(Signal(w, t, c, online))
    ensures t in Signal(w, t, c, online).clients && Signal(w, t, c, online).now == w.now
  {
    var signalled := SignalledClient(c, w.now);
    assert TabOk(w.now, signalled);
    PostKeepsTabs(w, t, signalled, ActivityMsg(w.now));
    var v := Post(w, t, signalled, ActivityMsg(w.now));
    PostKeepsTabs(v, t, Expired(v.clients[t]), ExpiredMsg);
  }

  lemma TickKeepsTabs(w: World, t: nat, c: Client)
    requires TabsOk(w) && TabOk(w.now, c) && SeenOk(|w.channel|, c)
    ensures TabsOk(TickTab(w, t, c))
  {
    PostKeepsTabs(w, t, Expired(c), ExpiredMsg);
  }

  lemma StepKeepsTabs(w: World, a: Action)
    requires TabsOk(w) && Enabled(w, a)
    ensures TabsOk(Next(w, a))
  {
    hide Signal, TickTab, NoneLater;
    match a
    case Advance(to) => AdvanceKeepsTabs(w, to);
    case Open(t, online) =>
      SignalKeepsTabs(w, t, Client(Tab(w.now, 0, None, false, false), |w.channel|, {}, None, w.now), online);
    case Interact(t, online) =>
      if SignalsAtOnce(w.clients[t].tab, w.now) { SignalKeepsTabs(w, t, w.clients[t], online); }
    case Fire(t, online) => SignalKeepsTabs(w, t, w.clients[t], online);
    case Tick(t) => TickKeepsTabs(w, t, w.clients[t]);
    case Deliver(t, k) => DeliverKeepsTabs(w, t, k);
    case Stay(t, online) =>
      var c := w.clients[t].(tab := w.clients[t].tab.(warning := false));
      SignalKeepsTabs(w, t, c, online);
      var v := Signal(w, t, c, online);
      TickKeepsTabs(v, t, v.clients[t]);
    case Close(_) =>
    case Poll =>
    case SignOut =>
  }

  lemma DeliverKeepsTabs(w: World, t: nat, k: nat)
    requires TabsOk(w) && Enabled(w, Deliver(t, k))
    ensures TabsOk(Next(w, Deliver(t, k)))
  {
    if w.channel[k].ActivityMsg? {
      TickKeepsTabs(w, t, HeardClient(w.clients[t], k, w.channel[k].at));
    }
  }

  lemma AdvanceKeepsTabs(w: World, to: int)
    requires TabsOk(w) && Enabled(w, Advance(to))
    ensures TabsOk(Next(w, Advance(to)))
  {
    forall t | t in w.clients ensures TabOk(to, w.clients[t]) {
      assert TabOk(w.now, w.clients[t]);
      assert Live(w, t) && w.clients[t].tab.trailing.Some? ==> to <= w.clients[t].tab.trailing.value;
    }
  }

  // ---- the server never trails a tab -----------------------------------------------------------

  /** A notice of the end awaits the tab. */
  ghost predicate Told(channel: seq<Message>, c: Client) {
    exists k :: Awaits(channel, c, k) && channel[k].ExpiredMsg?
  }

  /** Nothing the tab knows, or is about to hear, is later than `l`. */
  ghost predicate NotAhead(channel: seq<Message>, c: Client, l: int) {
    c.tab.lastActivity <= l && forall k :: Awaits(channel, c, k) && channel[k].ActivityMsg? ==> channel[k].at <= l
  }

  ghost predicate Behind(channel: seq<Message>, c: Client, l: int) {
    c.tab.expired || Told(channel, c) || NotAhead(channel, c, l)
  }

  ghost predicate AllBehind(w: World, l: int) {
    forall t :: t in w.clients ==> Behind(w.channel, w.clients[t], l)
  }

  /** Nothing was lost, nobody signed out and the session's term is not over. */
  predicate Undisturbed(w: World, expiresAt: int) {
    !w.lost && !w.signedOut && w.now < expiresAt
  }

  /** While undisturbed: a missing session had been idle for the whole timeout,
      and a tab is ahead of the server's last activity only if it was signed
      out or a notice of the end awaits it. */
  ghost predicate ServerLeads(w: World, expiresAt: int) {
    w.lastAccepted <= w.now &&
    (Undisturbed(w, expiresAt) ==>
      && (w.session.Some? ==> w.session.value.lastActivityAt == w.lastAccepted)
      && (w.session.Some? ==> w.session.value.expiresAt == expiresAt)
      && (w.session.None? ==> w.now - w.lastAccepted >= IDLE_TIMEOUT)
      && AllBehind(w, w.lastAccepted))
  }

  lemma AllBehindNow(w: World)
    requires TabsOk(w)
    ensures AllBehind(w, w.now)
  {
    forall t | t in w.clients ensures Behind(w.channel, w.clients[t], w.now) {
      assert TabOk(w.now, w.clients[t]);
    }
  }

  /** Posting the end tells every tab but the sender. */
  lemma EndTellsAll(w: World, t: nat, c: Client, l: int)
    requires c.tab.expired && forall u :: u in w.clients ==> SeenOk(|w.channel|, w.clients[u])
    ensures AllBehind(Post(w, t, c, ExpiredMsg), l)
  {
    var v := Post(w, t, c, ExpiredMsg);
    forall u | u in v.clients && u != t ensures Told(v.channel, v.clients[u]) {
      assert SeenOk(|w.channel|, w.clients[u]);
      assert Awaits(v.channel, v.clients[u], |w.channel|) && v.channel[|w.channel|] == ExpiredMsg;
    }
  }

  lemma SignalKeepsLead(w: World, t: nat, c: Client, online: bool, expiresAt: int)
    requires ServerLeads(w, expiresAt) && TabsOk(w) && SeenOk(|w.channel|, c) && c.heard <= w.now
    ensures ServerLeads(Signal(w, t, c, online), expiresAt)
  {
    SignalKeepsTabs(w, t, c, online);
    AllBehindNow(Signal(w, t, c, online));
    var signalled := SignalledClient(c, w.now);
    assert TabOk(w.now, signalled);
    PostKeepsTabs(w, t, signalled, ActivityMsg(w.now));
    var v := Post(w, t, signalled, ActivityMsg(w.now));
    assert forall u :: u in v.clients ==> SeenOk(|v.channel|, v.clients[u]);
    EndTellsAll(v, t, Expired(v.clients[t]), w.lastAccepted);
    hide TabsOk, AllBehind, SeenOk;
  }

  lemma SetClientKeepsLead(w: World, t: nat, c: Client, expiresAt: int)
    requires ServerLeads(w, expiresAt)
    requires Undisturbed(w, expiresAt) ==> Behind(w.channel, c, w.lastAccepted)
    ensures ServerLeads(w.(clients := w.clients[t := c]), expiresAt)
  {
    hide Behind;
  }

  lemma TickKeepsLead(w: World, t: nat, c: Client, expiresAt: int)
    requires ServerLeads(w, expiresAt) && TabsOk(w)
    requires Undisturbed(w, expiresAt) ==> Behind(w.channel, c, w.lastAccepted)
    ensures ServerLeads(TickTab(w, t, c), expiresAt)
  {
    hide TabOk, SeenOk, NoneLater;
    EndTellsAll(w, t, Expired(c), w.lastAccepted);
    if !Ticked(c.tab, w.now).expired {
      SetClientKeepsLead(w, t, c.(tab := Ticked(c.tab, w.now)), expiresAt);
    }
  }

  lemma DeliverKeepsLead(w: World, t: nat, k: nat, expiresAt: int)
    requires ServerLeads(w, expiresAt) && TabsOk(w) && Enabled(w, Deliver(t, k))
    ensures ServerLeads(Next(w, Deliver(t, k)), expiresAt)
  {
    hide TickTab;
    var c := w.clients[t];
    if w.channel[k].ExpiredMsg? {
      SetClientKeepsLead(w, t, Expired(c).(seen := c.seen + {k}), expiresAt);
    } else {
      var c' := HeardClient(c, k, w.channel[k].at);
      assert Undisturbed(w, expiresAt) ==> Behind(w.channel, c, w.lastAccepted);
      if Told(w.channel, c) {
        var i :| Awaits(w.channel, c, i) && w.channel[i].ExpiredMsg?;
        assert Awaits(w.channel, c', i);
      } else if NotAhead(w.channel, c, w.lastAccepted) {
        assert NotAhead(w.channel, c', w.lastAccepted);
      }
      TickKeepsLead(w, t, c', expiresAt);
    }
  }

  lemma StepKeepsLead(w: World, a: Action, expiresAt: int)
    requires TabsOk(w) && ServerLeads(w, expiresAt) && Enabled(w, a)
    ensures ServerLeads(Next(w, a), expiresAt)
  {
    hide Signal, TickTab, NoneLater, Told, NotAhead;
    match a
    case Advance(to) =>
    case Open(t, online) =>
      SignalKeepsLead(w, t, Client(Tab(w.now, 0, None, false, false), |w.channel|, {}, None, w.now), online, expiresAt);
    case Interact(t, online) => InteractKeepsLead(w, t, online, expiresAt);
    case Fire(t, online) => SignalKeepsLead(w, t, w.clients[t], online, expiresAt);
    case Tick(t) => TickKeepsLead(w, t, w.clients[t], expiresAt);
    case Deliver(t, k) => DeliverKeepsLead(w, t, k, expiresAt);
    case Stay(t, online) => StayKeepsLead(w, t, online, expiresAt);
    case Close(_) =>
    case Poll =>
    case SignOut =>
  }

  lemma InteractKeepsLead(w: World, t: nat, online: bool, expiresAt: int)
    requires TabsOk(w) && ServerLeads(w, expiresAt) && Live(w, t)
    ensures ServerLeads(Next(w, Interact(t, online)), expiresAt)
  {
    hide Signal, NoneLater;
    var c := w.clients[t];
    assert TabOk(w.now, c);
    if SignalsAtOnce(c.tab, w.now) {
      SignalKeepsLead(w, t, c, online, expiresAt);
    } else if Counts(c.tab) {
      assert Undisturbed(w, expiresAt) ==> Behind(w.channel, c, w.lastAccepted);
      if Undisturbed(w, expiresAt) { ArmedIsBehind(w, c); }
      SetClientKeepsLead(w, t, Armed(c, w.now), expiresAt);
    }
  }

  lemma ArmedIsBehind(w: World, c: Client)
    requires Behind(w.channel, c, w.lastAccepted) && !SignalsAtOnce(c.tab, w.now)
    ensures Behind(w.channel, Armed(c, w.now), w.lastAccepted)
  {
    if Told(w.channel, c) {
      var i :| Awaits(w.channel, c, i) && w.channel[i].ExpiredMsg?;
      assert Awaits(w.channel, Armed(c, w.now), i);
    } else if NotAhead(w.channel, c, w.lastAccepted) {
      assert NotAhead(w.channel, Armed(c, w.now), w.lastAccepted);
    }
  }

  lemma StayKeepsLead(w: World, t: nat, online: bool, expiresAt: int)
    requires TabsOk(w) && ServerLeads(w, expiresAt) && Live(w, t)
    ensures ServerLeads(Next(w, Stay(t, online)), expiresAt)
  {
    assert TabOk(w.now, w.clients[t]);
    hide Signal, TickTab, NoneLater, Told, NotAhead;
    var c := w.clients[t].(tab := w.clients[t].tab.(warning := false));
    SignalKeepsLead(w, t, c, online, expiresAt);
    SignalKeepsTabs(w, t, c, online);
    var v := Signal(w, t, c, online);
    TickKeepsLead(v, t, v.clients[t], expiresAt);
  }

  // ---- whole runs ---------------------------------------------------------------------------------

  ghost predicate IsRun(worlds: seq<World>, actions: seq<Action>) {
    && |worlds| == |actions| + 1
    && forall i :: 0 <= i < |actions| ==> Enabled(worlds[i], actions[i]) && worlds[i + 1] == Next(worlds[i], actions[i])
  }

  /** A session just created, before any tab is open. */
  ghost predicate Fresh(w: World, userId: nat) {
    w == World(w.now, map[], [], Some(Created(userId, w.now)), w.now, false, false)
  }

  lemma {:induction false} RunKeeps(worlds: seq<World>, actions: seq<Action>, userId: nat, k: nat)
    requires IsRun(worlds, actions) && Fresh(worlds[0], userId) && k <= |actions|
    ensures TabsOk(worlds[k]) && ServerLeads(worlds[k], worlds[0].now + SESSION_TTL)
  {
    if k > 0 {
      RunKeeps(worlds, actions, userId, k - 1);
      StepKeepsTabs(worlds[k - 1], actions[k - 1]);
      StepKeepsLead(worlds[k - 1], actions[k - 1], worlds[0].now + SESSION_TTL);
    }
  }

  /** Every accepted interaction is signalled within 30 s: while one is still
      unsignalled in a tab that was not signed out, less time has passed, and
      the tab's timer is set for no later. */
  lemma SignalledInTime(worlds: seq<World>, actions: seq<Action>, userId: nat, k: nat, t: nat)
    requires IsRun(worlds, actions) && Fresh(worlds[0], userId) && k <= |actions|
    requires Live(worlds[k], t) && worlds[k].clients[t].unsignalled.Some?
    ensures var c := worlds[k].clients[t];
      && worlds[k].now <= c.unsignalled.value + ACTIVITY_SIGNAL
      && c.tab.trailing.Some? && worlds[k].now <= c.tab.trailing.value <= c.unsignalled.value + ACTIVITY_SIGNAL
  {
    RunKeeps(worlds, actions, userId, k);
    assert TabOk(worlds[k].now, worlds[k].clients[t]);
  }

  /** While every activity request arrives, nobody signs out and the seven days
      are not over: a tab that has just ticked without expiring has a live
      session if no notice that it ended is on its way to that tab. */
  lemma TickedTabHasSession(worlds: seq<World>, actions: seq<Action>, userId: nat, k: nat, t: nat)
    requires IsRun(worlds, actions) && Fresh(worlds[0], userId) && k <= |actions|
    requires Live(worlds[k], t) && !Ticked(worlds[k].clients[t].tab, worlds[k].now).expired
    requires Undisturbed(worlds[k], worlds[0].now + SESSION_TTL)
    requires !Told(worlds[k].channel, worlds[k].clients[t])
    ensures Found(worlds[k].session, worlds[k].now, true)
    ensures worlds[k].clients[t].tab.lastActivity <= worlds[k].session.value.lastActivityAt
  {
    RunKeeps(worlds, actions, userId, k);
    var w := worlds[k];
    assert Behind(w.channel, w.clients[t], w.lastAccepted);
  }

  // ---- exactly when a ticking tab has a session ----------------------------------------------------

  /** The action sends an activity request that reaches the server and is refused. */
  predicate Refused(w: World, a: Action) {
    && (a.Open? || a.Fire? || a.Stay? || (a.Interact? && a.t in w.clients && SignalsAtOnce(w.clients[a.t].tab, w.now)))
    && a.online && !Accepts(w.session, w.now)
  }

  ghost predicate NoneRefused(worlds: seq<World>, actions: seq<Action>, k: nat)
    requires k <= |actions| < |worlds|
  {
    forall i :: 0 <= i < k ==> !Refused(worlds[i], actions[i])
  }

  /** No message and no tab is ahead of the server's last activity. */
  ghost predicate NoneAhead(w: World) {
    && (forall k :: 0 <= k < |w.channel| && w.channel[k].ActivityMsg? ==> w.channel[k].at <= w.lastAccepted)
    && (forall t :: t in w.clients ==> w.clients[t].tab.lastActivity <= w.lastAccepted)
    && w.lastAccepted <= w.now
  }

  lemma SignalKeepsNoneAhead(w: World, t: nat, c: Client, online: bool)
    requires NoneAhead(w) && (online ==> Accepts(w.session, w.now))
    ensures Signal(w, t, c, online).lost || NoneAhead(Signal(w, t, c, online))
  {
  }

  lemma TickKeepsNoneAhead(w: World, t: nat, c: Client)
    requires NoneAhead(w) && c.tab.lastActivity <= w.lastAccepted
    ensures NoneAhead(TickTab(w, t, c))
  {
  }

  lemma StayKeepsNoneAhead(w: World, t: nat, online: bool)
    requires NoneAhead(w) && Live(w, t) && !Refused(w, Stay(t, online))
    ensures Next(w, Stay(t, online)).lost || NoneAhead(Next(w, Stay(t, online)))
  {
    var c := w.clients[t].(tab := w.clients[t].tab.(warning := false));
    SignalKeepsNoneAhead(w, t, c, online);
    var v := Signal(w, t, c, online);
    if !v.lost { TickKeepsNoneAhead(v, t, v.clients[t]); }
  }

  lemma StepKeepsNoneAhead(w: World, a: Action)
    requires NoneAhead(w) && Enabled(w, a) && !Refused(w, a)
    ensures Next(w, a).lost || NoneAhead(Next(w, a))
  {
    hide Signal, TickTab, Accepts;
    match a
    case Advance(_) =>
    case Open(t, online) =>
      SignalKeepsNoneAhead(w, t, Client(Tab(w.now, 0, None, false, false), |w.channel|, {}, None, w.now), online);
    case Interact(t, online) =>
      if SignalsAtOnce(w.clients[t].tab, w.now) { SignalKeepsNoneAhead(w, t, w.clients[t], online); }
    case Fire(t, online) => SignalKeepsNoneAhead(w, t, w.clients[t], online);
    case Tick(t) => TickKeepsNoneAhead(w, t, w.clients[t]);
    case Deliver(t, k) =>
      if w.channel[k].ActivityMsg? { TickKeepsNoneAhead(w, t, HeardClient(w.clients[t], k, w.channel[k].at)); }
    case Stay(t, online) => StayKeepsNoneAhead(w, t, online);
    case Close(_) =>
    case Poll =>
    case SignOut =>
  }

  lemma SignalForgetsNothing(w: World, t: nat, c: Client, online: bool)
    ensures var v := Signal(w, t, c, online);
      && v.now == w.now && (w.lost ==> v.lost) && v.signedOut == w.signedOut
      && (w.session.None? || (online && !Accepts(w.session, w.now)) ==> v.session.None?)
  {
  }

  lemma TickForgetsNothing(w: World, t: nat, c: Client)
    ensures var v := TickTab(w, t, c);
      v.now == w.now && v.lost == w.lost && v.signedOut == w.signedOut && v.session == w.session
  {
  }

  /** What was lost stays lost and who signed out stays signed out; a session
      that is gone, or refused a request, is gone for good. */
  lemma StepForgetsNothing(w: World, a: Action)
    requires Enabled(w, a)
    ensures w.now <= Next(w, a).now && (w.lost ==> Next(w, a).lost) && (w.signedOut ==> Next(w, a).signedOut)
    ensures w.session.None? || Refused(w, a) ==> Next(w, a).session.None?
  {
    hide Signal, TickTab, Accepts;
    match a
    case Advance(_) =>
    case Open(t, online) =>
      SignalForgetsNothing(w, t, Client(Tab(w.now, 0, None, false, false), |w.channel|, {}, None, w.now), online);
    case Interact(t, online) => SignalForgetsNothing(w, t, w.clients[t], online);
    case Fire(t, online) => SignalForgetsNothing(w, t, w.clients[t], online);
    case Tick(t) => TickForgetsNothing(w, t, w.clients[t]);
    case Deliver(t, k) =>
      if w.channel[k].ActivityMsg? { TickForgetsNothing(w, t, HeardClient(w.clients[t], k, w.channel[k].at)); }
    case Stay(t, online) =>
      var c := w.clients[t].(tab := w.clients[t].tab.(warning := false));
      SignalForgetsNothing(w, t, c, online);
      var v := Signal(w, t, c, online);
      if Live(v, t) { TickForgetsNothing(v, t, v.clients[t]); }
    case Close(_) =>
    case Poll =>
    case SignOut =>
  }

  lemma {:induction false} RefusalsShow(worlds: seq<World>, actions: seq<Action>, userId: nat, k: nat)
    requires IsRun(worlds, actions) && Fresh(worlds[0], userId) && k <= |actions|
    ensures !NoneRefused(worlds, actions, k) ==> worlds[k].session.None?
    ensures NoneRefused(worlds, actions, k) && !worlds[k].lost ==> NoneAhead(worlds[k])
  {
    hide Next, Refused;
    if k > 0 {
      RefusalsShow(worlds, actions, userId, k - 1);
      StepForgetsNothing(worlds[k - 1], actions[k - 1]);
      if NoneAhead(worlds[k - 1]) && !Refused(worlds[k - 1], actions[k - 1]) {
        StepKeepsNoneAhead(worlds[k - 1], actions[k - 1]);
      }
    }
  }

  /** While every activity request arrives, nobody signs out and the seven days
      are not over: a tab that ticks without expiring has a live session exactly
      when no activity request of any tab has been refused so far; and that is
      exactly when the tab's last activity is no later than the server's. */
  lemma TickedTabHasSessionIff(worlds: seq<World>, actions: seq<Action>, userId: nat, k: nat, t: nat)
    requires IsRun(worlds, actions) && Fresh(worlds[0], userId) && k <= |actions|
    requires Live(worlds[k], t) && !Ticked(worlds[k].clients[t].tab, worlds[k].now).expired
    requires Undisturbed(worlds[k], worlds[0].now + SESSION_TTL)
    ensures Found(worlds[k].session, worlds[k].now, true) <==> NoneRefused(worlds, actions, k)
    ensures var w := worlds[k];
      Found(w.session, w.now, true) <==> w.clients[t].tab.lastActivity <= w.lastAccepted
  {
    hide NoneRefused, AllBehind;
    RunKeeps(worlds, actions, userId, k);
    RefusalsShow(worlds, actions, userId, k);
  }

  // ---- a user who shows up is never warned -----------------------------------------------------------

  /** The user does something in the tab: opens it, touches it or answers the dialog. */
  predicate IsSign(a: Action, t: nat) {
    (a.Open? || a.Interact? || a.Stay?) && a.t == t
  }

  /** When the user last did something in the tab, whether or not the hook counted it. */
  function LastSign(worlds: seq<World>, actions: seq<Action>, t: nat, k: nat): int
    requires k <= |actions| < |worlds|
  {
    if k == 0 then worlds[0].now
    else if IsSign(actions[k - 1], t) then worlds[k - 1].now
    else LastSign(worlds, actions, t, k - 1)
  }

  /** While the tab is signed in the user never leaves it alone for nine minutes. */
  ghost predicate Steady(worlds: seq<World>, actions: seq<Action>, t: nat)
    requires |actions| < |worlds|
  {
    forall k :: 0 <= k <= |actions| && Live(worlds[k], t) ==>
      worlds[k].now - LastSign(worlds, actions, t, k) < IDLE_TIMEOUT - IDLE_WARNING
  }

  ghost predicate Calm(w: World, t: nat) {
    Live(w, t) ==> !w.clients[t].tab.warning
  }

  lemma SignalStaysCalm(w: World, u: nat, c: Client, online: bool, t: nat)
    requires Calm(w, t) && (u == t ==> !c.tab.warning)
    ensures Calm(Signal(w, u, c, online), t)
  {
  }

  /** A tick does not change when the user was last heard of, so that may be judged afterwards. */
  lemma TickStaysCalm(w: World, u: nat, c: Client, t: nat)
    requires Calm(w, t) && TabOk(w.now, c) && !c.tab.expired
    requires Live(TickTab(w, u, c), t) ==> w.now - TickTab(w, u, c).clients[t].heard < IDLE_TIMEOUT - IDLE_WARNING
    ensures Calm(TickTab(w, u, c), t)
  {
  }

  lemma DeliverStaysCalm(w: World, u: nat, k: nat, t: nat)
    requires TabsOk(w) && Calm(w, t) && Enabled(w, Deliver(u, k))
    requires Live(Next(w, Deliver(u, k)), t) ==>
      w.now - Next(w, Deliver(u, k)).clients[t].heard < IDLE_TIMEOUT - IDLE_WARNING
    ensures Calm(Next(w, Deliver(u, k)), t)
  {
    if w.channel[k].ActivityMsg? {
      assert TabOk(w.now, w.clients[u]);
      TickStaysCalm(w, u, HeardClient(w.clients[u], k, w.channel[k].at), t);
    }
  }

  lemma StayStaysCalm(w: World, u: nat, online: bool, t: nat)
    requires TabsOk(w) && Calm(w, t) && Live(w, u)
    requires Live(Next(w, Stay(u, online)), t) ==>
      w.now - Next(w, Stay(u, online)).clients[t].heard < IDLE_TIMEOUT - IDLE_WARNING
    ensures Calm(Next(w, Stay(u, online)), t)
  {
    assert TabOk(w.now, w.clients[u]);
    var c := w.clients[u].(tab := w.clients[u].tab.(warning := false));
    SignalStaysCalm(w, u, c, online, t);
    SignalKeepsTabs(w, u, c, online);
    hide Signal, TickTab;
    var v := Signal(w, u, c, online);
    if Live(v, u) { TickStaysCalm(v, u, v.clients[u], t); }
  }

  lemma SameClock(w: World, a: Action)
    requires Enabled(w, a) && !a.Advance?
    ensures Next(w, a).now == w.now
  {
  }

  lemma StepStaysCalm(w: World, a: Action, t: nat)
    requires TabsOk(w) && Calm(w, t) && Enabled(w, a)
    requires Live(Next(w, a), t) ==> Next(w, a).now - Next(w, a).clients[t].heard < IDLE_TIMEOUT - IDLE_WARNING
    ensures Calm(Next(w, a), t)
  {
    if !a.Advance? { SameClock(w, a); }
    hide Signal, TickTab;
    match a
    case Advance(_) =>
    case Open(u, online) =>
      SignalStaysCalm(w, u, Client(Tab(w.now, 0, None, false, false), |w.channel|, {}, None, w.now), online, t);
    case Interact(u, online) =>
      if SignalsAtOnce(w.clients[u].tab, w.now) { SignalStaysCalm(w, u, w.clients[u], online, t); }
    case Fire(u, online) => SignalStaysCalm(w, u, w.clients[u], online, t);
    case Tick(u) => TickStaysCalm(w, u, w.clients[u], t);
    case Deliver(u, k) => DeliverStaysCalm(w, u, k, t);
    case Stay(u, online) => StayStaysCalm(w, u, online, t);
    case Close(_) =>
    case Poll =>
    case SignOut =>
  }

  lemma TickHears(w: World, u: nat, c: Client, t: nat)
    ensures var v := TickTab(w, u, c);
      && (t in v.clients <==> t in w.clients || t == u) && v.now == w.now
      && (t in v.clients ==> v.clients[t].heard == if u == t then c.heard else w.clients[t].heard)
  {
  }

  lemma SignalHears(w: World, u: nat, c: Client, online: bool, t: nat)
    ensures var v := Signal(w, u, c, online);
      && (t in v.clients <==> t in w.clients || t == u) && v.now == w.now
      && (t in v.clients ==> v.clients[t].heard == if u == t then Max(c.heard, w.now) else w.clients[t].heard)
  {
  }

  /** Outside the warning whatever the user does in the tab is a sign the tab knows of. */
  lemma StepHears(w: World, a: Action, t: nat)
    requires TabsOk(w) && Enabled(w, a) && Calm(w, t) && t in Next(w, a).clients
    ensures IsSign(a, t) ==> Next(w, a).clients[t].heard >= w.now
    ensures !IsSign(a, t) ==> t in w.clients && Next(w, a).clients[t].heard >= w.clients[t].heard
  {
    hide Signal, TickTab, SeenOk, NoneLater;
    match a
    case Advance(_) =>
    case Open(u, online) =>
      SignalHears(w, u, Client(Tab(w.now, 0, None, false, false), |w.channel|, {}, None, w.now), online, t);
    case Interact(u, online) =>
      assert TabOk(w.now, w.clients[u]);
      if SignalsAtOnce(w.clients[u].tab, w.now) { SignalHears(w, u, w.clients[u], online, t); }
    case Fire(u, online) => SignalHears(w, u, w.clients[u], online, t);
    case Tick(u) => TickHears(w, u, w.clients[u], t);
    case Deliver(u, k) =>
      if w.channel[k].ActivityMsg? { TickHears(w, u, HeardClient(w.clients[u], k, w.channel[k].at), t); }
    case Stay(u, online) =>
      var c := w.clients[u].(tab := w.clients[u].tab.(warning := false));
      SignalHears(w, u, c, online, t);
      SignalHears(w, u, c, online, u);
      var v := Signal(w, u, c, online);
      if Live(v, u) { TickHears(v, u, v.clients[u], t); }
    case Close(_) =>
    case Poll =>
    case SignOut =>
  }

  /** A user who does something in a tab at least every nine minutes, counted by
      the hook or not, never sees its warning. */
  lemma {:induction false} SteadyUserNeverWarned(worlds: seq<World>, actions: seq<Action>, userId: nat, k: nat, t: nat)
    requires IsRun(worlds, actions) && Fresh(worlds[0], userId) && k <= |actions|
    requires Steady(worlds, actions, t)
    ensures Calm(worlds[k], t)
    ensures t in worlds[k].clients ==> worlds[k].clients[t].heard >= LastSign(worlds, actions, t, k)
    ensures Live(worlds[k], t) ==> !Ticked(worlds[k].clients[t].tab, worlds[k].now).expired
  {
    hide Next;
    RunKeeps(worlds, actions, userId, k);
    if k > 0 {
      var w, a := worlds[k - 1], actions[k - 1];
      RunKeeps(worlds, actions, userId, k - 1);
      SteadyUserNeverWarned(worlds, actions, userId, k - 1, t);
      if t in worlds[k].clients { StepHears(w, a, t); }
      StepStaysCalm(w, a, t);
    }
    assert t in worlds[k].clients ==> TabOk(worlds[k].now, worlds[k].clients[t]);
  }

  // ---- what a tab shows, in numbers --------------------------------------------------------------------

  /** After a tick a tab is expired exactly when its last activity is ten minutes
      old, and otherwise warned exactly when that is nine minutes old. */
  lemma TickShows(w: World, t: nat)
    requires Live(w, t)
    ensures var c, d := w.clients[t], Next(w, Tick(t)).clients[t];
      && d.tab.lastActivity == c.tab.lastActivity && d.tab.lastSignal == c.tab.lastSignal
      && (d.tab.expired <==> w.now - c.tab.lastActivity >= 600_000)
      && (!d.tab.expired ==> (d.tab.warning <==> w.now - c.tab.lastActivity >= 540_000))
      && (d.tab.expired <==> Next(w, Tick(t)).channel == w.channel + [ExpiredMsg])
      && (!d.tab.expired <==> Next(w, Tick(t)).channel == w.channel)
  {
    var v := Next(w, Tick(t));
    assert |w.channel + [ExpiredMsg]| == |w.channel| + 1;
  }

  /** Activity heard of counts if it is later than what the tab knows, and is followed by a tick. */
  lemma DeliverShows(w: World, t: nat, k: nat)
    requires Enabled(w, Deliver(t, k))
    ensures var c, d := w.clients[t], Next(w, Deliver(t, k)).clients[t];
      && !Awaits(Next(w, Deliver(t, k)).channel, d, k)
      && (w.channel[k].ExpiredMsg? ==> d.tab == c.tab.(expired := true))
      && (w.channel[k].ActivityMsg? ==>
            && d.tab.lastActivity == Max(c.tab.lastActivity, w.channel[k].at)
            && d.tab.lastSignal == Max(c.tab.lastSignal, w.channel[k].at)
            && (d.tab.expired <==> w.now - d.tab.lastActivity >= 600_000)
            && (!d.tab.expired ==> (d.tab.warning <==> w.now - d.tab.lastActivity >= 540_000)))
  {
  }

  /** A touch of a warned tab does nothing; of another it signals exactly when
      the tab's last signal is 30 s old, and else arms the timer for then. */
  lemma InteractShows(w: World, t: nat, online: bool)
    requires Live(w, t)
    ensures var c, v := w.clients[t], Next(w, Interact(t, online));
      && (c.tab.warning ==> v == w)
      && (v.channel != w.channel <==> !c.tab.warning && w.now - c.tab.lastSignal >= 30_000)
      && (!c.tab.warning && w.now - c.tab.lastSignal < 30_000 ==>
            v.clients[t].tab == c.tab.(trailing :=
              if c.tab.trailing.Some? then c.tab.trailing else Some(c.tab.lastSignal + 30_000)))
  {
    SignalShows(w, t, w.clients[t], online);
    hide Signal;
  }

  /** A signal makes now the last activity and ends the timer; it ends the tab
      exactly when its request is refused. */
  lemma SignalShows(w: World, t: nat, c: Client, online: bool)
    requires !c.tab.expired
    ensures var v := Signal(w, t, c, online);
      && v.now == w.now && v.clients.Keys == w.clients.Keys + {t}
      && (forall u :: u in w.clients && u != t ==> v.clients[u] == w.clients[u])
      && v.clients[t].tab == Tab(w.now, w.now, None, c.tab.warning, online && !Accepts(w.session, w.now))
      && w.channel + [ActivityMsg(w.now)] <= v.channel
  {
  }

  /** Staying in ends the warning. */
  lemma StayShows(w: World, t: nat, online: bool)
    requires Live(w, t)
    ensures var v := Next(w, Stay(t, online));
      && v.now == w.now && v.clients.Keys == w.clients.Keys
      && (forall u :: u in w.clients && u != t ==> v.clients[u] == w.clients[u])
      && v.clients[t].tab == Tab(w.now, w.now, None, false, online && !Accepts(w.session, w.now))
      && w.channel + [ActivityMsg(w.now)] <= v.channel
  {
    var c := w.clients[t].(tab := w.clients[t].tab.(warning := false));
    SignalShows(w, t, c, online);
    hide Signal;
    assert Live(Signal(w, t, c, online), t) ==> Next(w, Stay(t, online)).channel == Signal(w, t, c, online).channel;
  }

  /** A `find` by whoever polls ends a session that is idle, and touches no other. */
  lemma PollEndsIdle(w: World)
    ensures var v := Next(w, Poll);
      && v == w.(session := v.session)
      && (v.session.None? <==> w.session.None? || w.now - w.session.value.lastActivityAt >= 600_000)
      && (v.session.Some? ==> v.session == w.session)
  {
  }

  /** The tab looks at the clock. */
  predicate Looks(a: Action, t: nat) {
    (a.Tick? || a.Deliver?) && a.t == t
  }

  /** What a step does to what a tab shows that is signed in after it. */
  ghost predicate Shows(w: World, a: Action, t: nat, tab: Tab) {
    if Looks(a, t) then tab.warning <==> w.now - tab.lastActivity >= 540_000
    else || (!tab.warning && tab.lastActivity == w.now)
         || (Live(w, t) && tab.warning == w.clients[t].tab.warning
             && tab.lastActivity == w.clients[t].tab.lastActivity)
  }

  lemma LookShows(w: World, a: Action, t: nat)
    requires Enabled(w, a) && Live(Next(w, a), t) && (a.Tick? || a.Deliver?)
    ensures Shows(w, a, t, Next(w, a).clients[t].tab)
  {
    hide TickTab;
    if a.Tick? {
      TickMoves(w, a.t, w.clients[a.t]);
      TickShows(w, a.t);
    } else {
      DeliverShows(w, a.t, a.k);
      if w.channel[a.k].ActivityMsg? { TickMoves(w, a.t, HeardClient(w.clients[a.t], a.k, w.channel[a.k].at)); }
    }
  }

  lemma SignShows(w: World, a: Action, t: nat)
    requires TabsOk(w) && Enabled(w, a) && Live(Next(w, a), t) && (a.Open? || a.Interact? || a.Fire? || a.Stay?)
    requires Live(w, t) && w.clients[t].tab.warning ==> w.now - w.clients[t].tab.lastActivity >= 540_000
    ensures Shows(w, a, t, Next(w, a).clients[t].tab)
  {
    assert Live(w, t) ==> TabOk(w.now, w.clients[t]);
    hide Signal, TickTab, NoneLater, SeenOk, TabsOk, Accepts;
    match a
    case Open(u, online) =>
      SignalShows(w, u, Client(Tab(w.now, 0, None, false, false), |w.channel|, {}, None, w.now), online);
    case Interact(u, online) => SignalShows(w, u, w.clients[u], online);
    case Fire(u, online) => SignalShows(w, u, w.clients[u], online);
    case Stay(u, online) => StayShows(w, u, online);
  }

  lemma StepShows(w: World, a: Action, t: nat)
    requires TabsOk(w) && Enabled(w, a) && Live(Next(w, a), t)
    requires Live(w, t) && w.clients[t].tab.warning ==> w.now - w.clients[t].tab.lastActivity >= 540_000
    ensures Shows(w, a, t, Next(w, a).clients[t].tab)
  {
    if a.Tick? || a.Deliver? {
      LookShows(w, a, t);
    } else if a.Open? || a.Interact? || a.Fire? || a.Stay? {
      SignShows(w, a, t);
    } else {
      hide TabsOk;
    }
  }

  lemma TickMoves(w: World, t: nat, c: Client)
    ensures var v := TickTab(w, t, c);
      v.clients.Keys == w.clients.Keys + {t} && forall u :: u in w.clients && u != t ==> v.clients[u] == w.clients[u]
  {
  }

  lemma {:induction false} ClockRuns(worlds: seq<World>, actions: seq<Action>, i: nat, k: nat)
    requires IsRun(worlds, actions) && i <= k <= |actions|
    ensures worlds[i].now <= worlds[k].now
  {
    hide Next;
    if i < k {
      ClockRuns(worlds, actions, i, k - 1);
      StepForgetsNothing(worlds[k - 1], actions[k - 1]);
    }
  }

  /** The tab has looked at the clock nine minutes after this. */
  ghost predicate Looked(worlds: seq<World>, actions: seq<Action>, k: nat, t: nat, since: int)
    requires k <= |actions| < |worlds|
  {
    exists i :: 0 <= i < k && Looks(actions[i], t) && worlds[i].now - since >= 540_000
  }

  /** Whatever the tabs and the server do: a signed-in tab shows the warning
      exactly when it has looked at the clock nine minutes after its last
      activity. So a tab that ticks in its last minute is warned before it can
      expire, until someone stays in or is active elsewhere, and no sooner. */
  lemma {:induction false} WarnedIff(worlds: seq<World>, actions: seq<Action>, userId: nat, k: nat, t: nat)
    requires IsRun(worlds, actions) && Fresh(worlds[0], userId) && k <= |actions| && Live(worlds[k], t)
    ensures var tab := worlds[k].clients[t].tab;
      tab.warning <==> Looked(worlds, actions, k, t, tab.lastActivity)
  {
    hide Next;
    if k > 0 {
      var w, a := worlds[k - 1], actions[k - 1];
      RunKeeps(worlds, actions, userId, k - 1);
      forall i | 0 <= i < k ensures worlds[i].now <= w.now { ClockRuns(worlds, actions, i, k - 1); }
      if Live(w, t) { WarnedIff(worlds, actions, userId, k - 1, t); }
      StepShows(w, a, t);
      var at := worlds[k].clients[t].tab.lastActivity;
      assert Looked(worlds, actions, k, t, at) <==>
        Looked(worlds, actions, k - 1, t, at) || (Looks(a, t) && w.now - at >= 540_000);
    }
  }

  /** A tab is signed out by a look at the clock ten minutes after its last
      activity, by the notice of another tab's end, or by a refused request of
      its own; and by nothing else. */
  lemma ExpiresIff(w: World, a: Action, t: nat)
    requires Enabled(w, a) && Live(w, t) && t in Next(w, a).clients
    ensures !Live(Next(w, a), t) <==>
      || (Looks(a, t) && w.now - Next(w, a).clients[t].tab.lastActivity >= 600_000)
      || (a.Deliver? && a.t == t && w.channel[a.k].ExpiredMsg?)
      || (Refused(w, a) && a.t == t)
  {
    hide Signal, TickTab, Accepts;
    match a
    case Advance(_) =>
    case Open(u, online) =>
      SignalShows(w, u, Client(Tab(w.now, 0, None, false, false), |w.channel|, {}, None, w.now), online);
    case Interact(u, online) => SignalShows(w, u, w.clients[u], online);
    case Fire(u, online) => SignalShows(w, u, w.clients[u], online);
    case Tick(u) => TickMoves(w, u, w.clients[u]); TickShows(w, u);
    case Deliver(u, k) =>
      DeliverShows(w, u, k);
      if w.channel[k].ActivityMsg? { TickMoves(w, u, HeardClient(w.clients[u], k, w.channel[k].at)); }
    case Stay(u, online) => StayShows(w, u, online);
    case Close(_) =>
    case Poll =>
    case SignOut =>
  }

  // ---- one signal in 30 s ----------------------------------------------------------------------------------

  /** The step posts activity of this tab. */
  predicate Signals(w: World, a: Action, t: nat) {
    (((a.Open? || a.Fire? || a.Stay?) && a.t == t)
     || (a.Interact? && a.t == t && Live(w, t) && SignalsAtOnce(w.clients[t].tab, w.now)))
  }

  /** A user's action or a timer of the tab signals exactly when it posts something, and then its activity first. */
  lemma SignalsIff(w: World, a: Action, t: nat)
    requires Enabled(w, a) && (a.Open? || a.Interact? || a.Fire? || a.Stay?)
    ensures Signals(w, a, t) <==> a.t == t && Next(w, a).channel != w.channel
    ensures Signals(w, a, t) ==> w.channel + [ActivityMsg(w.now)] <= Next(w, a).channel
  {
    hide Signal, TickTab;
    match a
    case Open(u, online) =>
      SignalShows(w, u, Client(Tab(w.now, 0, None, false, false), |w.channel|, {}, None, w.now), online);
    case Interact(u, online) => SignalShows(w, u, w.clients[u], online);
    case Fire(u, online) => SignalShows(w, u, w.clients[u], online);
    case Stay(u, online) => StayShows(w, u, online);
  }

  /** Some step from `i` up to `k` signals. */
  ghost predicate SignalsWithin(worlds: seq<World>, actions: seq<Action>, i: nat, k: nat, t: nat)
    requires k <= |actions| < |worlds|
  {
    exists j :: i <= j < k && Signals(worlds[j], actions[j], t)
  }

  /** A timer is set for the tab no later than 30 s after `since`. */
  ghost predicate DueBy(w: World, t: nat, since: int) {
    Live(w, t) ==> w.clients[t].tab.trailing.Some? && w.clients[t].tab.trailing.value <= since + 30_000
  }

  lemma TouchIsDue(w: World, t: nat, online: bool)
    requires TabsOk(w) && Live(w, t) && !w.clients[t].tab.warning && !Signals(w, Interact(t, online), t)
    ensures DueBy(Next(w, Interact(t, online)), t, w.now)
  {
    assert TabOk(w.now, w.clients[t]);
    InteractShows(w, t, online);
    hide TabsOk;
  }

  lemma StepStaysDue(w: World, a: Action, t: nat, since: int)
    requires Enabled(w, a) && DueBy(w, t, since) && !Signals(w, a, t)
    ensures DueBy(Next(w, a), t, since)
  {
    hide Signal, TickTab;
    match a
    case Advance(_) =>
    case Open(u, online) =>
      SignalShows(w, u, Client(Tab(w.now, 0, None, false, false), |w.channel|, {}, None, w.now), online);
    case Interact(u, online) => SignalShows(w, u, w.clients[u], online);
    case Fire(u, online) => SignalShows(w, u, w.clients[u], online);
    case Tick(u) => TickMoves(w, u, w.clients[u]); TickKeepsTimer(w, u, w.clients[u]);
    case Deliver(u, k) =>
      if w.channel[k].ActivityMsg? {
        TickMoves(w, u, HeardClient(w.clients[u], k, w.channel[k].at));
        TickKeepsTimer(w, u, HeardClient(w.clients[u], k, w.channel[k].at));
      }
    case Stay(u, online) => StayShows(w, u, online);
    case Close(_) =>
    case Poll =>
    case SignOut =>
  }

  lemma {:induction false} StaysDue(worlds: seq<World>, actions: seq<Action>, i: nat, k: nat, t: nat, since: int)
    requires IsRun(worlds, actions) && i <= k <= |actions| && DueBy(worlds[i], t, since)
    requires !SignalsWithin(worlds, actions, i, k, t)
    ensures DueBy(worlds[k], t, since)
  {
    hide Next, DueBy, Signals;
    if i < k {
      StaysDue(worlds, actions, i, k - 1, t, since);
      StepStaysDue(worlds[k - 1], actions[k - 1], t, since);
    }
  }

  /** Whoever touches a tab that does not show the warning is heard: if the tab is
      still signed in more than 30 s later, it has signalled by then. */
  lemma TouchIsSignalled(worlds: seq<World>, actions: seq<Action>, userId: nat, i: nat, k: nat, t: nat)
    requires IsRun(worlds, actions) && Fresh(worlds[0], userId) && i < k <= |actions|
    requires actions[i].Interact? && actions[i].t == t && !worlds[i].clients[t].tab.warning
    requires Live(worlds[k], t) && worlds[k].now > worlds[i].now + 30_000
    ensures SignalsWithin(worlds, actions, i, k, t)
  {
    hide Next, Signals;
    RunKeeps(worlds, actions, userId, i);
    RunKeeps(worlds, actions, userId, k);
    assert TabOk(worlds[k].now, worlds[k].clients[t]);
    if !SignalsWithin(worlds, actions, i, k, t) {
      TouchIsDue(worlds[i], t, actions[i].online);
      StaysDue(worlds, actions, i + 1, k, t, worlds[i].now);
    }
  }

  /** The tab has signalled at `since`, and its timer is set for no sooner than 30 s later. */
  ghost predicate Quiet(w: World, t: nat, since: int) {
    Live(w, t) ==>
      && since <= w.clients[t].tab.lastSignal
      && (w.clients[t].tab.trailing.Some? ==> since + 30_000 <= w.clients[t].tab.trailing.value)
  }

  lemma StepStaysQuiet(w: World, a: Action, t: nat, since: int)
    requires Enabled(w, a) && since <= w.now && (Quiet(w, t, since) || (Signals(w, a, t) && since == w.now))
    ensures Quiet(Next(w, a), t, since)
  {
    hide Signal, TickTab;
    match a
    case Advance(_) =>
    case Open(u, online) =>
      SignalShows(w, u, Client(Tab(w.now, 0, None, false, false), |w.channel|, {}, None, w.now), online);
    case Interact(u, online) => SignalShows(w, u, w.clients[u], online);
    case Fire(u, online) => SignalShows(w, u, w.clients[u], online);
    case Tick(u) => TickMoves(w, u, w.clients[u]); TickKeepsTimer(w, u, w.clients[u]);
    case Deliver(u, k) =>
      if w.channel[k].ActivityMsg? {
        TickMoves(w, u, HeardClient(w.clients[u], k, w.channel[k].at));
        TickKeepsTimer(w, u, HeardClient(w.clients[u], k, w.channel[k].at));
      }
    case Stay(u, online) => StayShows(w, u, online);
    case Close(_) =>
    case Poll =>
    case SignOut =>
  }

  lemma TickKeepsTimer(w: World, t: nat, c: Client)
    ensures TickTab(w, t, c).clients[t].tab.trailing == c.tab.trailing
    ensures TickTab(w, t, c).clients[t].tab.lastSignal == c.tab.lastSignal
  {
  }

  lemma {:induction false} RunStaysQuiet(worlds: seq<World>, actions: seq<Action>, i: nat, k: nat, t: nat)
    requires IsRun(worlds, actions) && i < k <= |actions| && Signals(worlds[i], actions[i], t)
    ensures Quiet(worlds[k], t, worlds[i].now)
  {
    hide Next, Quiet, Signals;
    if i + 1 < k { RunStaysQuiet(worlds, actions, i, k - 1, t); }
    ClockRuns(worlds, actions, i, k - 1);
    StepStaysQuiet(worlds[k - 1], actions[k - 1], t, worlds[i].now);
  }

  /** However often the user touches a tab, its interactions and its timer never
      signal within 30 s of the tab's signal before; only staying in and opening it anew do. */
  lemma Throttled(worlds: seq<World>, actions: seq<Action>, i: nat, j: nat, t: nat)
    requires IsRun(worlds, actions) && i < j < |actions|
    requires Signals(worlds[i], actions[i], t) && Signals(worlds[j], actions[j], t)
    requires actions[j].Interact? || actions[j].Fire?
    ensures worlds[j].now - worlds[i].now >= 30_000
  {
    hide Next;
    RunStaysQuiet(worlds, actions, i, j, t);
    if actions[j].Interact? { InteractShows(worlds[j], t, actions[j].online); }
    assert Enabled(worlds[j], actions[j]);
  }

  /** Two tabs opened at once on a new session. */
  function TwoTabs(userId: nat, born: int): World {
    var tab := Tab(born, born, None, false, false);
    World(born, map[1 := Client(tab, 0, {0}, None, born), 2 := Client(tab, 1, {1}, None, born)],
          [ActivityMsg(born), ActivityMsg(born)], Some(Created(userId, born)), born, false, false)
  }

  lemma OpenTwoTabs(userId: nat, born: int) returns (w0: World, w1: World)
    ensures Fresh(w0, userId) && w0.now == born
    ensures Enabled(w0, Open(1, true)) && w1 == Next(w0, Open(1, true))
    ensures Enabled(w1, Open(2, true)) && TwoTabs(userId, born) == Next(w1, Open(2, true))
  {
    w0 := World(born, map[], [], Some(Created(userId, born)), born, false, false);
    w1 := Next(w0, Open(1, true));
    var v := Next(w1, Open(2, true));
    var w2 := TwoTabs(userId, born);
    assert v.clients.Keys == {1, 2} == w2.clients.Keys;
    assert v.clients[1].seen == {0} && v.clients[2].seen == {1};
    assert v.clients[1] == w2.clients[1] && v.clients[2] == w2.clients[2];
    assert v.clients == w2.clients;
    assert v.channel == w2.channel;
  }

  /** The condition on the notice cannot be dropped: a tab whose timers were
      held back signals an idle session, is refused, and another tab hears of
      the activity before it hears of the end; it ticks on with no session. */
  lemma TickMayOutliveSession(userId: nat, born: int) returns (worlds: seq<World>, actions: seq<Action>)
    ensures IsRun(worlds, actions) && Fresh(worlds[0], userId) && worlds[0].now == born
    ensures var w := worlds[|actions|];
      && Undisturbed(w, born + SESSION_TTL) && Live(w, 2) && w.session.None?
      && actions[|actions| - 1] == Deliver(2, 2) && !Ticked(w.clients[2].tab, w.now).expired
  {
    var w0, w1 := OpenTwoTabs(userId, born);
    var w2 := TwoTabs(userId, born);
    var later := born + IDLE_TIMEOUT;
    var w3 := w2.(now := later);
    assert Enabled(w2, Advance(later)) && w3 == Next(w2, Advance(later));
    var w4, w5 := RefusedThenHeard(w2, later);
    worlds := [w0, w1, w2, w3, w4, w5];
    actions := [Open(1, true), Open(2, true), Advance(later), Interact(1, true), Deliver(2, 2)];
  }

  lemma RefusedThenHeard(w2: World, later: int) returns (w4: World, w5: World)
    requires exists userId, born :: w2 == TwoTabs(userId, born) && later == born + IDLE_TIMEOUT
    ensures var w3 := w2.(now := later);
      && Enabled(w3, Interact(1, true)) && w4 == Next(w3, Interact(1, true))
      && Enabled(w4, Deliver(2, 2)) && w5 == Next(w4, Deliver(2, 2))
    ensures w5.now == later && !w5.lost && !w5.signedOut && w5.session.None?
    ensures Live(w5, 2) && !Ticked(w5.clients[2].tab, later).expired
  {
    var w3 := w2.(now := later);
    w4 := Next(w3, Interact(1, true));
    assert w4.clients[2] == w2.clients[2] && w4.channel[2] == ActivityMsg(later) && w4.session.None?;
    w5 := Next(w4, Deliver(2, 2));
  }
}
