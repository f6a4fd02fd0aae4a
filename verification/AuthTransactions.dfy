/** Single-use sign-in transactions: apps/api/src/modules/auth/auth-transactions.ts.
    Times are milliseconds. Redis evaluates each command in one step; a sealed
    value opens only under the state it was sealed for, and no two are equal. */
module AuthTransactions {
  import opened OrderedMap

  const TTL: int := 600_000
  const SKEW: int := 60_000

  /** A digest tells texts apart. */
  datatype Digest = Digest(of: string)

  /** `payload` stands for the portal, intent, destination, nonce and storage. */
  datatype Transaction = Transaction(browserHash: Digest, startedAt: int, payload: string)

  /** AES-GCM with the state as associated data and a random nonce. */
  datatype Sealed = Sealed(aad: string, transaction: Transaction, nonce: nat)

  datatype Entry = Entry(sealed: Sealed, expiresAt: int)

  type Store = map<string, Entry>

  predicate Live(store: Store, state: string, now: int) {
    state in store && now < store[state].expiresAt
  }

  /** What the callback checks before it deletes. */
  predicate Valid(sealed: Sealed, state: string, secret: string, now: int) {
    && sealed.aad == state
    && Digest(secret) == sealed.transaction.browserHash
    && now - sealed.transaction.startedAt <= TTL
    && sealed.transaction.startedAt <= now + SKEW
  }

  // ---- one call at a time -----------------------------------------------------------------

  /** `SET … EX 600 NX` */
  function Saved(store: Store, state: string, sealed: Sealed, now: int): Store {
    if Live(store, state, now) then store else store[state := Entry(sealed, now + TTL)]
  }

  function Consumed(store: Store, state: string, secret: string, now: int): (Store, Option<Transaction>) {
    if Live(store, state, now) && Valid(store[state].sealed, state, secret, now)
    then (store - {state}, Some(store[state].sealed.transaction))
    else (store, None)
  }

  class AuthTransactionStore {
    var store: Store

    constructor ()
      ensures store == map[]
    {
      store := map[];
    }

    method Save(state: string, transaction: Transaction, nonce: nat, now: int) returns (ok: bool)
      modifies this
      ensures ok == !Live(old(store), state, now)
      ensures store == Saved(old(store), state, Sealed(state, transaction, nonce), now)
    {
      var sealed := Sealed(state, transaction, nonce);
      if Live(store, state, now) { return false; }
      store := store[state := Entry(sealed, now + TTL)];
      ok := true;
    }

    method CompareAndDelete(state: string, sealed: Sealed, now: int) returns (consumed: bool)
      modifies this
      ensures consumed == (Live(old(store), state, now) && old(store)[state].sealed == sealed)
      ensures store == if consumed then old(store) - {state} else old(store)
    {
      consumed := Live(store, state, now) && store[state].sealed == sealed;
      if consumed { store := store - {state}; }
    }

    method Consume(state: string, secret: string, now: int) returns (result: Option<Transaction>)
      modifies this
      ensures (store, result) == Consumed(old(store), state, secret, now)
    {
      if !Live(store, state, now) { return None; }
      var sealed := store[state].sealed;
      if sealed.aad != state { return None; }
      var transaction := sealed.transaction;
      if Digest(secret) != transaction.browserHash { return None; }
      if now - transaction.startedAt > TTL || transaction.startedAt > now + SKEW { return None; }
      var consumed := CompareAndDelete(state, sealed, now);
      result := if consumed then Some(transaction) else None;
    }
  }

  // ---- callbacks side by side ---------------------------------------------------------------

  /** A callback reads, checks and deletes in three steps; anything may happen in between. */
  datatype Stage = Read(sealed: Sealed) | Checked(sealed: Sealed, checkedAt: int) | Ended(result: Option<Transaction>)

  datatype Call = Call(state: string, secret: string, stage: Stage)

  datatype Event =
    | SaveEvent(state: string, transaction: Transaction, nonce: nat, at: int)
    | ReadEvent(id: nat, state: string, secret: string, at: int)
    | CheckEvent(id: nat, at: int)
    | DeleteEvent(id: nat, at: int)

  /** A successful save. */
  datatype SaveRecord = SaveRecord(state: string, sealed: Sealed, at: int)

  /** A successful consume. */
  datatype Win = Win(state: string, secret: string, sealed: Sealed, checkedAt: int, at: int)

  datatype World = World(
    store: Store, calls: map<nat, Call>, saves: set<SaveRecord>, wins: seq<Win>, nonces: set<nat>, now: int)

  const START := World(map[], map[], {}, [], {}, 0)

  predicate Matches(w: World, call: Call, now: int) {
    call.stage.Checked? && Live(w.store, call.state, now) && w.store[call.state].sealed == call.stage.sealed
  }

  function WinOf(call: Call, at: int): Win
    requires call.stage.Checked?
  {
    Win(call.state, call.secret, call.stage.sealed, call.stage.checkedAt, at)
  }

  function Apply(w: World, e: Event): World {
    match e
    case SaveEvent(state, transaction, nonce, at) =>
      var sealed := Sealed(state, transaction, nonce);
      var saves := if Live(w.store, state, at) then w.saves else w.saves + {SaveRecord(state, sealed, at)};
      w.(store := Saved(w.store, state, sealed, at), saves := saves, nonces := w.nonces + {nonce}, now := at)
    case ReadEvent(id, state, secret, at) =>
      if id in w.calls then w.(now := at)
      else
        var stage := if Live(w.store, state, at) then Read(w.store[state].sealed) else Ended(None);
        w.(calls := w.calls[id := Call(state, secret, stage)], now := at)
    case CheckEvent(id, at) =>
      if id !in w.calls || !w.calls[id].stage.Read? then w.(now := at)
      else
        var call := w.calls[id];
        var sealed := call.stage.sealed;
        var stage := if Valid(sealed, call.state, call.secret, at) then Checked(sealed, at) else Ended(None);
        w.(calls := w.calls[id := call.(stage := stage)], now := at)
    case DeleteEvent(id, at) =>
      if id !in w.calls || !w.calls[id].stage.Checked? then w.(now := at)
      else
        var call := w.calls[id];
        if Matches(w, call, at) then
          World(w.store - {call.state}, w.calls[id := call.(stage := Ended(Some(call.stage.sealed.transaction)))],
                w.saves, w.wins + [WinOf(call, at)], w.nonces, at)
        else w.(calls := w.calls[id := call.(stage := Ended(None))], now := at)
  }

  /** Time does not run backwards, and every save draws a new nonce. */
  predicate Possible(w: World, e: Event) {
    w.now <= e.at && (e.SaveEvent? ==> e.nonce !in w.nonces)
  }

  function Run(events: seq<Event>): World {
    if events == [] then START else Apply(Run(events[..|events| - 1]), events[|events| - 1])
  }

  predicate Behaves(events: seq<Event>) {
    events == [] || (Behaves(events[..|events| - 1]) && Possible(Run(events[..|events| - 1]), events[|events| - 1]))
  }

  // ---- invariant ------------------------------------------------------------------------------

  ghost predicate SavesOk(w: World) {
    && (forall r :: r in w.saves ==> r.sealed.nonce in w.nonces && r.sealed.aad == r.state && r.at <= w.now)
    && (forall r, s :: r in w.saves && s in w.saves && r.sealed == s.sealed ==> r == s)
  }

  /** A stored value was saved 600 s before it expires and has not been consumed. */
  ghost predicate StoreOk(w: World) {
    forall state :: state in w.store ==>
      && SaveRecord(state, w.store[state].sealed, w.store[state].expiresAt - TTL) in w.saves
      && !Won(w, w.store[state].sealed)
  }

  ghost predicate Won(w: World, sealed: Sealed) {
    exists i :: 0 <= i < |w.wins| && w.wins[i].sealed == sealed
  }

  ghost predicate CallOk(call: Call, now: int) {
    call.stage.Checked? ==>
      call.stage.checkedAt <= now && Valid(call.stage.sealed, call.state, call.secret, call.stage.checkedAt)
  }

  ghost predicate CallsOk(w: World) {
    forall id :: id in w.calls ==> CallOk(w.calls[id], w.now)
  }

  /** A win is of a valid call, before its save's 600 s were over. */
  ghost predicate WinOk(w: World, win: Win) {
    && win.checkedAt <= win.at && Valid(win.sealed, win.state, win.secret, win.checkedAt)
    && exists r :: r in w.saves && r.state == win.state && r.sealed == win.sealed && r.at <= win.at < r.at + TTL
  }

  ghost predicate WinsOk(w: World) {
    && (forall i :: 0 <= i < |w.wins| ==> WinOk(w, w.wins[i]))
    && (forall i, j :: 0 <= i < j < |w.wins| ==> w.wins[i].sealed != w.wins[j].sealed)
  }

  /** A saved value is still there, was consumed, or has expired. */
  ghost predicate NoneLost(w: World) {
    forall r :: r in w.saves ==>
      (r.state in w.store && w.store[r.state].sealed == r.sealed) || Won(w, r.sealed) || r.at + TTL <= w.now
  }

  ghost predicate Inv(w: World) {
    WinsOk(w) && SavesOk(w) && StoreOk(w) && CallsOk(w) && NoneLost(w)
  }

  lemma WonStays(w: World, v: World, sealed: Sealed)
    requires w.wins <= v.wins
    ensures Won(w, sealed) ==> Won(v, sealed)
  {
    if i :| 0 <= i < |w.wins| && w.wins[i].sealed == sealed {
      assert v.wins[i] == w.wins[i];
    }
  }

  /** The invariant only looks at the clock to see what has expired. */
  lemma LaterIsFine(w: World, calls: map<nat, Call>, at: int)
    requires Inv(w) && w.now <= at
    requires forall id :: id in calls ==> CallOk(calls[id], at)
    ensures Inv(w.(calls := calls, now := at))
  {
    hide CallOk, Valid;
    var v := w.(calls := calls, now := at);
    forall sealed ensures Won(v, sealed) <==> Won(w, sealed) {
      WonStays(w, v, sealed);
      WonStays(v, w, sealed);
    }
    forall i | 0 <= i < |v.wins| ensures WinOk(v, v.wins[i]) {
      assert WinOk(w, w.wins[i]);
    }
  }

  lemma SaveKeepsInv(w: World, e: Event)
    requires Inv(w) && Possible(w, e) && e.SaveEvent?
    ensures Inv(Apply(w, e))
  {
    hide CallOk, Valid, NoneLost, StoreOk;
    var v := Apply(w, e);
    forall id | id in v.calls ensures CallOk(v.calls[id], v.now) {
      CallLater(w.calls[id], w.now, v.now);
    }
    forall i | 0 <= i < |v.wins| ensures WinOk(v, v.wins[i]) {
      assert WinOk(w, w.wins[i]);
    }
    SaveKeepsStore(w, e);
  }

  /** A new value has a new nonce, so it has not been consumed. */
  lemma SaveKeepsStore(w: World, e: Event)
    requires WinsOk(w) && SavesOk(w) && StoreOk(w) && NoneLost(w) && Possible(w, e) && e.SaveEvent?
    ensures StoreOk(Apply(w, e)) && NoneLost(Apply(w, e))
  {
    hide Valid;
    var v := Apply(w, e);
    forall sealed ensures Won(v, sealed) <==> Won(w, sealed) {
      WonStays(w, v, sealed);
      WonStays(v, w, sealed);
    }
    forall i | 0 <= i < |w.wins| ensures w.wins[i].sealed.nonce in w.nonces {
      assert WinOk(w, w.wins[i]);
    }
  }

  lemma CallLater(call: Call, now: int, later: int)
    requires CallOk(call, now) && now <= later
    ensures CallOk(call, later)
  {
  }

  lemma WinKeepsInv(w: World, e: Event)
    requires Inv(w) && Possible(w, e) && e.DeleteEvent? && e.id in w.calls && Matches(w, w.calls[e.id], e.at)
    ensures Inv(Apply(w, e))
  {
    hide CallOk, Valid;
    var v := Apply(w, e);
    var call := w.calls[e.id];
    var sealed := call.stage.sealed;
    assert v.wins[|w.wins|] == WinOf(call, e.at);
    forall x ensures Won(v, x) <==> Won(w, x) || x == sealed {
      WonStays(w, v, x);
    }
    forall id | id in v.calls ensures CallOk(v.calls[id], v.now) {
      if id != e.id { CallLater(w.calls[id], w.now, v.now); } else { EndedOk(v.calls[id], v.now); }
    }
    CallLater(call, w.now, e.at);
    var r := SaveRecord(call.state, sealed, w.store[call.state].expiresAt - TTL);
    assert r in w.saves;
    assert WinOk(v, WinOf(call, e.at));
    forall i | 0 <= i < |w.wins| ensures WinOk(v, v.wins[i]) && v.wins[i].sealed != sealed {
      assert WinOk(w, w.wins[i]);
    }
    StoreAfterWin(w, v, call);
  }

  lemma EndedOk(call: Call, now: int)
    requires call.stage.Ended?
    ensures CallOk(call, now)
  {
  }

  /** Values under other states are other values. */
  lemma StoreAfterWin(w: World, v: World, call: Call)
    requires SavesOk(w) && StoreOk(w) && v.saves == w.saves && v.store == w.store - {call.state}
    requires call.state in w.store && call.stage.Checked? && w.store[call.state].sealed == call.stage.sealed
    requires forall x :: Won(v, x) <==> Won(w, x) || x == call.stage.sealed
    ensures StoreOk(v)
  {
    hide Won;
    forall state | state in v.store ensures v.store[state].sealed != call.stage.sealed {
      assert SaveRecord(state, w.store[state].sealed, w.store[state].expiresAt - TTL) in w.saves;
      assert SaveRecord(call.state, w.store[call.state].sealed, w.store[call.state].expiresAt - TTL) in w.saves;
    }
  }

  lemma StepKeepsInv(w: World, e: Event)
    requires Inv(w) && Possible(w, e)
    ensures Inv(Apply(w, e))
  {
    hide SavesOk, StoreOk, WinsOk, NoneLost;
    if e.SaveEvent? {
      SaveKeepsInv(w, e);
    } else if e.DeleteEvent? && e.id in w.calls && Matches(w, w.calls[e.id], e.at) {
      WinKeepsInv(w, e);
    } else {
      var v := Apply(w, e);
      LaterIsFine(w, v.calls, e.at);
      assert v == w.(calls := v.calls, now := e.at);
    }
  }

  lemma {:induction false} RunKeepsInv(events: seq<Event>)
    requires Behaves(events)
    ensures Inv(Run(events))
  {
    hide Inv, Apply, Possible;
    if events == [] {
      StartIsFine();
    } else {
      var before := events[..|events| - 1];
      RunKeepsInv(before);
      StepKeepsInv(Run(before), events[|events| - 1]);
    }
  }

  lemma StartIsFine()
    ensures Inv(START)
  {
  }

  // ---- the promises -----------------------------------------------------------------------------

  /** A call alone gives the transaction exactly when it is stored under the state
      and not 600 s old, was sealed for the state, and was started by this browser
      no more than 600 s ago and no more than 60 s ahead; then it is gone. */
  lemma ConsumedIff(store: Store, state: string, secret: string, now: int, t: Transaction)
    ensures var (after, result) := Consumed(store, state, secret, now);
      && (result == Some(t) <==>
            && state in store && now < store[state].expiresAt
            && store[state].sealed.aad == state && store[state].sealed.transaction == t
            && t.browserHash == Digest(secret)
            && t.startedAt - 60_000 <= now <= t.startedAt + 600_000)
      && after == (if result.None? then store else store - {state})
  {
  }

  /** A save is kept for 600 s, unless the state is taken, which leaves everything as it was. */
  lemma SavedIff(store: Store, state: string, sealed: Sealed, now: int)
    ensures var after := Saved(store, state, sealed, now);
      if state in store && now < store[state].expiresAt then after == store
      else after == store[state := Entry(sealed, now + 600_000)]
  {
  }

  /** Under any interleaving no saved transaction is consumed twice; and each win
      is of the browser that started it, under the state it was saved for, and
      before the 600 s after the save were over. */
  lemma SingleUse(events: seq<Event>, i: nat)
    requires Behaves(events) && i < |Run(events).wins|
    ensures var win := Run(events).wins[i];
      && (forall j :: 0 <= j < |Run(events).wins| && j != i ==> Run(events).wins[j].sealed != win.sealed)
      && win.sealed.aad == win.state && win.sealed.transaction.browserHash == Digest(win.secret)
      && win.checkedAt <= win.at
      && win.sealed.transaction.startedAt - 60_000 <= win.checkedAt <= win.sealed.transaction.startedAt + 600_000
      && exists r :: (r in Run(events).saves && r.state == win.state && r.sealed == win.sealed
                      && r.at <= win.at < r.at + 600_000)
  {
    hide Run, Behaves;
    RunKeepsInv(events);
    var w := Run(events);
    assert WinOk(w, w.wins[i]);
  }

  /** Only a save over a free state and a checked callback of the right browser
      ever change the store. */
  lemma WrongBrowserChangesNothing(events: seq<Event>, e: Event)
    requires Behaves(events) && Possible(Run(events), e)
    requires Apply(Run(events), e).store != Run(events).store
    ensures var w := Run(events);
      if e.SaveEvent? then !Live(w.store, e.state, e.at)
      else e.DeleteEvent? && e.id in w.calls && var call := w.calls[e.id];
        Live(w.store, call.state, e.at) && Digest(call.secret) == w.store[call.state].sealed.transaction.browserHash
  {
    hide Run, Behaves;
    RunKeepsInv(events);
    assert e.DeleteEvent? && e.id in Run(events).calls ==> CallOk(Run(events).calls[e.id], Run(events).now);
  }

  /** A checked callback that comes too late lost to another one, or to the clock. */
  lemma LoserHasWinner(events: seq<Event>, id: nat, at: int)
    requires Behaves(events) && Possible(Run(events), DeleteEvent(id, at))
    requires id in Run(events).calls && Run(events).calls[id].stage.Checked?
    ensures var w := Run(events); var call := w.calls[id];
      !Matches(w, call, at) ==>
        Won(w, call.stage.sealed) || forall r :: r in w.saves && r.sealed == call.stage.sealed ==> r.at + TTL <= at
  {
    hide Run, Behaves;
    RunKeepsInv(events);
    var w := Run(events);
    var call := w.calls[id];
    if !Matches(w, call, at) && !Won(w, call.stage.sealed) {
      forall r | r in w.saves && r.sealed == call.stage.sealed ensures r.at + TTL <= at {
        assert CallOk(call, w.now);
        assert r.state == call.state;
        assert r.at + TTL <= w.now || (r.state in w.store && w.store[r.state].sealed == r.sealed);
        if r.state in w.store && w.store[r.state].sealed == r.sealed {
          assert SaveRecord(r.state, r.sealed, w.store[r.state].expiresAt - TTL) in w.saves;
        }
      }
    }
  }

  lemma RunGoesOn(events: seq<Event>, e: Event)
    ensures Run(events + [e]) == Apply(Run(events), e)
    ensures Behaves(events + [e]) <==>
      Behaves(events) && Run(events).now <= e.at && (e.SaveEvent? ==> e.nonce !in Run(events).nonces)
  {
    assert (events + [e])[..|events|] == events;
  }

  /** What a callback needs to win: the value stored until its last step, sealed
      for the state and started by this browser in time. */
  predicate MayWin(store: Store, state: string, secret: string, later: int, last: int) {
    && state in store && last < store[state].expiresAt
    && Digest(secret) == store[state].sealed.transaction.browserHash
    && var startedAt := store[state].sealed.transaction.startedAt;
      startedAt - 60_000 <= later <= startedAt + 600_000
  }

  lemma ThreeSteps(w: World, id: nat, state: string, secret: string, at: int, later: int, last: int)
    requires id !in w.calls && w.now <= at <= later <= last && MayWin(w.store, state, secret, later, last)
    requires w.store[state].sealed.aad == state
    ensures var a := Apply(w, ReadEvent(id, state, secret, at));
      var b := Apply(a, CheckEvent(id, later));
      var c := Apply(b, DeleteEvent(id, last));
      && a.now == at && b.now == later && c.store == w.store - {state} && |c.wins| == |w.wins| + 1
      && id in c.calls && c.calls[id].stage == Ended(Some(w.store[state].sealed.transaction))
  {
    var a := Apply(w, ReadEvent(id, state, secret, at));
    assert a.calls[id] == Call(state, secret, Read(w.store[state].sealed));
    var b := Apply(a, CheckEvent(id, later));
    assert b.calls[id] == Call(state, secret, Checked(w.store[state].sealed, later));
  }

  /** In any run: the browser that started a transaction, coming back in time
      while its value is stored, is given the transaction, and nobody is after it. */
  lemma RightBrowserWins(events: seq<Event>, id: nat, state: string, secret: string, at: int, later: int, last: int)
    returns (more: seq<Event>)
    requires Behaves(events) && id !in Run(events).calls && Run(events).now <= at <= later <= last
    requires MayWin(Run(events).store, state, secret, later, last)
    ensures more == events + [ReadEvent(id, state, secret, at), CheckEvent(id, later), DeleteEvent(id, last)]
    ensures Behaves(more) && Run(more).store == Run(events).store - {state}
    ensures id in Run(more).calls
    ensures Run(more).calls[id].stage == Ended(Some(Run(events).store[state].sealed.transaction))
    ensures |Run(more).wins| == |Run(events).wins| + 1
  {
    hide Run, Behaves, Apply;
    RunKeepsInv(events);
    var w := Run(events);
    assert w.store[state].sealed.aad == state;
    hide Inv, SavesOk, StoreOk, CallsOk, WinsOk, NoneLost;
    ThreeSteps(w, id, state, secret, at, later, last);
    var a := events + [ReadEvent(id, state, secret, at)];
    RunGoesOn(events, ReadEvent(id, state, secret, at));
    var b := a + [CheckEvent(id, later)];
    RunGoesOn(a, CheckEvent(id, later));
    more := b + [DeleteEvent(id, last)];
    RunGoesOn(b, DeleteEvent(id, last));
  }

  /** A callback that nothing interrupts is one call of `Consume`. */
  lemma UninterruptedCall(w: World, id: nat, state: string, secret: string, at: int)
    requires id !in w.calls
    ensures var v := Apply(Apply(Apply(w, ReadEvent(id, state, secret, at)), CheckEvent(id, at)), DeleteEvent(id, at));
      id in v.calls && v.calls[id].stage.Ended?
      && (v.store, v.calls[id].stage.result) == Consumed(w.store, state, secret, at)
  {
    var a := Apply(w, ReadEvent(id, state, secret, at));
    var b := Apply(a, CheckEvent(id, at));
    assert id in a.calls && id in b.calls;
  }
}
