/** Any number of reminder workers on one event, in any interleaving, with
    reschedules and opt-outs in between. Each statement is one atomic step. */
module ReminderProtocol {
  import opened OrderedMap
  import opened Reminders

  /** A claim of some offsets, made when the event had been moved `epoch` times. */
  datatype Claim = Claim(epoch: nat, startsAt: int, at: int, due: Due, delivered: bool)

  /** A worker between two statements: it holds a selected row, or a claim. */
  datatype Worker = Picked(now: int, row: Event) | Holding(claim: nat)

  /** `claims` keeps every claim but the released ones; `nextClaim` is unused. */
  datatype State = State(event: Event, epoch: nat, workers: map<nat, Worker>, claims: map<nat, Claim>, nextClaim: nat)

  datatype Action =
    | Pick(worker: nat, now: int)
    | TryClaim(worker: nat)
    | DeliverOk(worker: nat)
    | DeliverFail(worker: nat)
    | Move(startsAt: int)
    | SetEligibility(eligible: bool)

  function Start(event: Event): State {
    State(event.(sent := []), 0, map[], map[], 0)
  }

  function Forget(workers: map<nat, Worker>, w: nat): map<nat, Worker> {
    workers - {w}
  }

  /** One statement of one worker or one edit; a statement that does not apply changes nothing. */
  function Next(s: State, a: Action): State {
    match a
    case Pick(w, now) =>
      if w !in s.workers && Selected(s.event, now) then s.(workers := s.workers[w := Picked(now, s.event)]) else s
    case TryClaim(w) =>
      if w !in s.workers || !s.workers[w].Picked? then s
      else
        var Picked(now, row) := s.workers[w];
        var due := DueReminder(row.startsAt, now, row.sent);
        if due.None? then s.(workers := Forget(s.workers, w))
        else
          var claimed := ClaimRow(s.event, row.startsAt, due.value.markSent);
          if claimed.None? then s.(workers := Forget(s.workers, w))
          else s.(event := claimed.value,
                  claims := s.claims[s.nextClaim := Claim(s.epoch, row.startsAt, now, due.value, false)],
                  workers := s.workers[w := Holding(s.nextClaim)],
                  nextClaim := s.nextClaim + 1)
    case DeliverOk(w) =>
      if w in s.workers && s.workers[w].Holding? && s.workers[w].claim in s.claims then
        var c := s.workers[w].claim;
        s.(workers := Forget(s.workers, w), claims := s.claims[c := s.claims[c].(delivered := true)])
      else s
    case DeliverFail(w) =>
      if w in s.workers && s.workers[w].Holding? && s.workers[w].claim in s.claims then
        var c := s.workers[w].claim;
        s.(workers := Forget(s.workers, w), claims := s.claims - {c},
           event := ReleaseRow(s.event, s.claims[c].due.markSent))
      else s
    case Move(startsAt) =>
      s.(event := SaveStart(s.event, startsAt), epoch := if startsAt == s.event.startsAt then s.epoch else s.epoch + 1)
    case SetEligibility(eligible) => s.(event := s.event.(eligible := eligible))
  }

  /** The claim that a failed delivery is about to hand back. */
  predicate HandsBack(s: State, a: Action) {
    a.DeliverFail? && a.worker in s.workers && s.workers[a.worker].Holding? && s.workers[a.worker].claim in s.claims
  }

  /** No hand-back takes away what another claim owns: the event has not moved
      since the claim, or none of the claim's offsets is marked sent now. The
      release statement checks neither, so the protocol needs this of its environment. */
  ghost predicate Harmless(s: State, a: Action) {
    HandsBack(s, a) ==>
      var c := s.claims[s.workers[a.worker].claim];
      c.epoch == s.epoch || forall o :: o in c.due.markSent ==> o !in s.event.sent
  }

  function Run(s: State, actions: seq<Action>): State {
    if actions == [] then s else Next(Run(s, actions[..|actions| - 1]), actions[|actions| - 1])
  }

  ghost predicate AllHarmless(s: State, actions: seq<Action>) {
    forall i :: 0 <= i < |actions| ==> Harmless(Run(s, actions[..i]), actions[i])
  }

  // ---- what every step keeps ------------------------------------------------------------

  ghost predicate DisjointMarks(c: Claim, d: Claim) {
    forall o :: o in c.due.markSent ==> o !in d.due.markSent
  }

  /** Claims made for one start time, outstanding or delivered, share no offset. */
  ghost predicate ClaimsDisjoint(s: State) {
    forall c, d :: c in s.claims && d in s.claims && c != d && s.claims[c].epoch == s.claims[d].epoch
      ==> DisjointMarks(s.claims[c], s.claims[d])
  }

  /** The sent set is the offsets of the present start's claims, no more and no less. */
  ghost predicate SentIsClaimed(s: State) {
    && (forall c, o :: c in s.claims && s.claims[c].epoch == s.epoch && o in s.claims[c].due.markSent ==>
          o in s.event.sent)
    && (forall o :: o in s.event.sent ==> Covered(s, o))
  }

  ghost predicate Covered(s: State, o: int) {
    exists c :: c in s.claims && s.claims[c].epoch == s.epoch && o in s.claims[c].due.markSent
  }

  ghost predicate Bookkeeping(s: State) {
    && (forall c :: c in s.claims ==> c < s.nextClaim && s.claims[c].epoch <= s.epoch)
    && (forall c :: c in s.claims ==> s.claims[c].due.offset in s.claims[c].due.markSent)
    && (forall w :: w in s.workers && s.workers[w].Holding? ==>
          s.workers[w].claim in s.claims && !s.claims[s.workers[w].claim].delivered)
    && (forall v, w :: v in s.workers && w in s.workers && v != w && s.workers[v].Holding? && s.workers[w].Holding? ==>
          s.workers[v].claim != s.workers[w].claim)
  }

  ghost predicate Inv(s: State) {
    ClaimsDisjoint(s) && SentIsClaimed(s) && Bookkeeping(s)
  }

  lemma ClaimKeepsInv(s: State, w: nat)
    requires Inv(s)
    ensures Inv(Next(s, TryClaim(w)))
  {
    hide DueReminder;
    if w in s.workers && s.workers[w].Picked? {
      var Picked(now, row) := s.workers[w];
      DueReminderSpec(row.startsAt, now, row.sent);
      var due := DueReminder(row.startsAt, now, row.sent);
      if due.Some? && ClaimRow(s.event, row.startsAt, due.value.markSent).Some? {
        AddClaimKeepsInv(s, Next(s, TryClaim(w)), w, Claim(s.epoch, row.startsAt, now, due.value, false));
      }
    }
  }

  lemma AddClaimKeepsInv(s: State, t: State, w: nat, c: Claim)
    requires Inv(s) && c.epoch == s.epoch && !c.delivered && c.due.offset in c.due.markSent
    requires forall o :: o in c.due.markSent ==> o !in s.event.sent
    requires t == s.(event := s.event.(sent := s.event.sent + c.due.markSent), claims := s.claims[s.nextClaim := c],
                     workers := s.workers[w := Holding(s.nextClaim)], nextClaim := s.nextClaim + 1)
    ensures Inv(t)
  {
    AddClaimKeepsSent(s, t, c);
    AddClaimKeepsBooks(s, t, w, c);
    hide SentIsClaimed, Bookkeeping;
    forall d | d in s.claims && s.claims[d].epoch == c.epoch
      ensures DisjointMarks(s.claims[d], c) && DisjointMarks(c, s.claims[d])
    {
      SentOf(s, d);
    }
  }

  lemma SentOf(s: State, d: nat)
    requires SentIsClaimed(s) && d in s.claims && s.claims[d].epoch == s.epoch
    ensures forall o :: o in s.claims[d].due.markSent ==> o in s.event.sent
  {
  }

  lemma AddClaimKeepsSent(s: State, t: State, c: Claim)
    requires SentIsClaimed(s) && s.nextClaim !in s.claims && c.epoch == s.epoch == t.epoch
    requires t.event.sent == s.event.sent + c.due.markSent && t.claims == s.claims[s.nextClaim := c]
    ensures SentIsClaimed(t)
  {
    forall o | o in t.event.sent ensures Covered(t, o) {
      if o in s.event.sent {
        assert Covered(s, o);
        var d :| d in s.claims && s.claims[d].epoch == s.epoch && o in s.claims[d].due.markSent;
        assert d in t.claims && t.claims[d] == s.claims[d];
      } else {
        assert t.claims[s.nextClaim] == c;
      }
    }
  }

  lemma AddClaimKeepsBooks(s: State, t: State, w: nat, c: Claim)
    requires Bookkeeping(s) && c.epoch == s.epoch == t.epoch && !c.delivered && c.due.offset in c.due.markSent
    requires t.claims == s.claims[s.nextClaim := c] && t.nextClaim == s.nextClaim + 1
    requires t.workers == s.workers[w := Holding(s.nextClaim)]
    ensures Bookkeeping(t)
  {
  }

  // ---- when a claim is won ---------------------------------------------------------------

  /** Something is due for the row as it was picked, and the event as it stands
      is eligible, starts when the row did, and has none of the due offsets marked. */
  ghost predicate Claimable(event: Event, row: Event, now: int) {
    && event.eligible && event.startsAt == row.startsAt
    && (exists o :: DueAt(row, now, o))
    && (forall o :: DueAt(row, now, o) ==> o !in event.sent)
  }

  /** A claim of the due offsets of a row picked at its time. */
  ghost predicate ClaimsDue(c: Claim, row: Event) {
    && c.startsAt == row.startsAt
    && (forall o :: o in c.due.markSent <==> DueAt(row, c.at, o))
    && DueAt(row, c.at, c.due.offset) && (forall o :: DueAt(row, c.at, o) ==> c.due.offset <= o)
  }

  /** A worker's claim is won exactly when it can be made on the event as it stands
      at that step, so an opt-out, a move or another worker's claim since the
      SELECT wins. It marks the due offsets, and a lost claim only ends the turn. */
  lemma ClaimWonIff(s: State, w: nat)
    requires w in s.workers && s.workers[w].Picked? && s.nextClaim !in s.claims
    ensures var t := Next(s, TryClaim(w));
      var Picked(now, row) := s.workers[w];
      && (t.claims != s.claims <==> Claimable(s.event, row, now))
      && (t.claims == s.claims ==> t == s.(workers := s.workers - {w}))
      && (t.claims != s.claims ==>
            && t.claims.Keys == s.claims.Keys + {s.nextClaim}
            && (forall c :: c in s.claims ==> t.claims[c] == s.claims[c])
            && ClaimsDue(t.claims[s.nextClaim], row) && t.claims[s.nextClaim].at == now
            && t.claims[s.nextClaim].epoch == s.epoch && !t.claims[s.nextClaim].delivered
            && (forall o :: o in t.event.sent <==> o in s.event.sent || DueAt(row, now, o))
            && t == s.(event := s.event.(sent := t.event.sent), claims := t.claims,
                       workers := s.workers[w := Holding(s.nextClaim)], nextClaim := s.nextClaim + 1))
  {
    hide DueReminder, DueAt;
    var Picked(now, row) := s.workers[w];
    DueInNumbers(row, now);
    var due := DueReminder(row.startsAt, now, row.sent);
    if due.Some? { NoOverlapIff(s.event.sent, due.value.markSent); }
  }

  lemma NoOverlapIff(xs: seq<int>, ys: seq<int>)
    ensures Overlap(xs, ys) <==> exists o :: o in ys && o in xs
  {
    if Overlap(xs, ys) {
      var i :| 0 <= i < |xs| && xs[i] in ys;
      var o := xs[i];
      assert o in ys && o in xs;
    } else {
      forall o | o in ys ensures o !in xs {
        forall i | 0 <= i < |xs| ensures xs[i] != o {}
      }
    }
  }

  /** Step `i` of the run was the pick of `row` at `now` by the worker. */
  ghost predicate PickedAt(s: State, actions: seq<Action>, i: nat, w: nat, now: int, row: Event) {
    && i < |actions| && actions[i] == Pick(w, now) && Run(s, actions[..i]).event == row
    && row.eligible && now < row.startsAt <= now + 86_460_000
  }

  /** Step `i` of the run won the claim, of what was due for a row picked at step `j`. */
  ghost predicate WonAt(s: State, actions: seq<Action>, j: nat, i: nat, c: Claim, row: Event) {
    && j < i < |actions| && actions[i].TryClaim?
    && PickedAt(s, actions, j, actions[i].worker, c.at, row)
    && ClaimsDue(c, row) && Claimable(Run(s, actions[..i]).event, row, c.at) && Run(s, actions[..i]).epoch == c.epoch
  }

  ghost predicate WasPicked(s: State, actions: seq<Action>, w: nat, now: int, row: Event) {
    exists i: nat :: PickedAt(s, actions, i, w, now, row)
  }

  ghost predicate WasWon(s: State, actions: seq<Action>, c: Claim) {
    exists j: nat, i: nat, row :: WonAt(s, actions, j, i, c, row)
  }

  lemma StillPicked(s: State, actions: seq<Action>, a: Action, w: nat, now: int, row: Event)
    requires WasPicked(s, actions, w, now, row)
    ensures WasPicked(s, actions + [a], w, now, row)
  {
    var i: nat :| PickedAt(s, actions, i, w, now, row);
    assert (actions + [a])[..i] == actions[..i];
    assert PickedAt(s, actions + [a], i, w, now, row);
  }

  lemma StillWon(s: State, actions: seq<Action>, a: Action, c: Claim, d: Claim)
    requires WasWon(s, actions, c) && d == c.(delivered := d.delivered)
    ensures WasWon(s, actions + [a], d)
  {
    hide Run, DueAt, Claimable;
    var j: nat, i: nat, row :| WonAt(s, actions, j, i, c, row);
    var more := actions + [a];
    assert more[..i] == actions[..i] && more[..j] == actions[..j];
    assert WonAt(s, more, j, i, d, row);
  }

  /** Every row a worker holds was the eligible event when the worker picked it,
      which starts within a day and a minute of that. */
  lemma {:induction false} RowsWerePicked(s: State, actions: seq<Action>, w: nat)
    requires s.workers == map[]
    requires w in Run(s, actions).workers && Run(s, actions).workers[w].Picked?
    ensures var Picked(now, row) := Run(s, actions).workers[w]; WasPicked(s, actions, w, now, row)
  {
    hide DueReminder, ClaimRow, ReleaseRow;
    if actions != [] {
      var n := |actions| - 1;
      var u := Run(s, actions[..n]);
      var Picked(now, row) := Run(s, actions).workers[w];
      assert actions == actions[..n] + [actions[n]];
      if w in u.workers && u.workers[w].Picked? {
        RowsWerePicked(s, actions[..n], w);
        StillPicked(s, actions[..n], actions[n], w, now, row);
      } else {
        assert PickedAt(s, actions, n, w, now, row);
      }
    }
  }

  /** However workers, edits and opt-outs interleave: every claim was won at a
      step before which the event was eligible, had the claim's start and none of
      its offsets marked; and what it claims is exactly what was due for the
      event as its worker had picked it. */
  lemma {:induction false} ClaimsWereWon(event: Event, actions: seq<Action>, c: nat)
    requires c in Run(Start(event), actions).claims
    ensures WasWon(Start(event), actions, Run(Start(event), actions).claims[c])
  {
    hide DueReminder, ClaimRow, ReleaseRow, DueAt, Claimable, ClaimsDue, WasWon, WasPicked;
    var s := Start(event);
    if actions != [] {
      var n := |actions| - 1;
      var u := Run(s, actions[..n]);
      assert actions == actions[..n] + [actions[n]];
      if c in u.claims && u.claims[c].(delivered := false) == Run(s, actions).claims[c].(delivered := false) {
        ClaimsWereWon(event, actions[..n], c);
        StillWon(s, actions[..n], actions[n], u.claims[c], Run(s, actions).claims[c]);
      } else {
        NewClaimWasWon(s, actions, c);
      }
    }
  }

  lemma NewClaimWasWon(s: State, actions: seq<Action>, c: nat)
    requires s.workers == map[] && s.claims == map[] && actions != [] && c in Run(s, actions).claims
    requires var u := Run(s, actions[..|actions| - 1]);
      c in u.claims ==> u.claims[c].(delivered := false) != Run(s, actions).claims[c].(delivered := false)
    ensures WasWon(s, actions, Run(s, actions).claims[c])
  {
    hide DueReminder, ClaimRow, ReleaseRow, DueAt, Claimable, ClaimsDue;
    var n := |actions| - 1;
    var u := Run(s, actions[..n]);
    var a := actions[n];
    assert a.TryClaim? && a.worker in u.workers && u.workers[a.worker].Picked?;
    var Picked(now, row) := u.workers[a.worker];
    ClaimsAreNumbered(s, actions[..n]);
    ClaimWonIff(u, a.worker);
    RowsWerePicked(s, actions[..n], a.worker);
    var j: nat :| PickedAt(s, actions[..n], j, a.worker, now, row);
    assert actions[..n][..j] == actions[..j];
    assert WonAt(s, actions, j, n, Run(s, actions).claims[c], row);
  }

  lemma {:induction false} ClaimsAreNumbered(s: State, actions: seq<Action>)
    requires s.claims == map[]
    ensures forall c :: c in Run(s, actions).claims ==> c < Run(s, actions).nextClaim
  {
    hide DueReminder, ClaimRow, ReleaseRow;
    if actions != [] {
      ClaimsAreNumbered(s, actions[..|actions| - 1]);
      var u := Run(s, actions[..|actions| - 1]);
      if HandsBack(u, actions[|actions| - 1]) { assert Run(s, actions).claims.Keys <= u.claims.Keys; }
    }
  }

  lemma DeliverKeepsInv(s: State, w: nat)
    requires Inv(s)
    ensures Inv(Next(s, DeliverOk(w)))
  {
    hide Inv, SentIsClaimed, ClaimsDisjoint, Bookkeeping;
    InvParts(s);
    if w in s.workers && s.workers[w].Holding? && s.workers[w].claim in s.claims {
      var t := Next(s, DeliverOk(w));
      SameMarksKeepSent(s, t);
      SameMarksStayDisjoint(s, t);
      DeliverKeepsBooks(s, w);
      InvParts(t);
    }
  }

  lemma InvParts(s: State)
    ensures Inv(s) <==> ClaimsDisjoint(s) && SentIsClaimed(s) && Bookkeeping(s)
  {
  }

  /** The claims are the same but for being delivered. */
  ghost predicate SameMarks(s: State, t: State) {
    && t.claims.Keys == s.claims.Keys && t.epoch == s.epoch && t.event.sent == s.event.sent
    && forall c :: c in s.claims ==> t.claims[c].due == s.claims[c].due && t.claims[c].epoch == s.claims[c].epoch
  }

  lemma SameMarksKeepSent(s: State, t: State)
    requires SentIsClaimed(s) && SameMarks(s, t)
    ensures SentIsClaimed(t)
  {
    forall o | o in t.event.sent ensures Covered(t, o) {
      assert Covered(s, o);
      var d :| d in s.claims && s.claims[d].epoch == s.epoch && o in s.claims[d].due.markSent;
      assert d in t.claims && t.claims[d].due == s.claims[d].due;
    }
  }

  lemma SameMarksStayDisjoint(s: State, t: State)
    requires ClaimsDisjoint(s) && SameMarks(s, t)
    ensures ClaimsDisjoint(t)
  {
    forall c, d | c in t.claims && d in t.claims && c != d && t.claims[c].epoch == t.claims[d].epoch
      ensures DisjointMarks(t.claims[c], t.claims[d])
    {
      assert DisjointMarks(s.claims[c], s.claims[d]);
    }
  }

  lemma DeliverKeepsBooks(s: State, w: nat)
    requires Bookkeeping(s) && w in s.workers && s.workers[w].Holding? && s.workers[w].claim in s.claims
    ensures Bookkeeping(Next(s, DeliverOk(w)))
  {
  }

  lemma ReleaseKeepsInv(s: State, w: nat)
    requires Inv(s) && Harmless(s, DeliverFail(w))
    ensures Inv(Next(s, DeliverFail(w)))
  {
    hide Inv, SentIsClaimed, ClaimsDisjoint, Bookkeeping;
    InvParts(s);
    if HandsBack(s, DeliverFail(w)) {
      ReleaseKeepsSent(s, w);
      ReleaseStaysDisjoint(s, w);
      ReleaseKeepsBooks(s, w);
      InvParts(Next(s, DeliverFail(w)));
    }
  }

  lemma ReleaseKeepsSent(s: State, w: nat)
    requires SentIsClaimed(s) && ClaimsDisjoint(s) && HandsBack(s, DeliverFail(w)) && Harmless(s, DeliverFail(w))
    ensures SentIsClaimed(Next(s, DeliverFail(w)))
  {
    hide ClaimsDisjoint;
    var t := Next(s, DeliverFail(w));
    var c := s.workers[w].claim;
    forall o | o in t.event.sent ensures Covered(t, o) {
      assert Covered(s, o);
      var d :| d in s.claims && s.claims[d].epoch == s.epoch && o in s.claims[d].due.markSent;
      assert d in t.claims && t.claims[d] == s.claims[d];
    }
    forall d, o | d in t.claims && t.claims[d].epoch == t.epoch && o in t.claims[d].due.markSent
      ensures o in t.event.sent
    {
      assert o in s.event.sent;
      if s.claims[c].epoch == s.epoch { TwoClaims(s, d, c); }
    }
  }

  lemma TwoClaims(s: State, c: nat, d: nat)
    requires ClaimsDisjoint(s) && c in s.claims && d in s.claims && c != d && s.claims[c].epoch == s.claims[d].epoch
    ensures DisjointMarks(s.claims[c], s.claims[d])
  {
  }

  lemma ReleaseStaysDisjoint(s: State, w: nat)
    requires ClaimsDisjoint(s) && HandsBack(s, DeliverFail(w))
    ensures ClaimsDisjoint(Next(s, DeliverFail(w)))
  {
    hide DisjointMarks, ReleaseRow;
  }

  lemma ReleaseKeepsBooks(s: State, w: nat)
    requires Bookkeeping(s) && HandsBack(s, DeliverFail(w))
    ensures Bookkeeping(Next(s, DeliverFail(w)))
  {
    hide ReleaseRow;
  }

  /** The condition is exact: any other hand-back breaks the protocol, leaving an
      offset that a claim of the present start owns unmarked. */
  lemma HandBackIsSafeIffHarmless(s: State, a: Action)
    requires Inv(s) && HandsBack(s, a)
    ensures Inv(Next(s, a)) <==> Harmless(s, a)
  {
    if Harmless(s, a) {
      ReleaseKeepsInv(s, a.worker);
    } else {
      var c := s.workers[a.worker].claim;
      var o :| o in s.claims[c].due.markSent && o in s.event.sent;
      assert Covered(s, o);
      var d :| d in s.claims && s.claims[d].epoch == s.epoch && o in s.claims[d].due.markSent;
      var t := Next(s, a);
      assert d in t.claims && t.claims[d] == s.claims[d] && o !in t.event.sent;
    }
  }

  lemma MoveKeepsInv(s: State, startsAt: int)
    requires Inv(s)
    ensures Inv(Next(s, Move(startsAt)))
  {
    var t := Next(s, Move(startsAt));
    if startsAt == s.event.startsAt { assert t == s; }
  }

  lemma StepKeepsInv(s: State, a: Action)
    requires Inv(s) && Harmless(s, a)
    ensures Inv(Next(s, a))
  {
    match a
    case Pick(w, now) => OtherKeepsInv(s, Next(s, a));
    case TryClaim(w) => ClaimKeepsInv(s, w);
    case DeliverOk(w) => DeliverKeepsInv(s, w);
    case DeliverFail(w) => ReleaseKeepsInv(s, w);
    case Move(startsAt) => MoveKeepsInv(s, startsAt);
    case SetEligibility(_) => OtherKeepsInv(s, Next(s, a));
  }

  lemma OtherKeepsInv(s: State, t: State)
    requires Inv(s) && t.claims == s.claims && t.event.sent == s.event.sent
    requires t.epoch == s.epoch && t.nextClaim == s.nextClaim
    requires forall w :: w in t.workers && t.workers[w].Holding? ==> w in s.workers && s.workers[w] == t.workers[w]
    ensures Inv(t)
  {
    forall o | o in t.event.sent ensures Covered(t, o) {
      assert Covered(s, o);
    }
  }

  lemma StartIsFine(event: Event)
    ensures Inv(Start(event))
  {
  }

  lemma {:induction false} RunKeepsInv(event: Event, actions: seq<Action>)
    requires AllHarmless(Start(event), actions)
    ensures Inv(Run(Start(event), actions))
  {
    hide Inv, Next, Harmless;
    if actions == [] { StartIsFine(event); }
    if actions != [] {
      var n := |actions| - 1;
      var init := actions[..n];
      forall i | 0 <= i < n ensures Harmless(Run(Start(event), init[..i]), init[i]) {
        assert init[..i] == actions[..i];
      }
      RunKeepsInv(event, init);
      StepKeepsInv(Run(Start(event), init), actions[n]);
    }
  }

  /** Every prefix of a run keeps the invariant exactly when every hand-back in it is harmless. */
  lemma SafeIffAllHarmless(event: Event, actions: seq<Action>)
    ensures AllHarmless(Start(event), actions) <==>
      forall n :: 0 <= n <= |actions| ==> Inv(Run(Start(event), actions[..n]))
  {
    hide Inv, Next, Harmless, Run;
    var s := Start(event);
    if AllHarmless(s, actions) {
      forall n | 0 <= n <= |actions| ensures Inv(Run(s, actions[..n])) {
        forall i | 0 <= i < n ensures Harmless(Run(s, actions[..n][..i]), actions[..n][i]) {
          assert actions[..n][..i] == actions[..i];
        }
        RunKeepsInv(event, actions[..n]);
      }
    } else {
      var i :| 0 <= i < |actions| && !Harmless(Run(s, actions[..i]), actions[i]);
      if Inv(Run(s, actions[..i])) {
        HarmlessUnlessHandingBack(Run(s, actions[..i]), actions[i]);
        HandBackIsSafeIffHarmless(Run(s, actions[..i]), actions[i]);
        RunSnoc(s, actions[..i], actions[i]);
        assert actions[..i + 1] == actions[..i] + [actions[i]];
        assert !Inv(Run(s, actions[..i + 1]));
      }
    }
  }

  lemma HarmlessUnlessHandingBack(s: State, a: Action)
    ensures HandsBack(s, a) || Harmless(s, a)
  {
  }

  /** Two claims for one start time both cover the offset. */
  ghost predicate SharedOffset(c: Claim, d: Claim, o: int) {
    c.epoch == d.epoch && o in c.due.markSent && o in d.due.markSent
  }

  /** In every interleaving in which the hand-backs are harmless, so whenever no
      failed delivery is handed back across a move: the outstanding claims and the deliveries for one start time share
      no offset, so each offset is delivered at most once for it; and the sent
      set is exactly the union of the present start's. */
  lemma AtMostOneDeliveryPerOffset(event: Event, actions: seq<Action>, o: int)
    requires AllHarmless(Start(event), actions)
    ensures var s := Run(Start(event), actions);
      && (forall c, d :: c in s.claims && d in s.claims && SharedOffset(s.claims[c], s.claims[d], o) ==> c == d)
      && (o in s.event.sent <==>
            exists c :: c in s.claims && s.claims[c].epoch == s.epoch && o in s.claims[c].due.markSent)
  {
    RunKeepsInv(event, actions);
    var s := Run(Start(event), actions);
    hide Run;
    assert Covered(s, o) <==>
      exists c :: c in s.claims && s.claims[c].epoch == s.epoch && o in s.claims[c].due.markSent;
    forall c, d | c in s.claims && d in s.claims && SharedOffset(s.claims[c], s.claims[d], o) ensures c == d {
      assert c != d ==> DisjointMarks(s.claims[c], s.claims[d]);
    }
  }

  /** A failed delivery hands back exactly its own offsets: the others stay
      sent, its own may be claimed again. */
  lemma ReleaseIsExact(s: State, w: nat, o: int)
    requires Inv(s) && w in s.workers && s.workers[w].Holding?
    requires s.claims[s.workers[w].claim].epoch == s.epoch
    ensures o in Next(s, DeliverFail(w)).event.sent <==>
      o in s.event.sent && o !in s.claims[s.workers[w].claim].due.markSent
    ensures o in s.claims[s.workers[w].claim].due.markSent ==> o in s.event.sent
  {
  }

  /** From `s` to `t` the event takes the tick; the offset the tick delivers is
      that of one new delivered claim, and without one there is no new claim. */
  ghost predicate IsTick(s: State, t: State, now: int, delivers: bool) {
    var (event, offset) := TickEvent(s.event, now, delivers);
    && t.event == event && t.workers == s.workers && t.epoch == s.epoch
    && (offset.None? ==> t.claims == s.claims)
    && (offset.Some? ==>
          && s.nextClaim !in s.claims && t.claims.Keys == s.claims.Keys + {s.nextClaim}
          && (forall c :: c in s.claims ==> t.claims[c] == s.claims[c])
          && t.claims[s.nextClaim].delivered && t.claims[s.nextClaim].due.offset == offset.value
          && t.claims[s.nextClaim].epoch == s.epoch && t.claims[s.nextClaim].at == now)
  }

  /** An undisturbed tick is a run of the protocol by one worker. */
  lemma TickIsARun(s: State, w: nat, now: int, delivers: bool)
    requires w !in s.workers && Bookkeeping(s)
    ensures var last := if delivers then DeliverOk(w) else DeliverFail(w);
      IsTick(s, Run(s, [Pick(w, now), TryClaim(w), last]), now, delivers)
  {
    hide DueReminder, Bookkeeping, IsTick;
    var last := if delivers then DeliverOk(w) else DeliverFail(w);
    var actions := [Pick(w, now), TryClaim(w), last];
    assert actions[..2] == [Pick(w, now), TryClaim(w)];
    assert actions[..2][..1] == [Pick(w, now)] && actions[..2][..1][..0] == [];
    assert Run(s, actions[..2][..1]) == Next(s, Pick(w, now));
    assert Run(s, actions) == Next(Next(Next(s, Pick(w, now)), TryClaim(w)), last);
    NextClaimIsNew(s);
    ThreeStatements(s, w, now, delivers);
  }

  lemma NextClaimIsNew(s: State)
    requires Bookkeeping(s)
    ensures s.nextClaim !in s.claims
  {
  }

  lemma ThreeStatements(s: State, w: nat, now: int, delivers: bool)
    requires w !in s.workers && s.nextClaim !in s.claims
    ensures var last := if delivers then DeliverOk(w) else DeliverFail(w);
      IsTick(s, Next(Next(Next(s, Pick(w, now)), TryClaim(w)), last), now, delivers)
  {
    hide DueReminder, ClaimRow, ReleaseRow, Selected;
    var due := DueReminder(s.event.startsAt, now, s.event.sent);
    var a := Next(s, Pick(w, now));
    var b := Next(a, TryClaim(w));
    if Selected(s.event, now) && due.Some? {
      ClaimIsWon(s, w, now);
    } else {
      assert b == s;
    }
  }

  lemma ClaimIsWon(s: State, w: nat, now: int)
    requires w !in s.workers && Selected(s.event, now) && DueReminder(s.event.startsAt, now, s.event.sent).Some?
    ensures var due := DueReminder(s.event.startsAt, now, s.event.sent).value;
      var claimed := ClaimRow(s.event, s.event.startsAt, due.markSent);
      && claimed.Some?
      && Next(Next(s, Pick(w, now)), TryClaim(w)) == s.(event := claimed.value, nextClaim := s.nextClaim + 1,
           claims := s.claims[s.nextClaim := Claim(s.epoch, s.event.startsAt, now, due, false)],
           workers := s.workers[w := Holding(s.nextClaim)])
  {
    hide DueReminder, ClaimRow;
    UndisturbedClaim(s.event, now);
  }

  lemma RunSnoc(s: State, actions: seq<Action>, a: Action)
    ensures Run(s, actions + [a]) == Next(Run(s, actions), a)
  {
    assert (actions + [a])[..|actions|] == actions;
  }

  /** A worker picks the event at `now` and claims what is due: the claim covers 15 minutes. */
  lemma PickAndClaim(s: State, actions: seq<Action>, w: nat, now: int) returns (t: State, more: seq<Action>)
    requires Run(s, actions).event.eligible && w !in Run(s, actions).workers
    requires now < Run(s, actions).event.startsAt <= now + 15 * MINUTE && 15 !in Run(s, actions).event.sent
    ensures t == Run(s, more)
    ensures var u := Run(s, actions);
      && u.nextClaim in t.claims && t.claims[u.nextClaim].epoch == u.epoch && 15 in t.claims[u.nextClaim].due.markSent
      && t.workers == u.workers[w := Holding(u.nextClaim)] && t.nextClaim == u.nextClaim + 1 && t.epoch == u.epoch
      && t.event == u.event.(sent := u.event.sent + t.claims[u.nextClaim].due.markSent)
      && t.claims == u.claims[u.nextClaim := t.claims[u.nextClaim]]
  {
    hide Run, DueReminder;
    var u := Run(s, actions);
    more := actions + [Pick(w, now)];
    RunSnoc(s, actions, Pick(w, now));
    var v := Run(s, more);
    assert v == u.(workers := u.workers[w := Picked(now, u.event)]);
    RunSnoc(s, more, TryClaim(w));
    more := more + [TryClaim(w)];
    t := Run(s, more);
    DueReminderSpec(u.event.startsAt, now, u.event.sent);
    assert 15 in OFFSETS && IsDue(u.event.startsAt, now, u.event.sent, 15);
    UndisturbedClaim(u.event, now);
  }

  lemma Act(s: State, actions: seq<Action>, a: Action) returns (t: State, more: seq<Action>)
    ensures t == Run(s, more) == Next(Run(s, actions), a)
  {
    more := actions + [a];
    RunSnoc(s, actions, a);
    t := Run(s, more);
  }

  /** Without the hypothesis the protocol sends twice: a worker claims, the
      event moves by a millisecond, a second worker claims and delivers for the
      new start, the first one fails and hands back offsets that are no longer
      its own, and a third worker delivers the 15-minute reminder again. */
  lemma StaleReleaseSendsTwice() returns (event: Event, actions: seq<Action>)
    ensures var s := Run(Start(event), actions);
      exists c, d :: c in s.claims && d in s.claims && c != d && s.claims[c].delivered && s.claims[d].delivered
        && SharedOffset(s.claims[c], s.claims[d], 15)
  {
    hide Run, DueReminder;
    event := Event(10 * MINUTE, [], true);
    var s0 := Start(event);
    assert Run(s0, []) == s0 by { RunNothing(s0); }
    var s1, a1 := PickAndClaim(s0, [], 1, 0);
    var s2, a2 := Act(s0, a1, Move(10 * MINUTE + 1));
    var s3, a3 := PickAndClaim(s0, a2, 2, 1);
    var s4, a4 := Act(s0, a3, DeliverOk(2));
    var s5, a5 := Act(s0, a4, DeliverFail(1));
    assert s5.workers == map[] && s5.claims.Keys == {1};
    var s6, a6 := PickAndClaim(s0, a5, 3, 1);
    var s7, a7 := Act(s0, a6, DeliverOk(3));
    actions := a7;
    assert 1 in s7.claims && 2 in s7.claims && SharedOffset(s7.claims[1], s7.claims[2], 15);
  }

  lemma RunNothing(s: State)
    ensures Run(s, []) == s
  {
  }
}
