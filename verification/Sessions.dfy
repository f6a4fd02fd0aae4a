/** Session rows and their idle timeout: apps/api/src/modules/auth/session.store.ts.
    Times are milliseconds of the application clock. */
module Sessions {
  import opened OrderedMap

  const IDLE_TIMEOUT: int := 600_000
  const SESSION_TTL: int := 604_800_000

  datatype Session = Session(userId: nat, expiresAt: int, lastActivityAt: int)

  type Cell = Option<Session>

  function Created(userId: nat, now: int): Session {
    Session(userId, now + SESSION_TTL, now)
  }

  predicate IsIdle(s: Session, now: int) {
    now - s.lastActivityAt >= IDLE_TIMEOUT
  }

  /** `find` returns the session: not idle, not expired, its user live and active. */
  predicate Found(cell: Cell, now: int, userActive: bool) {
    cell.Some? && !IsIdle(cell.value, now) && now < cell.value.expiresAt && userActive
  }

  /** The guarded UPDATE of `recordActivity` matches the row. */
  predicate Accepts(cell: Cell, now: int) {
    cell.Some? && now < cell.value.expiresAt && cell.value.lastActivityAt > now - IDLE_TIMEOUT
  }

  class SessionStore {
    var sessions: map<string, Session>

    constructor ()
      ensures sessions == map[]
    {
      sessions := map[];
    }

    function At(token: string): Cell
      reads this
    {
      if token in sessions then Some(sessions[token]) else None
    }

    /** `token` is the random token drawn for the new session. */
    method Create(token: string, userId: nat, now: int)
      requires token != "" && token !in sessions
      modifies this
      ensures At(token) == Some(Created(userId, now)) && sessions == old(sessions)[token := Created(userId, now)]
    {
      sessions := sessions[token := Created(userId, now)];
    }

    method Find(token: string, now: int, userActive: bool) returns (found: bool)
      modifies this
      ensures found == (token != "" && Found(old(At(token)), now, userActive))
      ensures sessions == if token != "" && token in old(sessions) && IsIdle(old(sessions)[token], now)
        then old(sessions) - {token} else old(sessions)
    {
      if token == "" || token !in sessions { return false; }
      var row := sessions[token];
      if now - row.lastActivityAt >= IDLE_TIMEOUT {
        Destroy(token);
        return false;
      }
      if row.expiresAt <= now || !userActive { return false; }
      found := true;
    }

    method RecordActivity(token: string, now: int) returns (accepted: bool)
      modifies this
      ensures accepted == (token != "" && Accepts(old(At(token)), now))
      ensures accepted ==> sessions == old(sessions)[token := old(sessions)[token].(lastActivityAt := now)]
      ensures !accepted ==> sessions == if token == "" then old(sessions) else old(sessions) - {token}
    {
      if token == "" { return false; }
      if token in sessions && sessions[token].expiresAt > now && sessions[token].lastActivityAt > now - IDLE_TIMEOUT {
        sessions := sessions[token := sessions[token].(lastActivityAt := now)];
        return true;
      }
      Destroy(token);
      accepted := false;
    }

    method Destroy(token: string)
      modifies this
      ensures sessions == if token == "" then old(sessions) else old(sessions) - {token}
    {
      if token == "" { return; }
      sessions := sessions - {token};
    }
  }

  // ---- one session over time: every statement and clock reading on its own ------------------

  /** Statements about one token, in any interleaving. `Select` and `Judge` are
      `find`: it reads the row, and later reads the clock, for its idle check and
      again for the expiry. `Stamp` and `Update` are `recordActivity`: it reads
      the clock, and later tries its UPDATE with that reading. `Delete` is the
      DELETE that either may owe by then; `SignOut` is a DELETE of its own. */
  datatype Step =
    | Select(id: nat)
    | Judge(id: nat, now: int, later: int)
    | Stamp(id: nat, now: int)
    | Update(id: nat)
    | Delete(id: nat)
    | SignOut

  /** What a `find` has read, and at which step. */
  datatype Look = Look(row: Cell, at: nat)

  /** The row, the reads and clock readings under way, and for every DELETE still
      to come the step at which its call last saw the row. */
  datatype State = State(row: Cell, looks: map<nat, Look>, stamps: map<nat, int>, owed: map<nat, nat>)

  /** The state after a step, which is step number `at`. */
  function After(s: State, step: Step, at: nat): State {
    match step
    case Select(id) => s.(looks := s.looks[id := Look(s.row, at)])
    case Judge(id, now, _) =>
      if id !in s.looks then s
      else
        var look := s.looks[id];
        var t := s.(looks := s.looks - {id});
        if look.row.Some? && IsIdle(look.row.value, now) then t.(owed := t.owed[id := look.at]) else t
    case Stamp(id, now) => s.(stamps := s.stamps[id := now])
    case Update(id) =>
      if id !in s.stamps then s
      else
        var now := s.stamps[id];
        var t := s.(stamps := s.stamps - {id});
        if Accepts(s.row, now) then t.(row := Some(s.row.value.(lastActivityAt := now)))
        else t.(owed := t.owed[id := at])
    case Delete(id) => if id in s.owed then s.(row := None, owed := s.owed - {id}) else s
    case SignOut => s.(row := None)
  }

  /** The answer of a `find` that read this row. */
  predicate Answer(row: Cell, now: int, later: int) {
    row.Some? && !IsIdle(row.value, now) && later < row.value.expiresAt
  }

  function Start(userId: nat, born: int): State {
    State(Some(Created(userId, born)), map[], map[], map[])
  }

  function AfterAll(userId: nat, born: int, steps: seq<Step>): State {
    if steps == [] then Start(userId, born)
    else
      var n := |steps| - 1;
      After(AfterAll(userId, born, steps[..n]), steps[n], n)
  }

  // ---- what the schedule says, whatever became of the row -------------------------------------

  /** The latest clock reading, `born` before any. */
  function Clock(born: int, steps: seq<Step>): int {
    if steps == [] then born
    else
      match steps[|steps| - 1]
      case Judge(_, _, later) => later
      case Stamp(_, now) => now
      case _ => Clock(born, steps[..|steps| - 1])
  }

  /** Clock readings, in the order they are taken, do not decrease. */
  predicate InOrder(born: int, steps: seq<Step>) {
    steps == [] ||
    (var n := |steps| - 1;
     InOrder(born, steps[..n]) && Reads(Clock(born, steps[..n]), steps[n]))
  }

  predicate Reads(clock: int, step: Step) {
    (step.Judge? ==> clock <= step.now <= step.later) && (step.Stamp? ==> clock <= step.now)
  }

  /** The clock readings that have not reached their UPDATE yet. */
  function Stamps(steps: seq<Step>): map<nat, int> {
    if steps == [] then map[]
    else
      var before := Stamps(steps[..|steps| - 1]);
      match steps[|steps| - 1]
      case Stamp(id, now) => before[id := now]
      case Update(id) => before - {id}
      case _ => before
  }

  /** The step is an UPDATE whose reading is within the seven days and less than
      the timeout after the last activity. */
  predicate IsFresh(born: int, before: seq<Step>, step: Step)
    decreases |before|, 1
  {
    && step.Update? && step.id in Stamps(before)
    && var now := Stamps(before)[step.id];
      now < born + SESSION_TTL && now - Last(born, before) < IDLE_TIMEOUT
  }

  /** The last activity in time: creation, or the reading of the last fresh UPDATE. */
  function Last(born: int, steps: seq<Step>): int
    decreases |steps|, 0
  {
    if steps == [] then born
    else
      var n := |steps| - 1;
      if IsFresh(born, steps[..n], steps[n]) then Stamps(steps[..n])[steps[n].id] else Last(born, steps[..n])
  }

  /** An activity in time came after step `p`. */
  ghost predicate FreshSince(born: int, steps: seq<Step>, p: nat) {
    exists q :: p < q < |steps| && IsFresh(born, steps[..q], steps[q])
  }

  predicate NoSignOut(steps: seq<Step>) {
    forall i :: 0 <= i < |steps| ==> !steps[i].SignOut?
  }

  /** Step `d` is a DELETE that a call owed, which had seen the row at step `p`. */
  predicate Deletes(userId: nat, born: int, steps: seq<Step>, d: nat, p: nat)
    requires d < |steps|
  {
    && steps[d].Delete?
    && var owed := AfterAll(userId, born, steps[..d]).owed;
      steps[d].id in owed && owed[steps[d].id] == p
  }

  ghost predicate DeleteDone(userId: nat, born: int, steps: seq<Step>, p: nat) {
    exists d :: 0 <= d < |steps| && Deletes(userId, born, steps, d, p)
  }

  ghost predicate AnyDelete(userId: nat, born: int, steps: seq<Step>) {
    exists p: nat :: DeleteDone(userId, born, steps, p)
  }

  /** A call that owed a DELETE issued it although an activity in time came after
      the call had seen the row. */
  ghost predicate Crossed(userId: nat, born: int, steps: seq<Step>) {
    exists p: nat :: DeleteDone(userId, born, steps, p) && FreshSince(born, steps, p)
  }

  predicate Dead(born: int, last: int, now: int) {
    now >= born + SESSION_TTL || now - last >= IDLE_TIMEOUT
  }

  /** A row is there until it is deleted and shows the last activity in time; a
      row that is gone was signed out, deleted across an activity, or dead. */
  ghost predicate RowFollows(userId: nat, born: int, steps: seq<Step>, s: State) {
    var now, last := Clock(born, steps), Last(born, steps);
    && s.stamps == Stamps(steps) && (forall id :: id in s.stamps ==> s.stamps[id] <= now)
    && (s.row.Some? ==> NoSignOut(steps) && !AnyDelete(userId, born, steps))
    && (s.row.Some? ==> s.row.value.expiresAt == born + SESSION_TTL && s.row.value.lastActivityAt == last)
    && (s.row.None? ==>
          || !NoSignOut(steps) || Crossed(userId, born, steps)
          || (AnyDelete(userId, born, steps) && Dead(born, last, now)))
  }

  /** How the state stands to the steps behind it: besides, whoever has seen a row
      has seen the last activity or one came since, and whoever owes a DELETE
      saw a dead session or an activity came since. */
  ghost predicate Follows(userId: nat, born: int, steps: seq<Step>, s: State) {
    && RowFollows(userId, born, steps, s)
    && (forall id :: id in s.looks ==> LookFollows(born, steps, s.looks[id]))
    && (forall id :: id in s.owed ==> OwedFollows(born, steps, s, s.owed[id]))
  }

  ghost predicate LookFollows(born: int, steps: seq<Step>, look: Look) {
    look.at < |steps| && (look.row.Some? ==>
      look.row.value.lastActivityAt == Last(born, steps) || FreshSince(born, steps, look.at))
  }

  ghost predicate OwedFollows(born: int, steps: seq<Step>, s: State, p: nat) {
    p < |steps| && (s.row.None? || FreshSince(born, steps, p) || Dead(born, Last(born, steps), Clock(born, steps)))
  }

  lemma AppendStep(born: int, steps: seq<Step>, c: Step)
    ensures var all := steps + [c];
      && Clock(born, all) == (if c.Judge? then c.later else if c.Stamp? then c.now else Clock(born, steps))
      && Last(born, all) == (if IsFresh(born, steps, c) then Stamps(steps)[c.id] else Last(born, steps))
      && (c.Stamp? ==> Stamps(all) == Stamps(steps)[c.id := c.now])
      && (c.Update? ==> Stamps(all) == Stamps(steps) - {c.id})
      && (!c.Stamp? && !c.Update? ==> Stamps(all) == Stamps(steps))
      && (NoSignOut(all) <==> NoSignOut(steps) && !c.SignOut?)
      && (InOrder(born, all) <==> InOrder(born, steps) && Reads(Clock(born, steps), c))
  {
    var all := steps + [c];
    assert all[..|steps|] == steps && all[|steps|] == c;
    assert forall i :: 0 <= i < |steps| ==> all[i] == steps[i];
  }

  lemma AppendAfter(userId: nat, born: int, steps: seq<Step>, c: Step)
    ensures AfterAll(userId, born, steps + [c]) == After(AfterAll(userId, born, steps), c, |steps|)
  {
    assert (steps + [c])[..|steps|] == steps;
  }

  lemma AppendFresh(born: int, steps: seq<Step>, c: Step, p: nat)
    ensures FreshSince(born, steps + [c], p) <==> FreshSince(born, steps, p) || (p < |steps| && IsFresh(born, steps, c))
  {
    hide IsFresh;
    var all := steps + [c];
    assert all[..|steps|] == steps && all[|steps|] == c;
    forall q | 0 <= q < |steps| ensures all[..q] == steps[..q] && all[q] == steps[q] {
    }
    if FreshSince(born, all, p) {
      var q :| p < q < |all| && IsFresh(born, all[..q], all[q]);
      assert q < |steps| ==> IsFresh(born, steps[..q], steps[q]);
    }
    if FreshSince(born, steps, p) {
      var q :| p < q < |steps| && IsFresh(born, steps[..q], steps[q]);
      assert IsFresh(born, all[..q], all[q]);
    }
  }

  lemma AppendDelete(userId: nat, born: int, steps: seq<Step>, c: Step, p: nat)
    ensures var owed := AfterAll(userId, born, steps).owed;
      DeleteDone(userId, born, steps + [c], p) <==>
        DeleteDone(userId, born, steps, p) || (c.Delete? && c.id in owed && owed[c.id] == p)
  {
    hide AfterAll;
    var all := steps + [c];
    assert all[..|steps|] == steps && all[|steps|] == c;
    forall d | 0 <= d < |steps| ensures Deletes(userId, born, all, d, p) <==> Deletes(userId, born, steps, d, p) {
      assert all[..d] == steps[..d] && all[d] == steps[d];
    }
    var owed := AfterAll(userId, born, steps).owed;
    assert Deletes(userId, born, all, |steps|, p) <==> c.Delete? && c.id in owed && owed[c.id] == p;
    if DeleteDone(userId, born, steps, p) {
      var d :| 0 <= d < |steps| && Deletes(userId, born, steps, d, p);
      assert Deletes(userId, born, all, d, p);
    }
  }

  lemma AppendCrossed(userId: nat, born: int, steps: seq<Step>, c: Step)
    ensures Crossed(userId, born, steps) ==> Crossed(userId, born, steps + [c])
    ensures AnyDelete(userId, born, steps) ==> AnyDelete(userId, born, steps + [c])
    ensures AnyDelete(userId, born, steps) && IsFresh(born, steps, c) ==> Crossed(userId, born, steps + [c])
    ensures !c.Delete? && AnyDelete(userId, born, steps + [c]) ==> AnyDelete(userId, born, steps)
    ensures c.Delete? && c.id !in AfterAll(userId, born, steps).owed ==>
      (AnyDelete(userId, born, steps + [c]) ==> AnyDelete(userId, born, steps))
  {
    hide DeleteDone, FreshSince, IsFresh, AfterAll;
    forall p: nat ensures DeleteDone(userId, born, steps, p) ==> DeleteDone(userId, born, steps + [c], p) {
      AppendDelete(userId, born, steps, c, p);
    }
    if p: nat :| DeleteDone(userId, born, steps, p) && FreshSince(born, steps, p) {
      AppendFresh(born, steps, c, p);
    }
    if p: nat :| DeleteDone(userId, born, steps, p) && IsFresh(born, steps, c) {
      DeletesLookBack(userId, born, steps, p);
      AppendFresh(born, steps, c, p);
    }
    if p: nat :| DeleteDone(userId, born, steps + [c], p) {
      AppendDelete(userId, born, steps, c, p);
    }
  }

  ghost predicate LooksBack(s: State, at: nat) {
    && (forall id :: id in s.looks ==> s.looks[id].at < at)
    && (forall id :: id in s.owed ==> s.owed[id] < at)
  }

  lemma AfterLooksBack(s: State, c: Step, at: nat)
    requires LooksBack(s, at)
    ensures LooksBack(After(s, c, at), at + 1)
  {
  }

  /** A call saw the row before it owed anything. */
  lemma {:induction false} OwedLookBack(userId: nat, born: int, steps: seq<Step>)
    ensures LooksBack(AfterAll(userId, born, steps), |steps|)
  {
    hide LooksBack, After;
    if steps == [] {
      NothingLooksBack(userId, born);
    } else {
      var n := |steps| - 1;
      OwedLookBack(userId, born, steps[..n]);
      AfterLooksBack(AfterAll(userId, born, steps[..n]), steps[n], n);
    }
  }

  lemma NothingLooksBack(userId: nat, born: int)
    ensures LooksBack(Start(userId, born), 0)
  {
  }

  lemma DeletesLookBack(userId: nat, born: int, steps: seq<Step>, p: nat)
    requires DeleteDone(userId, born, steps, p)
    ensures p < |steps|
  {
    var d :| 0 <= d < |steps| && Deletes(userId, born, steps, d, p);
    OwedLookBack(userId, born, steps[..d]);
  }

  // ---- every step keeps the state in line with the schedule -----------------------------------

  lemma OthersFollow(userId: nat, born: int, steps: seq<Step>, c: Step, s: State)
    requires Follows(userId, born, steps, s) && Reads(Clock(born, steps), c)
    requires s.row.Some? && c.Update? && c.id in s.stamps ==>
      (Accepts(s.row, s.stamps[c.id]) <==> IsFresh(born, steps, c))
    ensures var t := After(s, c, |steps|);
      && (forall id :: id in s.looks ==> LookFollows(born, steps + [c], s.looks[id]))
      && (forall id :: id in s.owed ==> OwedFollows(born, steps + [c], t, s.owed[id]))
  {
    hide Follows, IsFresh, FreshSince, Accepts, IsIdle, Last, Clock, Stamps;
    AppendStep(born, steps, c);
    RowStaysGone(s, c, |steps|);
    LooksAndOwed(userId, born, steps, s);
    forall id | id in s.looks ensures LookFollows(born, steps + [c], s.looks[id]) {
      AppendFresh(born, steps, c, s.looks[id].at);
    }
    forall id | id in s.owed ensures OwedFollows(born, steps + [c], After(s, c, |steps|), s.owed[id]) {
      AppendFresh(born, steps, c, s.owed[id]);
    }
  }

  lemma RowStaysGone(s: State, c: Step, at: nat)
    ensures s.row.None? ==> After(s, c, at).row.None?
  {
  }

  lemma LooksAndOwed(userId: nat, born: int, steps: seq<Step>, s: State)
    requires Follows(userId, born, steps, s)
    ensures forall id :: id in s.looks ==> LookFollows(born, steps, s.looks[id])
    ensures forall id :: id in s.owed ==> OwedFollows(born, steps, s, s.owed[id])
  {
    hide LookFollows, OwedFollows;
  }

  lemma AcceptsIffFresh(userId: nat, born: int, steps: seq<Step>, c: Step, s: State)
    requires RowFollows(userId, born, steps, s) && s.row.Some? && c.Update? && c.id in s.stamps
    ensures Accepts(s.row, s.stamps[c.id]) <==> IsFresh(born, steps, c)
  {
  }

  lemma RowAfter(userId: nat, born: int, steps: seq<Step>, c: Step, s: State)
    requires Follows(userId, born, steps, s) && Reads(Clock(born, steps), c) && s == AfterAll(userId, born, steps)
    ensures RowFollows(userId, born, steps + [c], After(s, c, |steps|))
  {
    hide IsFresh, FreshSince, AfterAll, Crossed, AnyDelete, Last, Clock, Stamps, NoSignOut;
    AppendStep(born, steps, c);
    AppendCrossed(userId, born, steps, c);
    if c.Update? && c.id in s.stamps && s.row.Some? { AcceptsIffFresh(userId, born, steps, c, s); }
    if c.Update? && c.id !in s.stamps { NotFreshUnstamped(born, steps, c); }
    if c.Delete? && c.id in s.owed { DeleteAcross(userId, born, steps, c, s); }
    FreshIsUpdate(born, steps, c);
  }

  lemma NotFreshUnstamped(born: int, steps: seq<Step>, c: Step)
    requires c.Update? && c.id !in Stamps(steps)
    ensures !IsFresh(born, steps, c)
  {
  }

  lemma FreshIsUpdate(born: int, steps: seq<Step>, c: Step)
    ensures IsFresh(born, steps, c) ==> c.Update? && c.id in Stamps(steps)
  {
  }

  lemma DeleteAcross(userId: nat, born: int, steps: seq<Step>, c: Step, s: State)
    requires c.Delete? && s == AfterAll(userId, born, steps) && c.id in s.owed
    ensures AnyDelete(userId, born, steps + [c])
    ensures FreshSince(born, steps, s.owed[c.id]) ==> Crossed(userId, born, steps + [c])
  {
    hide AfterAll, DeleteDone, FreshSince;
    AppendDelete(userId, born, steps, c, s.owed[c.id]);
    AppendFresh(born, steps, c, s.owed[c.id]);
  }

  /** The look or the DELETE that a step adds. */
  lemma NewFollow(userId: nat, born: int, steps: seq<Step>, c: Step, s: State)
    requires Follows(userId, born, steps, s) && Reads(Clock(born, steps), c)
    ensures var t := After(s, c, |steps|);
      && (c.Select? ==> LookFollows(born, steps + [c], t.looks[c.id]))
      && ((c.Judge? || c.Update?) && t.owed != s.owed ==>
            c.id in t.owed && t.owed == s.owed[c.id := t.owed[c.id]] && OwedFollows(born, steps + [c], t, t.owed[c.id]))
  {
    hide IsFresh, FreshSince, Crossed, AnyDelete, Last, Clock, Stamps, NoSignOut;
    AppendStep(born, steps, c);
    FreshIsUpdate(born, steps, c);
    if c.Judge? && c.id in s.looks { AppendFresh(born, steps, c, s.looks[c.id].at); }
    if c.Update? && c.id in s.stamps && s.row.Some? {
      AcceptsIffFresh(userId, born, steps, c, s);
      if !Accepts(s.row, s.stamps[c.id]) { RefusedIsDead(userId, born, steps, c, s); }
    }
  }

  lemma RefusedIsDead(userId: nat, born: int, steps: seq<Step>, c: Step, s: State)
    requires RowFollows(userId, born, steps, s) && s.row.Some? && c.Update? && c.id in s.stamps
    requires !Accepts(s.row, s.stamps[c.id])
    ensures Dead(born, Last(born, steps), Clock(born, steps))
  {
  }

  lemma StepFollows(userId: nat, born: int, steps: seq<Step>, c: Step, s: State)
    requires Follows(userId, born, steps, s) && Reads(Clock(born, steps), c) && s == AfterAll(userId, born, steps)
    ensures Follows(userId, born, steps + [c], After(s, c, |steps|))
  {
    hide RowFollows, LookFollows, OwedFollows, AfterAll, Accepts, IsIdle, IsFresh;
    RowAfter(userId, born, steps, c, s);
    if c.Update? && c.id in s.stamps && s.row.Some? { AcceptsIffFresh(userId, born, steps, c, s); }
    OthersFollow(userId, born, steps, c, s);
    NewFollow(userId, born, steps, c, s);
  }

  lemma {:induction false} StateFollowsSchedule(userId: nat, born: int, steps: seq<Step>)
    requires InOrder(born, steps)
    ensures Follows(userId, born, steps, AfterAll(userId, born, steps))
  {
    hide Follows, After;
    if steps == [] {
      StartFollows(userId, born);
    } else {
      var n := |steps| - 1;
      StateFollowsSchedule(userId, born, steps[..n]);
      StepFollows(userId, born, steps[..n], steps[n], AfterAll(userId, born, steps[..n]));
      assert steps[..n] + [steps[n]] == steps;
    }
  }

  lemma StartFollows(userId: nat, born: int)
    ensures Follows(userId, born, [], Start(userId, born))
  {
  }

  // ---- the promises ------------------------------------------------------------------------------

  /** In any interleaving of the statements, the session would be found at `t`
      exactly when its user is active, it was never signed out, `t` is within seven
      days of its creation and less than ten minutes after the last activity in
      time, and no DELETE that a call owed crossed an activity. Looks appear
      nowhere on the right but in that last condition: reading a session never
      extends its life. */
  lemma FoundIff(userId: nat, born: int, steps: seq<Step>, t: int, active: bool)
    requires InOrder(born, steps) && Clock(born, steps) <= t
    ensures Found(AfterAll(userId, born, steps).row, t, active) <==>
      && active && NoSignOut(steps) && !Crossed(userId, born, steps)
      && t < born + 604_800_000 && t - Last(born, steps) < 600_000
  {
    hide Last, Clock, NoSignOut, IsFresh, FreshSince, AfterAll, Stamps, DeleteDone;
    StateFollowsSchedule(userId, born, steps);
    assert Crossed(userId, born, steps) ==> AnyDelete(userId, born, steps);
  }

  /** A `find` answers for what came before its SELECT, by its own clock readings. */
  lemma AnswerIff(userId: nat, born: int, steps: seq<Step>, now: int, later: int)
    requires InOrder(born, steps) && Clock(born, steps) <= now <= later
    ensures Answer(AfterAll(userId, born, steps).row, now, later) <==>
      && NoSignOut(steps) && !Crossed(userId, born, steps)
      && now - Last(born, steps) < 600_000 && later < born + 604_800_000
  {
    hide Last, Clock, NoSignOut, Crossed, AfterAll, InOrder, Follows;
    FoundIff(userId, born, steps, now, true);
    StateFollowsSchedule(userId, born, steps);
    ExpiryIsSevenDays(userId, born, steps);
  }

  lemma ExpiryIsSevenDays(userId: nat, born: int, steps: seq<Step>)
    requires Follows(userId, born, steps, AfterAll(userId, born, steps))
    ensures var row := AfterAll(userId, born, steps).row;
      row.Some? ==> row.value.expiresAt == born + SESSION_TTL && row.value.lastActivityAt == Last(born, steps)
  {
  }

  /** While the row is there, an UPDATE is accepted exactly when it is an activity in time. */
  lemma AcceptedIffInTime(userId: nat, born: int, steps: seq<Step>, c: Step)
    requires InOrder(born, steps) && AfterAll(userId, born, steps).row.Some?
    requires c.Update? && c.id in AfterAll(userId, born, steps).stamps
    ensures var s := AfterAll(userId, born, steps);
      Accepts(s.row, s.stamps[c.id]) <==> IsFresh(born, steps, c)
  {
    hide AfterAll, Accepts, IsFresh;
    StateFollowsSchedule(userId, born, steps);
    AcceptsIffFresh(userId, born, steps, c, AfterAll(userId, born, steps));
  }

  /** A DELETE that a call owes ends a session that would still be found exactly
      when an activity was accepted after the call saw the row, and that is
      still recent. Without one it deletes only the dead. */
  lemma OwedDeleteEndsLiveIff(userId: nat, born: int, steps: seq<Step>, id: nat, t: int)
    requires InOrder(born, steps) && Clock(born, steps) <= t
    requires id in AfterAll(userId, born, steps).owed && AfterAll(userId, born, steps).row.Some?
    ensures var s := AfterAll(userId, born, steps);
      Found(s.row, t, true) <==> FreshSince(born, steps, s.owed[id]) && !Dead(born, Last(born, steps), t)
  {
    hide Last, Clock, IsFresh, FreshSince, AfterAll, Stamps, DeleteDone, Crossed, NoSignOut;
    StateFollowsSchedule(userId, born, steps);
    var s := AfterAll(userId, born, steps);
    assert OwedFollows(born, steps, s, s.owed[id]);
  }

  // ---- once over ------------------------------------------------------------------------------------

  /** After the first steps an UPDATE in time brings a clock reading from before `t`. */
  ghost predicate StaleActivity(born: int, steps: seq<Step>, more: seq<Step>, t: int) {
    exists i :: (0 <= i < |more| && IsFresh(born, steps + more[..i], more[i])
                 && Stamps(steps + more[..i])[more[i].id] < t)
  }

  lemma {:induction false} MoreSteps(userId: nat, born: int, steps: seq<Step>, more: seq<Step>)
    ensures InOrder(born, steps + more) ==> InOrder(born, steps)
    ensures NoSignOut(steps + more) ==> NoSignOut(steps)
    ensures Crossed(userId, born, steps) ==> Crossed(userId, born, steps + more)
  {
    hide InOrder, NoSignOut, Crossed, AfterAll, IsFresh;
    if more == [] {
      assert steps + more == steps;
    } else {
      var init, c := more[..|more| - 1], more[|more| - 1];
      MoreSteps(userId, born, steps, init);
      assert steps + more == (steps + init) + [c];
      AppendStep(born, steps + init, c);
      AppendCrossed(userId, born, steps + init, c);
    }
  }

  /** Without a stale activity a session that is dead at `t` has no later activity. */
  lemma {:induction false} LastStays(born: int, steps: seq<Step>, more: seq<Step>, t: int)
    requires Dead(born, Last(born, steps), t) && t < born + SESSION_TTL
    requires !StaleActivity(born, steps, more, t)
    ensures Last(born, steps + more) == Last(born, steps)
  {
    if more == [] {
      assert steps + more == steps;
    } else {
      var n := |more| - 1;
      var init, c := more[..n], more[n];
      forall i | 0 <= i < n ensures init[..i] == more[..i] && init[i] == more[i] {
      }
      LastStays(born, steps, init, t);
      assert steps + more == (steps + init) + [c];
      hide IsFresh;
      AppendStep(born, steps + init, c);
      FreshReading(born, steps + init, c);
    }
  }

  lemma FreshReading(born: int, steps: seq<Step>, c: Step)
    ensures IsFresh(born, steps, c) ==>
      c.Update? && c.id in Stamps(steps) && Stamps(steps)[c.id] - Last(born, steps) < IDLE_TIMEOUT
  {
  }

  /** A session that is not found at `t` is found later exactly when an UPDATE in
      time still brings a clock reading from before `t`, and its activity is
      recent and not crossed by a DELETE or sign-out. */
  lemma RevivedIff(userId: nat, born: int, steps: seq<Step>, more: seq<Step>, t: int, u: int)
    requires InOrder(born, steps + more) && Clock(born, steps) <= t <= u && Clock(born, steps + more) <= u
    requires !Found(AfterAll(userId, born, steps).row, t, true)
    ensures Found(AfterAll(userId, born, steps + more).row, u, true) <==>
      && StaleActivity(born, steps, more, t) && !Dead(born, Last(born, steps + more), u)
      && NoSignOut(steps + more) && !Crossed(userId, born, steps + more)
  {
    hide InOrder, NoSignOut, Crossed, AfterAll, StaleActivity, Last, Clock, Found;
    MoreSteps(userId, born, steps, more);
    FoundIff(userId, born, steps, t, true);
    FoundIff(userId, born, steps + more, u, true);
    if !StaleActivity(born, steps, more, t) && Dead(born, Last(born, steps), t) && t < born + SESSION_TTL {
      LastStays(born, steps, more, t);
    }
  }

  /** Once over, a session is not found again, whatever comes between, if every
      activity that follows has read its clock since. */
  lemma NeverRevived(userId: nat, born: int, steps: seq<Step>, more: seq<Step>, t: int, u: int)
    requires InOrder(born, steps + more) && Clock(born, steps) <= t <= u && Clock(born, steps + more) <= u
    requires !Found(AfterAll(userId, born, steps).row, t, true)
    requires forall i :: 0 <= i < |more| && more[i].Update? && more[i].id in Stamps(steps + more[..i]) ==>
      Stamps(steps + more[..i])[more[i].id] >= t
    ensures !Found(AfterAll(userId, born, steps + more).row, u, true)
  {
    hide InOrder, NoSignOut, Crossed, AfterAll, Last, Clock, Found, Stamps;
    RevivedIff(userId, born, steps, more, t, u);
    forall i | 0 <= i < |more| ensures IsFresh(born, steps + more[..i], more[i]) ==>
      more[i].Update? && more[i].id in Stamps(steps + more[..i])
    {
      FreshReading(born, steps + more[..i], more[i]);
    }
  }

  // ---- schedules that bring both about -----------------------------------------------------------------

  lemma Follow(userId: nat, born: int, steps: seq<Step>, c: Step, s: State)
    requires s == AfterAll(userId, born, steps) && InOrder(born, steps) && Reads(Clock(born, steps), c)
    ensures AfterAll(userId, born, steps + [c]) == After(s, c, |steps|) && InOrder(born, steps + [c])
    ensures Clock(born, steps + [c]) == if c.Judge? then c.later else if c.Stamp? then c.now else Clock(born, steps)
  {
    AppendStep(born, steps, c);
    AppendAfter(userId, born, steps, c);
  }

  /** An activity reads its clock a millisecond before the timeout, a `find` reads
      the row, the UPDATE is accepted, and the `find` reads its clock at the
      timeout and deletes: with every clock reading in order, a session that was
      active a millisecond ago is gone. */
  lemma FindEndsLiveSession(userId: nat, born: int) returns (steps: seq<Step>)
    ensures var t := born + IDLE_TIMEOUT;
      steps == [Stamp(1, t - 1), Select(2), Update(1), Judge(2, t, t)]
    ensures InOrder(born, steps + [Delete(2)]) && Clock(born, steps + [Delete(2)]) == born + IDLE_TIMEOUT
    ensures Found(AfterAll(userId, born, steps).row, born + IDLE_TIMEOUT, true)
    ensures AfterAll(userId, born, steps + [Delete(2)]).row.None?
  {
    hide InOrder, Clock, AfterAll;
    var t := born + IDLE_TIMEOUT;
    steps := [];
    NothingYet(userId, born);
    var a := Start(userId, born);
    Follow(userId, born, steps, Stamp(1, t - 1), a);
    steps, a := steps + [Stamp(1, t - 1)], After(a, Stamp(1, t - 1), 0);
    Follow(userId, born, steps, Select(2), a);
    steps, a := steps + [Select(2)], After(a, Select(2), 1);
    Follow(userId, born, steps, Update(1), a);
    steps, a := steps + [Update(1)], After(a, Update(1), 2);
    Follow(userId, born, steps, Judge(2, t, t), a);
    steps, a := steps + [Judge(2, t, t)], After(a, Judge(2, t, t), 3);
    Follow(userId, born, steps, Delete(2), a);
  }

  lemma NothingYet(userId: nat, born: int)
    ensures AfterAll(userId, born, []) == Start(userId, born) && InOrder(born, []) && Clock(born, []) == born
  {
  }

  /** The same clock readings, with the UPDATE after the `find` has judged the
      session over: it is found again at the same moment. */
  lemma FindBeforeRevival(userId: nat, born: int) returns (steps: seq<Step>)
    ensures steps == [Stamp(1, born + IDLE_TIMEOUT - 1), Select(2), Judge(2, born + IDLE_TIMEOUT, born + IDLE_TIMEOUT)]
    ensures InOrder(born, steps + [Update(1)]) && Clock(born, steps + [Update(1)]) == born + IDLE_TIMEOUT
    ensures !Found(AfterAll(userId, born, steps).row, born + IDLE_TIMEOUT, true)
    ensures Found(AfterAll(userId, born, steps + [Update(1)]).row, born + IDLE_TIMEOUT, true)
  {
    hide InOrder, Clock, AfterAll;
    var t := born + IDLE_TIMEOUT;
    steps := [];
    NothingYet(userId, born);
    var a := Start(userId, born);
    Follow(userId, born, steps, Stamp(1, t - 1), a);
    steps, a := steps + [Stamp(1, t - 1)], After(a, Stamp(1, t - 1), 0);
    Follow(userId, born, steps, Select(2), a);
    steps, a := steps + [Select(2)], After(a, Select(2), 1);
    Follow(userId, born, steps, Judge(2, t, t), a);
    steps, a := steps + [Judge(2, t, t)], After(a, Judge(2, t, t), 2);
    Follow(userId, born, steps, Update(1), a);
  }

  /** The statements of a `find` with nothing between them are the method `Find`. */
  lemma UninterruptedFind(s: State, id: nat, now: int, at: nat)
    requires id !in s.owed
    ensures var a := After(s, Select(id), at);
      var t := After(After(a, Judge(id, now, now), at + 1), Delete(id), at + 2);
      && t.row == (if s.row.Some? && IsIdle(s.row.value, now) then None else s.row) && t.owed == s.owed
      && (Answer(a.looks[id].row, now, now) <==> Found(s.row, now, true)) && Reads(now, Judge(id, now, now))
  {
    assert s.owed[id := at] - {id} == s.owed;
  }

  /** Those of a `recordActivity` are the method `RecordActivity`. */
  lemma UninterruptedActivity(s: State, id: nat, now: int, at: nat)
    requires id !in s.owed
    ensures var t := After(After(After(s, Stamp(id, now), at), Update(id), at + 1), Delete(id), at + 2);
      && t.row == (if Accepts(s.row, now) then Some(s.row.value.(lastActivityAt := now)) else None) && t.owed == s.owed
      && Reads(now, Stamp(id, now))
  {
    assert s.owed[id := at + 1] - {id} == s.owed;
  }
}
