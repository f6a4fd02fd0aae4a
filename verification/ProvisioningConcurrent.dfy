/** Concurrent sign-ins: each takes its advisory locks one at a time in sorted
    order, then the rows it reads `FOR UPDATE` one at a time by id, decides on
    what they say once all are locked, and writes and releases everything.
    Distinct lock keys are taken to hash distinctly. */
module ProvisioningConcurrent {
  import opened Text
  import opened OrderedMap
  import opened Provisioning

  // ---- lock keys --------------------------------------------------------------------

  function EmailKeys(c: Claims): seq<string> {
    if Given(c.email) then ["email:" + ClaimedEmail(c.email.value)] else []
  }

  function PhoneKeys(c: Claims): seq<string> {
    if Given(c.phoneNumber) then ["phone:" + Trim(c.phoneNumber.value)] else []
  }

  /** The keys as they are pushed. */
  function PushedKeys(c: Claims): seq<string> {
    ["sub:" + c.sub] + EmailKeys(c) + PhoneKeys(c)
  }

  /** The keys in the order they are locked. */
  function LockKeys(c: Claims): seq<string> {
    EmailKeys(c) + PhoneKeys(c) + ["sub:" + c.sub]
  }

  /** The order of `Array.prototype.sort` on strings. */
  predicate CodeLess(a: string, b: string) {
    b != "" && (a == "" || a[0] < b[0] || (a[0] == b[0] && CodeLess(a[1..], b[1..])))
  }

  /** The texts first differ at `k`, where `a` is less. */
  predicate LessAt(a: string, b: string, k: nat) {
    k < |a| && k < |b| && a[..k] == b[..k] && a[k] < b[k]
  }

  /** A text comes before another exactly when it is a proper beginning of it, or
      is less where they first differ. */
  lemma {:induction false} CodeLessIff(a: string, b: string)
    ensures CodeLess(a, b) <==> a < b || exists k: nat :: LessAt(a, b, k)
  {
    if a != "" && b != "" {
      CodeLessIff(a[1..], b[1..]);
      assert LessAt(a, b, 0) <==> a[0] < b[0];
      if a[0] == b[0] {
        assert a < b <==> a[1..] < b[1..];
        forall k: nat | LessAt(a[1..], b[1..], k) ensures LessAt(a, b, k + 1) { OneFurther(a, b, k); }
        forall k: nat | LessAt(a, b, k) ensures k > 0 && LessAt(a[1..], b[1..], k - 1) { OneFurther(a, b, k - 1); }
      } else {
        forall k: nat | LessAt(a, b, k) ensures k == 0 { SameStart(a, b, k); }
      }
    }
  }

  lemma SameStart(a: string, b: string, k: nat)
    requires LessAt(a, b, k)
    ensures k > 0 ==> a[0] == b[0]
  {
    if k > 0 { assert a[..k][0] == b[..k][0]; }
  }

  lemma OneFurther(a: string, b: string, k: nat)
    requires a != "" && b != "" && a[0] == b[0]
    ensures LessAt(a[1..], b[1..], k) <==> LessAt(a, b, k + 1)
  {
    if k + 1 < |a| && k + 1 < |b| {
      assert a[..k + 1] == [a[0]] + a[1..][..k] && b[..k + 1] == [b[0]] + b[1..][..k];
    }
  }

  function Rank(key: string): int {
    if key == "" then -1 else key[0] as int
  }

  ghost predicate Starts(keys: seq<string>, letter: char) {
    |keys| <= 1 && forall i :: 0 <= i < |keys| ==> keys[i] != "" && keys[i][0] == letter
  }

  lemma InLetterOrder(a: seq<string>, b: seq<string>, c: seq<string>)
    requires Starts(a, 'e') && Starts(b, 'p') && Starts(c, 's')
    ensures var keys := a + b + c;
      forall i, j :: 0 <= i < j < |keys| ==> CodeLess(keys[i], keys[j]) && Rank(keys[i]) < Rank(keys[j])
    ensures multiset(c + a + b) == multiset(a + b + c)
  {
  }

  lemma KeyLetters(c: Claims)
    ensures Starts(EmailKeys(c), 'e') && Starts(PhoneKeys(c), 'p') && Starts(["sub:" + c.sub], 's')
  {
    hide Trim, ClaimedEmail;
  }

  /** The lock order is the sorted order of the pushed keys, strictly. */
  lemma LockKeysAreSorted(c: Claims)
    ensures multiset(LockKeys(c)) == multiset(PushedKeys(c))
    ensures forall i, j :: 0 <= i < j < |LockKeys(c)| ==>
      CodeLess(LockKeys(c)[i], LockKeys(c)[j]) && Rank(LockKeys(c)[i]) < Rank(LockKeys(c)[j])
  {
    hide EmailKeys, PhoneKeys, Starts, CodeLess, Rank;
    KeyLetters(c);
    InLetterOrder(EmailKeys(c), PhoneKeys(c), ["sub:" + c.sub]);
  }

  // ---- the interleaved service ----------------------------------------------------------

  datatype Phase =
    | Locking(held: nat)
    | Fetching(rows: set<nat>)
    | Read(plan: Plan, rows: set<nat>)
    | Finished(outcome: Outcome)
  datatype Proc = Proc(request: Request, phase: Phase)
  datatype Entry = Entry(request: Request, outcome: Outcome)

  datatype World = World(users: Users, deletedSubjects: set<string>, procs: map<nat, Proc>, log: seq<Entry>)

  function Held(p: Proc): seq<string> {
    var keys := LockKeys(p.request.claims);
    match p.phase
    case Locking(n) => if n <= |keys| then keys[..n] else keys
    case Fetching(_) => keys
    case Read(_, _) => keys
    case Finished(_) => []
  }

  /** The rows the transaction has locked. */
  function Rows(p: Proc): set<nat> {
    match p.phase
    case Locking(_) => {}
    case Fetching(rows) => rows
    case Read(_, rows) => rows
    case Finished(_) => {}
  }

  /** Rows read `FOR UPDATE`. */
  function LockedRows(users: Users, c: Claims): set<nat> {
    if LinkedTo(users, c.sub) != {} then LinkedTo(users, c.sub) else Candidates(users, c)
  }

  ghost predicate CanLock(w: World, p: nat) {
    && p in w.procs && w.procs[p].phase.Locking?
    && var keys, n := LockKeys(w.procs[p].request.claims), w.procs[p].phase.held;
       n < |keys| && forall q :: q in w.procs && q != p ==> keys[n] !in Held(w.procs[q])
  }

  /** All advisory locks are taken and the rows are being fetched. */
  predicate Fetches(p: Proc) {
    p.phase == Locking(|LockKeys(p.request.claims)|) || p.phase.Fetching?
  }

  /** The rows still to be locked. */
  function Missing(w: World, p: nat): set<nat>
    requires p in w.procs
  {
    LockedRows(w.users, w.procs[p].request.claims) - Rows(w.procs[p])
  }

  /** `ORDER BY id FOR UPDATE`: the least missing row, once nobody else has it. */
  ghost predicate CanLockRow(w: World, p: nat, id: nat) {
    && p in w.procs && Fetches(w.procs[p])
    && id in Missing(w, p) && (forall x :: x in Missing(w, p) ==> id <= x)
    && (forall q :: q in w.procs && q != p ==> id !in Rows(w.procs[q]))
  }

  ghost predicate CanRead(w: World, p: nat) {
    p in w.procs && Fetches(w.procs[p]) && Missing(w, p) == {}
  }

  ghost predicate CanCommit(w: World, p: nat) {
    p in w.procs && w.procs[p].phase.Read?
  }

  datatype Action =
    | Begin(p: nat, request: Request)
    | Lock(p: nat)
    | LockRow(p: nat, id: nat)
    | ReadRows(p: nat)
    | Commit(p: nat)

  ghost predicate Enabled(w: World, a: Action) {
    match a
    case Begin(p, r) =>
      // A random id is nobody else's.
      p !in w.procs && r.newId !in w.users && forall q :: q in w.procs ==> w.procs[q].request.newId != r.newId
    case Lock(p) => CanLock(w, p)
    case LockRow(p, id) => CanLockRow(w, p, id)
    case ReadRows(p) => CanRead(w, p)
    case Commit(p) => CanCommit(w, p)
  }

  ghost function Next(w: World, a: Action): World
    requires Enabled(w, a)
  {
    match a
    case Begin(p, r) => w.(procs := w.procs[p := Proc(r, Locking(0))])
    case Lock(p) => w.(procs := w.procs[p := w.procs[p].(phase := Locking(w.procs[p].phase.held + 1))])
    case LockRow(p, id) => w.(procs := w.procs[p := w.procs[p].(phase := Fetching(Rows(w.procs[p]) + {id}))])
    case ReadRows(p) =>
      var r := w.procs[p].request;
      w.(procs := w.procs[p := Proc(r, Read(Decide(w.users, w.deletedSubjects, r), LockedRows(w.users, r.claims)))])
    case Commit(p) =>
      var r := w.procs[p].request;
      var (users, outcome) := Apply(w.users, w.procs[p].phase.plan, r);
      w.(users := users, procs := w.procs[p := Proc(r, Finished(outcome))], log := w.log + [Entry(r, outcome)])
  }

  /** The logged requests carried out one at a time, in commit order. */
  ghost function Serial(users: Users, deletedSubjects: set<string>, log: seq<Entry>): Users {
    if log == [] then users
    else
      var n := |log| - 1;
      Transaction(Serial(users, deletedSubjects, log[..n]), deletedSubjects, log[n].request).0
  }

  /** Every logged outcome is the one its request has when carried out alone in its turn. */
  ghost predicate SerialOutcomes(users: Users, deletedSubjects: set<string>, log: seq<Entry>) {
    forall i :: 0 <= i < |log| ==>
      log[i].outcome == Transaction(Serial(users, deletedSubjects, log[..i]), deletedSubjects, log[i].request).1
  }

  // ---- independence: what the locks protect ------------------------------------------------

  ghost predicate NoSharedKey(c: Claims, d: Claims) {
    forall k :: k in LockKeys(c) ==> k !in LockKeys(d)
  }

  lemma SubjectsDiffer(c: Claims, d: Claims)
    requires NoSharedKey(c, d)
    ensures c.sub != d.sub
  {
    SubjectKey(c);
    SubjectKey(d);
    hide LockKeys;
    var key := "sub:" + c.sub;
    assert key in LockKeys(c) && key !in LockKeys(d);
  }

  lemma SubjectKey(c: Claims)
    ensures "sub:" + c.sub in LockKeys(c)
  {
    assert LockKeys(c)[|LockKeys(c)| - 1] == "sub:" + c.sub;
  }

  lemma ContactKeys(c: Claims)
    ensures NewEmail(c).Some? ==> "email:" + NewEmail(c).value in LockKeys(c)
    ensures VerifiedEmail(c).Some? ==> "email:" + VerifiedEmail(c).value in LockKeys(c)
    ensures NewPhone(c).Some? ==> "phone:" + NewPhone(c).value in LockKeys(c)
    ensures VerifiedPhone(c).Some? ==> "phone:" + VerifiedPhone(c).value in LockKeys(c)
  {
    if c.email.Some? && !Given(c.email) { BlankIffNoWords(c.email.value); EmptyClaims(); }
    if c.phoneNumber.Some? && !Given(c.phoneNumber) { EmptyClaims(); }
    hide Trim, ClaimedEmail;
    if Given(c.email) { assert LockKeys(c)[0] == "email:" + ClaimedEmail(c.email.value); }
    if Given(c.phoneNumber) {
      assert LockKeys(c)[if Given(c.email) then 1 else 0] == "phone:" + Trim(c.phoneNumber.value);
    }
  }

  lemma EmptyClaims()
    ensures ClaimedEmail("") == "" && Trim("") == ""
  {
  }

  ghost predicate Unequal(a: Option<string>, b: Option<string>) {
    a.Some? && b.Some? ==> a.value != b.value
  }

  lemma ContactsApart(c: Claims, d: Claims)
    requires NoSharedKey(c, d)
    ensures Unequal(NewEmail(c), VerifiedEmail(d)) && Unequal(NewEmail(c), NewEmail(d))
    ensures Unequal(NewPhone(c), VerifiedPhone(d)) && Unequal(NewPhone(c), NewPhone(d))
  {
    hide LockKeys, VerifiedEmail, VerifiedPhone, NewEmail, NewPhone;
    ContactKeys(c);
    ContactKeys(d);
    NoCommonContact("email:", NewEmail(c), VerifiedEmail(d), LockKeys(c), LockKeys(d));
    NoCommonContact("email:", NewEmail(c), NewEmail(d), LockKeys(c), LockKeys(d));
    NoCommonContact("phone:", NewPhone(c), VerifiedPhone(d), LockKeys(c), LockKeys(d));
    NoCommonContact("phone:", NewPhone(c), NewPhone(d), LockKeys(c), LockKeys(d));
  }

  lemma NewEmailIsStored(c: Claims)
    ensures NewEmail(c).Some? ==> StoredEmail(NewEmail(c).value) == NewEmail(c).value
  {
    hide StoredEmail, ClaimedEmail;
    if c.email.Some? { ClaimedEmailIsStored(c.email.value); }
  }

  /** A row created under `c`'s locks is found by no query of a disjoint request. */
  lemma NewRowIsForeign(c: Claims, d: Claims, role: string, nameFallback: Option<string>)
    requires NoSharedKey(c, d)
    ensures Foreign(NewRow(c, role, nameFallback), d)
  {
    hide LockKeys, VerifiedEmail, VerifiedPhone, NewEmail, NewPhone, StoredEmail, NoSharedKey;
    SubjectsDiffer(c, d);
    ContactsApart(c, d);
    NewEmailIsStored(c);
  }

  lemma NoCommonContact(prefix: string, a: Option<string>, b: Option<string>, keys: seq<string>, other: seq<string>)
    requires forall k :: k in keys ==> k !in other
    requires a.Some? ==> prefix + a.value in keys
    requires b.Some? ==> prefix + b.value in other
    ensures a.Some? && b.Some? ==> a.value != b.value
  {
  }

  /** Only a locked, unlinked row is ever linked. */
  lemma DecisionShape(users: Users, deletedSubjects: set<string>, r: Request)
    ensures var plan := Decide(users, deletedSubjects, r);
      && (plan.Keep? ==> plan.id in users)
      && (plan.Link? ==> plan.id in users && plan.id in LockedRows(users, r.claims) && users[plan.id].logtoUserId.None?)
  {
    LockedRowsExist(users, r.claims);
    hide WithContact, NewEmail, NewPhone, VerifiedEmail, VerifiedPhone, LegacyRole;
  }

  /** A commit leaves what a disjoint request decides, and the rows it reads, as they were. */
  lemma CommitIsInvisible(users: Users, deletedSubjects: set<string>, r: Request, s: Request)
    requires Unique(users) && NoSharedKey(r.claims, s.claims) && r.newId !in users
    requires LockedRows(users, r.claims) !! LockedRows(users, s.claims)
    ensures var after := Transaction(users, deletedSubjects, r).0;
      && Decide(after, deletedSubjects, s) == Decide(users, deletedSubjects, s)
      && LockedRows(after, s.claims) == LockedRows(users, s.claims)
  {
    SubjectsDiffer(r.claims, s.claims);
    DecisionShape(users, deletedSubjects, r);
    hide Decide, LockedRows, NoSharedKey, Unique, LinkedRow, NewRow, Violates;
    match Decide(users, deletedSubjects, r)
    case Refuse =>
    case Conflict =>
    case Keep(_) =>
    case Link(id) =>
      if LinkedRow(users[id], r.claims).Some? { LinkIsInvisible(users, deletedSubjects, r.claims, s, id); }
    case Create(role, nameFallback) =>
      CreateIsInvisible(users, deletedSubjects, r.claims, s, r.newId, role, nameFallback);
  }

  /** A commit leaves the rows that a request with other keys wants as they were,
      even when it writes to one of them. */
  lemma CommitKeepsTargets(users: Users, deletedSubjects: set<string>, r: Request, s: Request)
    requires NoSharedKey(r.claims, s.claims) && r.newId !in users
    ensures LockedRows(Transaction(users, deletedSubjects, r).0, s.claims) == LockedRows(users, s.claims)
  {
    hide VerifiedEmail, VerifiedPhone, NewEmail, NewPhone, NewRow, LegacyRole;
    SubjectsDiffer(r.claims, s.claims);
    match Decide(users, deletedSubjects, r)
    case Refuse =>
    case Conflict =>
    case Keep(_) =>
    case Link(id) =>
      if LinkedRow(users[id], r.claims).Some? {
        SameQueries(users, users[id := LinkedRow(users[id], r.claims).value], s.claims);
      }
    case Create(role, nameFallback) =>
      NewRowIsForeign(r.claims, s.claims, role, nameFallback);
      SameQueries(users, users[r.newId := NewRow(r.claims, role, nameFallback)], s.claims);
  }

  ghost predicate SameContacts(u: User, v: User) {
    u.email == v.email && u.phone == v.phone && u.deleted == v.deleted
  }

  /** No query of the claims finds the row. */
  ghost predicate Foreign(u: User, c: Claims) {
    && u.logtoUserId != Some(c.sub)
    && !HasContact(u, VerifiedEmail(c), VerifiedPhone(c))
    && !HasContact(u, NewEmail(c), NewPhone(c))
  }

  lemma SameQueries(users: Users, after: Users, c: Claims)
    requires users.Keys <= after.Keys
    requires forall id :: id in users && id in after && users[id] != after[id] ==>
      users[id].logtoUserId != Some(c.sub) && after[id].logtoUserId != Some(c.sub)
    requires forall id :: id in users ==> SameContacts(users[id], after[id])
    requires forall id :: id in after && id !in users ==> Foreign(after[id], c)
    ensures LinkedTo(after, c.sub) == LinkedTo(users, c.sub)
    ensures Candidates(after, c) == Candidates(users, c)
    ensures WithContact(after, NewEmail(c), NewPhone(c)) == WithContact(users, NewEmail(c), NewPhone(c))
  {
    hide VerifiedEmail, VerifiedPhone, NewEmail, NewPhone, StoredEmail;
  }

  /** A decision looks at its queries and at the rows it locks. */
  lemma SameDecision(users: Users, after: Users, deletedSubjects: set<string>, s: Request)
    requires LinkedTo(after, s.claims.sub) == LinkedTo(users, s.claims.sub)
    requires Candidates(after, s.claims) == Candidates(users, s.claims)
    requires var c := s.claims;
      WithContact(after, NewEmail(c), NewPhone(c)) == WithContact(users, NewEmail(c), NewPhone(c))
    requires forall id :: id in LockedRows(users, s.claims) ==> id in users && id in after && after[id] == users[id]
    ensures Decide(after, deletedSubjects, s) == Decide(users, deletedSubjects, s)
    ensures LockedRows(after, s.claims) == LockedRows(users, s.claims)
  {
    hide LinkedTo, Candidates, WithContact, NewEmail, NewPhone, LegacyRole;
  }

  lemma LockedRowsExist(users: Users, c: Claims)
    ensures LockedRows(users, c) <= users.Keys
  {
    hide HasContact, VerifiedEmail, VerifiedPhone;
  }

  lemma LinkIsInvisible(users: Users, deletedSubjects: set<string>, c: Claims, s: Request, id: nat)
    requires id in users && users[id].logtoUserId.None? && id !in LockedRows(users, s.claims)
    requires c.sub != s.claims.sub && LinkedRow(users[id], c).Some?
    ensures var after := users[id := LinkedRow(users[id], c).value];
      && Decide(after, deletedSubjects, s) == Decide(users, deletedSubjects, s)
      && LockedRows(after, s.claims) == LockedRows(users, s.claims)
  {
    var after := users[id := LinkedRow(users[id], c).value];
    LockedRowsExist(users, s.claims);
    hide WithContact, VerifiedEmail, VerifiedPhone, NewEmail, NewPhone, Decide, LockedRows, LinkedTo, Candidates;
    SameQueries(users, after, s.claims);
    SameDecision(users, after, deletedSubjects, s);
  }

  lemma CreateIsInvisible(users: Users, deletedSubjects: set<string>, c: Claims, s: Request, id: nat, role: string,
                          nameFallback: Option<string>)
    requires id !in users && NoSharedKey(c, s.claims)
    ensures var after := users[id := NewRow(c, role, nameFallback)];
      && Decide(after, deletedSubjects, s) == Decide(users, deletedSubjects, s)
      && LockedRows(after, s.claims) == LockedRows(users, s.claims)
  {
    hide WithContact, NewEmail, NewPhone, NewRow, Decide, LockedRows, LinkedTo, Candidates, Foreign, NoSharedKey;
    var after := users[id := NewRow(c, role, nameFallback)];
    LockedRowsExist(users, s.claims);
    NewRowIsForeign(c, s.claims, role, nameFallback);
    SameQueries(users, after, s.claims);
    SameDecision(users, after, deletedSubjects, s);
  }

  // ---- what every step keeps ----------------------------------------------------------------

  ghost predicate ReadIsCurrent(w: World, p: nat)
    requires p in w.procs
  {
    w.procs[p].phase.Read? ==>
      && w.procs[p].phase.plan == Decide(w.users, w.deletedSubjects, w.procs[p].request)
      && w.procs[p].phase.rows == LockedRows(w.users, w.procs[p].request.claims)
  }

  /** The rows locked so far are the first ones by id. */
  ghost predicate FetchInOrder(w: World, p: nat)
    requires p in w.procs
  {
    w.procs[p].phase.Fetching? ==>
      && w.procs[p].phase.rows <= LockedRows(w.users, w.procs[p].request.claims)
      && forall r, x :: r in w.procs[p].phase.rows && x in Missing(w, p) ==> r < x
  }

  ghost predicate Apart(p: Proc, q: Proc) {
    && (forall k :: k in Held(p) ==> k !in Held(q))
    && Rows(p) !! Rows(q)
    && (!p.phase.Finished? && !q.phase.Finished? ==> p.request.newId != q.request.newId)
  }

  /** What holds of each transaction. */
  ghost predicate ProcOk(w: World, p: nat)
    requires p in w.procs
  {
    && (w.procs[p].phase.Locking? ==> w.procs[p].phase.held <= |LockKeys(w.procs[p].request.claims)|)
    && (!w.procs[p].phase.Finished? ==> w.procs[p].request.newId !in w.users)
    && ReadIsCurrent(w, p) && FetchInOrder(w, p)
  }

  ghost predicate Inv(start: Users, w: World) {
    && Unique(w.users)
    && (forall p :: p in w.procs ==> ProcOk(w, p))
    && (forall p, q :: p in w.procs && q in w.procs && p != q ==> Apart(w.procs[p], w.procs[q]))
    && w.users == Serial(start, w.deletedSubjects, w.log)
    && SerialOutcomes(start, w.deletedSubjects, w.log)
  }

  /** A transaction that did not move is still as it should be while its rows stay the same. */
  lemma OthersFetchOn(w: World, t: World, q: nat)
    requires q in w.procs && q in t.procs && t.procs[q] == w.procs[q] && FetchInOrder(w, q)
    requires w.procs[q].phase.Fetching? ==>
      LockedRows(t.users, w.procs[q].request.claims) == LockedRows(w.users, w.procs[q].request.claims)
    ensures FetchInOrder(t, q)
  {
    hide LockedRows;
    if w.procs[q].phase.Fetching? { assert Missing(t, q) == Missing(w, q); }
  }

  lemma ApartBothWays(p: Proc, q: Proc)
    requires Apart(p, q)
    ensures Apart(q, p)
  {
    hide LockKeys;
  }

  /** A step that moves one transaction, keeps the table, and leaves that
      transaction in order and apart from the others, keeps the invariant. */
  lemma OneMoves(start: Users, w: World, t: World, p: nat)
    requires Inv(start, w) && p in t.procs && t == w.(procs := w.procs[p := t.procs[p]]) && ProcOk(t, p)
    requires forall q :: q in w.procs && q != p ==> Apart(t.procs[p], w.procs[q])
    ensures Inv(start, t)
  {
    hide Unique, Decide, LockedRows, Serial, SerialOutcomes, LockKeys, Apart, FetchInOrder;
    forall q | q in t.procs && q != p ensures ProcOk(t, q) && Apart(t.procs[q], t.procs[p]) {
      assert ProcOk(w, q);
      OthersFetchOn(w, t, q);
      ApartBothWays(t.procs[p], t.procs[q]);
    }
  }

  lemma BeginKeepsInv(start: Users, w: World, p: nat, r: Request)
    requires Inv(start, w) && Enabled(w, Begin(p, r))
    ensures Inv(start, Next(w, Begin(p, r)))
  {
    hide Inv, Decide, LockedRows, LockKeys;
    OneMoves(start, w, Next(w, Begin(p, r)), p);
  }

  lemma MovedIsApart(start: Users, w: World, p: nat, q: nat)
    requires Inv(start, w) && p in w.procs && q in w.procs && p != q
    ensures Apart(w.procs[p], w.procs[q]) && ProcOk(w, p)
  {
    hide Apart, ProcOk, Unique;
  }

  lemma LockKeepsInv(start: Users, w: World, p: nat)
    requires Inv(start, w) && CanLock(w, p)
    ensures Inv(start, Next(w, Lock(p)))
  {
    hide Inv, Decide, LockedRows, LockKeys;
    var t := Next(w, Lock(p));
    var keys, n := LockKeys(w.procs[p].request.claims), w.procs[p].phase.held;
    assert keys[..n + 1] == keys[..n] + [keys[n]];
    ProcIsOk(start, w, p);
    forall q | q in w.procs && q != p ensures Apart(t.procs[p], w.procs[q]) {
      MovedIsApart(start, w, p, q);
      assert Held(t.procs[p]) == Held(w.procs[p]) + [keys[n]];
    }
    OneMoves(start, w, t, p);
  }

  lemma ProcIsOk(start: Users, w: World, p: nat)
    requires Inv(start, w) && p in w.procs
    ensures ProcOk(w, p)
  {
    hide ProcOk, Apart, Unique;
  }

  lemma FetchedNext(w: World, p: nat, id: nat)
    requires CanLockRow(w, p, id) && FetchInOrder(w, p)
    ensures FetchInOrder(Next(w, LockRow(p, id)), p)
  {
    hide LockedRows, LockKeys;
    var t := Next(w, LockRow(p, id));
    assert Missing(t, p) == Missing(w, p) - {id};
  }

  lemma HeldAll(p: Proc)
    requires Fetches(p)
    ensures Held(p) == LockKeys(p.request.claims)
  {
    hide LockKeys;
    var keys := LockKeys(p.request.claims);
    assert keys[..|keys|] == keys;
  }

  lemma LockRowKeepsInv(start: Users, w: World, p: nat, id: nat)
    requires Inv(start, w) && CanLockRow(w, p, id)
    ensures Inv(start, Next(w, LockRow(p, id)))
  {
    hide Inv, Decide, LockedRows, LockKeys, Missing;
    var t := Next(w, LockRow(p, id));
    HeldAll(w.procs[p]);
    ProcIsOk(start, w, p);
    FetchedNext(w, p, id);
    forall q | q in w.procs && q != p ensures Apart(t.procs[p], w.procs[q]) {
      MovedIsApart(start, w, p, q);
      assert id !in Rows(w.procs[q]);
    }
    OneMoves(start, w, t, p);
  }

  lemma ReadKeepsInv(start: Users, w: World, p: nat)
    requires Inv(start, w) && CanRead(w, p)
    ensures Inv(start, Next(w, ReadRows(p)))
  {
    hide Inv, Decide, LockedRows, LockKeys, Missing;
    var t := Next(w, ReadRows(p));
    HeldAll(w.procs[p]);
    ProcIsOk(start, w, p);
    AllFetched(w, p);
    forall q | q in w.procs && q != p ensures Apart(t.procs[p], w.procs[q]) {
      MovedIsApart(start, w, p, q);
    }
    OneMoves(start, w, t, p);
  }

  lemma AllFetched(w: World, p: nat)
    requires CanRead(w, p) && FetchInOrder(w, p)
    ensures LockedRows(w.users, w.procs[p].request.claims) == Rows(w.procs[p])
  {
    hide LockedRows, LockKeys;
    var wanted := LockedRows(w.users, w.procs[p].request.claims);
    assert wanted - Rows(w.procs[p]) == {};
    forall x | x in wanted ensures x in Rows(w.procs[p]) {
      assert x !in wanted - Rows(w.procs[p]);
    }
  }

  lemma CommitIsSerial(start: Users, w: World, p: nat)
    requires Inv(start, w) && CanCommit(w, p)
    ensures var t := Next(w, Commit(p));
      && t.users == Transaction(w.users, w.deletedSubjects, w.procs[p].request).0
      && t.users == Serial(start, t.deletedSubjects, t.log) && SerialOutcomes(start, t.deletedSubjects, t.log)
  {
    hide Unique, Decide, LockedRows, Apply, Apart, FetchInOrder, LockKeys;
    assert ProcOk(w, p) && ReadIsCurrent(w, p);
    var t := Next(w, Commit(p));
    assert t.log[..|w.log|] == w.log;
    forall i | 0 <= i < |t.log|
      ensures var before := Serial(start, t.deletedSubjects, t.log[..i]);
        t.log[i].outcome == Transaction(before, t.deletedSubjects, t.log[i].request).1
    {
      if i < |w.log| { assert t.log[..i] == w.log[..i] && t.log[i] == w.log[i]; }
    }
  }

  lemma NewKeyOnly(users: Users, deletedSubjects: set<string>, r: Request, id: nat)
    requires id in Transaction(users, deletedSubjects, r).0
    ensures id in users || id == r.newId
  {
    hide LinkedRow, NewRow, Violates, CreatePlan;
  }

  lemma CommitKeepsOthers(start: Users, w: World, p: nat, q: nat)
    requires Inv(start, w) && CanCommit(w, p) && q in w.procs && q != p
    ensures ProcOk(Next(w, Commit(p)), q)
  {
    hide Inv, Unique, Decide, LockedRows, LockKeys, Apply, FetchInOrder;
    var r, s := w.procs[p].request, w.procs[q].request;
    TableIsUnique(start, w);
    ProcIsOk(start, w, p);
    ProcIsOk(start, w, q);
    MovedIsApart(start, w, p, q);
    if w.procs[q].phase.Read? {
      assert Held(w.procs[p]) == LockKeys(r.claims) && Held(w.procs[q]) == LockKeys(s.claims);
      CommitIsInvisible(w.users, w.deletedSubjects, r, s);
    }
    if w.procs[q].phase.Fetching? {
      assert Held(w.procs[p]) == LockKeys(r.claims) && Held(w.procs[q]) == LockKeys(s.claims);
      CommitKeepsTargets(w.users, w.deletedSubjects, r, s);
    }
    OthersFetchOn(w, Next(w, Commit(p)), q);
    if !w.procs[q].phase.Finished? && s.newId in Next(w, Commit(p)).users {
      NewKeyOnly(w.users, w.deletedSubjects, r, s.newId);
    }
  }

  lemma TableIsUnique(start: Users, w: World)
    requires Inv(start, w)
    ensures Unique(w.users)
  {
    hide Unique, ProcOk, Apart;
  }

  lemma CommitKeepsInv(start: Users, w: World, p: nat)
    requires Inv(start, w) && CanCommit(w, p)
    ensures Inv(start, Next(w, Commit(p)))
  {
    hide Decide, LockedRows, Serial, SerialOutcomes, LockKeys, Apply, Unique, ReadIsCurrent, FetchInOrder;
    var t := Next(w, Commit(p));
    CommitIsSerial(start, w, p);
    ProvisionKeepsUnique(w.users, w.deletedSubjects, w.procs[p].request);
    FinishedIsOk(t, p);
    hide ProcOk;
    forall q | q in t.procs && q != p
      ensures ProcOk(t, q) && Apart(t.procs[p], t.procs[q]) && Apart(t.procs[q], t.procs[p])
    {
      CommitKeepsOthers(start, w, p, q);
      assert Apart(w.procs[p], w.procs[q]) && Apart(w.procs[q], w.procs[p]);
    }
  }

  lemma FinishedIsOk(w: World, p: nat)
    requires p in w.procs && w.procs[p].phase.Finished?
    ensures ProcOk(w, p)
  {
  }

  lemma StepKeepsInv(start: Users, w: World, a: Action)
    requires Inv(start, w) && Enabled(w, a)
    ensures Inv(start, Next(w, a))
  {
    match a
    case Begin(p, r) => BeginKeepsInv(start, w, p, r);
    case Lock(p) => LockKeepsInv(start, w, p);
    case LockRow(p, id) => LockRowKeepsInv(start, w, p, id);
    case ReadRows(p) => ReadKeepsInv(start, w, p);
    case Commit(p) => CommitKeepsInv(start, w, p);
  }

  // ---- whole runs ------------------------------------------------------------------------------

  ghost predicate IsRun(worlds: seq<World>, actions: seq<Action>) {
    && |worlds| == |actions| + 1
    && forall i :: 0 <= i < |actions| ==> Enabled(worlds[i], actions[i]) && worlds[i + 1] == Next(worlds[i], actions[i])
  }

  ghost predicate Idle(w: World) {
    Unique(w.users) && w.procs == map[] && w.log == []
  }

  lemma {:induction false} RunKeepsInv(worlds: seq<World>, actions: seq<Action>)
    requires IsRun(worlds, actions) && Idle(worlds[0])
    ensures Inv(worlds[0].users, worlds[|actions|])
    ensures worlds[|actions|].deletedSubjects == worlds[0].deletedSubjects
  {
    hide Unique;
    if actions != [] {
      var n := |actions| - 1;
      RunKeepsInv(worlds[..n + 1], actions[..n]);
      StepKeepsInv(worlds[0].users, worlds[n], actions[n]);
    }
  }

  /** Any interleaving ends in the table, and gives every caller the outcome,
      of running the transactions one at a time in commit order; so it keeps
      one account per subject and one live account per email and per phone. */
  lemma InterleavingsAreSerial(worlds: seq<World>, actions: seq<Action>)
    requires IsRun(worlds, actions) && Idle(worlds[0])
    ensures var w := worlds[|actions|];
      && w.users == Serial(worlds[0].users, worlds[0].deletedSubjects, w.log)
      && SerialOutcomes(worlds[0].users, worlds[0].deletedSubjects, w.log)
      && Unique(w.users)
  {
    RunKeepsInv(worlds, actions);
  }

  /** Through any interleaving a linked subject keeps its account, and every
      sign-in of that subject gives that account or none. */
  lemma SubjectKeepsAccount(worlds: seq<World>, actions: seq<Action>, sub: string, id: nat, k: nat)
    requires IsRun(worlds, actions) && Idle(worlds[0]) && LinkedTo(worlds[0].users, sub) == {id}
    ensures LinkedTo(worlds[|actions|].users, sub) == {id}
    ensures k < |worlds[|actions|].log| && worlds[|actions|].log[k].request.claims.sub == sub ==>
      worlds[|actions|].log[k].outcome in {SignedIn(id), NoAccount}
  {
    RunKeepsInv(worlds, actions);
    hide LinkedTo, Unique;
    var w := worlds[|actions|];
    assert w.log[..|w.log|] == w.log;
    SerialKeepsLink(worlds[0].users, w.deletedSubjects, w.log, sub, id);
    if k < |w.log| {
      SerialKeepsLink(worlds[0].users, w.deletedSubjects, w.log[..k], sub, id);
      var before := Serial(worlds[0].users, w.deletedSubjects, w.log[..k]);
      LinkIsForever(before, w.deletedSubjects, w.log[k].request, sub, id);
    }
  }

  lemma {:induction false} SerialKeepsLink(
    users: Users, deletedSubjects: set<string>, log: seq<Entry>, sub: string, id: nat)
    requires Unique(users) && LinkedTo(users, sub) == {id}
    ensures Unique(Serial(users, deletedSubjects, log)) && LinkedTo(Serial(users, deletedSubjects, log), sub) == {id}
  {
    hide Unique, LinkedTo, Transaction;
    if log != [] {
      var n := |log| - 1;
      SerialKeepsLink(users, deletedSubjects, log[..n], sub, id);
      var before := Serial(users, deletedSubjects, log[..n]);
      ProvisionKeepsUnique(before, deletedSubjects, log[n].request);
      LinkIsForever(before, deletedSubjects, log[n].request, sub, id);
    }
  }

  // ---- no deadlock -----------------------------------------------------------------------------

  ghost predicate Waiting(w: World, p: nat) {
    p in w.procs && w.procs[p].phase.Locking? && w.procs[p].phase.held < |LockKeys(w.procs[p].request.claims)|
  }

  ghost function WantedRank(w: World, p: nat): int
    requires Waiting(w, p)
  {
    Rank(LockKeys(w.procs[p].request.claims)[w.procs[p].phase.held])
  }

  lemma {:induction false} HighestWaiter(w: World, ps: set<nat>) returns (p: nat)
    requires ps != {} && forall q :: q in ps ==> Waiting(w, q)
    ensures p in ps && forall q :: q in ps ==> WantedRank(w, q) <= WantedRank(w, p)
    decreases |ps|
  {
    hide Waiting, WantedRank;
    var first :| first in ps;
    var rest := ps - {first};
    p := first;
    if rest != {} {
      var r := HighestWaiter(w, rest);
      if WantedRank(w, first) < WantedRank(w, r) { p := r; }
    }
    forall q | q in ps ensures WantedRank(w, q) <= WantedRank(w, p) {
      assert q == first || q in rest;
    }
  }

  ghost function Least(s: set<nat>): (x: nat)
    requires s != {}
    ensures x in s && forall y :: y in s ==> x <= y
  {
    var y :| y in s;
    if s == {y} then y else
      assert s - {y} != {} && s == {y} + (s - {y});
      var z := Least(s - {y});
      if y < z then y else z
  }

  /** Still has a row to fetch. */
  ghost predicate Wants(w: World, p: nat) {
    p in w.procs && Fetches(w.procs[p]) && Missing(w, p) != {}
  }

  ghost function WantedRow(w: World, p: nat): (id: nat)
    requires Wants(w, p)
    ensures id in Missing(w, p) && forall x :: x in Missing(w, p) ==> id <= x
  {
    Least(Missing(w, p))
  }

  lemma {:induction false} HighestFetcher(w: World, ps: set<nat>) returns (p: nat)
    requires ps != {} && forall q :: q in ps ==> Wants(w, q)
    ensures p in ps && forall q :: q in ps ==> WantedRow(w, q) <= WantedRow(w, p)
    decreases |ps|
  {
    hide Wants, WantedRow;
    var first :| first in ps;
    var rest := ps - {first};
    p := first;
    if rest != {} {
      var r := HighestFetcher(w, rest);
      if WantedRow(w, first) < WantedRow(w, r) { p := r; }
    }
    forall q | q in ps ensures WantedRow(w, q) <= WantedRow(w, p) {
      assert q == first || q in rest;
    }
  }

  /** While rows are being fetched and none is held to be written, the fetcher
      that wants the highest row gets it: whoever held it would want a higher one. */
  lemma HighestCanFetch(start: Users, w: World, p: nat)
    requires Inv(start, w) && Wants(w, p)
    requires forall q :: q in w.procs ==> !CanCommit(w, q) && !CanRead(w, q)
    requires forall q :: Wants(w, q) ==> WantedRow(w, q) <= WantedRow(w, p)
    ensures CanLockRow(w, p, WantedRow(w, p))
  {
    hide Inv, Decide, LockedRows, LockKeys, Missing, WantedRow;
    var id := WantedRow(w, p);
    forall q | q in w.procs && q != p ensures id !in Rows(w.procs[q]) {
      ProcIsOk(start, w, q);
      assert !CanCommit(w, q) && !CanRead(w, q);
      if w.procs[q].phase.Fetching? {
        assert Wants(w, q);
        var wanted := WantedRow(w, q);
        assert forall r :: r in Rows(w.procs[q]) ==> r < wanted;
      }
    }
  }

  /** Sorted locking cannot deadlock, neither on the advisory locks nor on the
      rows: while a transaction is unfinished, one can go on. */
  lemma SomeoneCanGoOn(start: Users, w: World)
    requires Inv(start, w) && exists p :: p in w.procs && !w.procs[p].phase.Finished?
    ensures exists p :: CanLock(w, p) || CanRead(w, p) || CanCommit(w, p) || exists id :: CanLockRow(w, p, id)
  {
    hide Inv, Wants, WantedRow, CanLock, CanLockRow, CanRead, CanCommit;
    if !exists p :: CanRead(w, p) || CanCommit(w, p) {
      var fetching := set p | p in w.procs && Wants(w, p);
      forall p ensures Wants(w, p) <==> p in fetching {
        WantsIsProc(w, p);
      }
      if fetching != {} {
        var p := HighestFetcher(w, fetching);
        HighestCanFetch(start, w, p);
      } else {
        NobodyFetches(start, w);
      }
    }
  }

  lemma WantsIsProc(w: World, p: nat)
    ensures Wants(w, p) ==> p in w.procs
  {
  }

  lemma NobodyFetches(start: Users, w: World)
    requires Inv(start, w) && exists p :: p in w.procs && !w.procs[p].phase.Finished?
    requires forall p :: !CanRead(w, p) && !CanCommit(w, p) && !Wants(w, p)
    ensures exists p :: CanLock(w, p)
  {
    hide Inv, Decide, LockedRows, LockKeys, Missing, FetchInOrder, CanLock;
    forall p | p in w.procs && !w.procs[p].phase.Finished? ensures Waiting(w, p) {
      ProcIsOk(start, w, p);
      assert !CanCommit(w, p) && !CanRead(w, p) && !Wants(w, p);
    }
    var waiting := set p | p in w.procs && Waiting(w, p);
    var some :| some in w.procs && !w.procs[some].phase.Finished?;
    assert some in waiting;
    var p := HighestWaiter(w, waiting);
    HighestCanLock(w, p);
  }

  lemma HighestCanLock(w: World, p: nat)
    requires Waiting(w, p)
    requires forall q :: q in w.procs && !w.procs[q].phase.Finished? ==>
      Waiting(w, q) && WantedRank(w, q) <= WantedRank(w, p)
    ensures CanLock(w, p)
  {
    hide LockKeys, Rank;
    var key := LockKeys(w.procs[p].request.claims)[w.procs[p].phase.held];
    forall q | q in w.procs && q != p ensures key !in Held(w.procs[q]) {
      if !w.procs[q].phase.Finished? {
        var keys := LockKeys(w.procs[q].request.claims);
        assert Waiting(w, q);
        LockKeysAreSorted(w.procs[q].request.claims);
        assert forall i :: 0 <= i < w.procs[q].phase.held ==> Rank(keys[i]) < WantedRank(w, q);
      }
    }
  }
}
