/** Linking provider identities to accounts:
    apps/api/src/modules/auth/provisioning.service.ts. */
module Provisioning {
  import opened Collections
  import opened Text
  import opened OrderedMap

  datatype Status = Active | Pending | Suspended

  datatype User = User(
    logtoUserId: Option<string>,
    email: Option<string>,
    phone: Option<string>,
    emailVerified: bool,
    phoneVerified: bool,
    name: string,
    role: string,
    status: Status,
    deleted: bool)

  type Users = map<nat, User>

  /** Provider claims; a missing contact or name is None. */
  datatype Claims = Claims(
    sub: string,
    email: Option<string>,
    phoneNumber: Option<string>,
    name: Option<string>,
    emailVerified: bool,
    phoneVerified: bool)

  datatype Portal = Consumer | Staff
  datatype Intent = StudentIntent | LandlordIntent | StaffIntent
  datatype Invitation = Invitation(roleKey: string, name: Option<string>)

  /** One call of `provision`: `invitations` is what the abstracted lookup
      returns, `staffMembers` who holds an active staff role once they are
      accepted, `newId` the random id a new account would get. */
  datatype Request = Request(
    claims: Claims,
    portal: Portal,
    intent: Intent,
    invitations: seq<Invitation>,
    staffMembers: set<nat>,
    newId: nat)

  /** The account signed in, none, or an exception that rolls the transaction back. */
  datatype Outcome = SignedIn(id: nat) | NoAccount | Failed

  // ---- contacts --------------------------------------------------------------------

  function Given(s: Option<string>): bool {
    s.Some? && s.value != ""
  }

  /** `claims.email.trim().toLowerCase()`. */
  function ClaimedEmail(s: string): string {
    Lower(Trim(s))
  }

  function BTrimStart(s: string): (r: string)
    ensures s != "" && s[0] != ' ' ==> r == s
  {
    if s != "" && s[0] == ' ' then BTrimStart(s[1..]) else s
  }

  function BTrimEnd(s: string): (r: string)
    ensures s != "" && s[|s| - 1] != ' ' ==> r == s
  {
    if s != "" && s[|s| - 1] == ' ' then BTrimEnd(s[..|s| - 1]) else s
  }

  /** `lower(btrim(email))`: the database trims blanks only. */
  function StoredEmail(s: string): string {
    Lower(BTrimEnd(BTrimStart(s)))
  }

  /** The two normal forms agree on what this service stores. */
  lemma ClaimedEmailIsStored(s: string)
    ensures StoredEmail(ClaimedEmail(s)) == ClaimedEmail(s)
  {
    hide TrimStart, TrimEnd, BTrimStart, BTrimEnd;
    var t := Trim(s);
    var e := Lower(t);
    if t != "" {
      assert !IsSpace(e[0]) && !IsSpace(e[|e| - 1]);
    }
    assert BTrimEnd(BTrimStart(e)) == e by { if e == "" { EmptyBTrim(); } }
    assert forall c :: LowerChar(LowerChar(c)) == LowerChar(c);
    assert Lower(e) == e;
  }

  lemma EmptyBTrim()
    ensures BTrimEnd(BTrimStart("")) == ""
  {
  }

  predicate Blanks(s: string) {
    forall i :: 0 <= i < |s| ==> s[i] == ' '
  }

  lemma {:induction false} BlanksBefore(a: string, s: string)
    requires Blanks(a)
    ensures BTrimStart(a + s) == BTrimStart(s)
  {
    if a == "" {
      assert a + s == s;
    } else {
      assert (a + s)[1..] == a[1..] + s;
      BlanksBefore(a[1..], s);
    }
  }

  lemma {:induction false} BlanksAfter(s: string, b: string)
    requires Blanks(b)
    ensures BTrimEnd(s + b) == BTrimEnd(s)
  {
    if b == "" {
      assert s + b == s;
    } else {
      var n := |b| - 1;
      assert (s + b)[..|s + b| - 1] == s + b[..n];
      BlanksAfter(s, b[..n]);
    }
  }

  /** Blanks around a stored email do not count, and neither does its case; nothing
      else is ignored, not even other white space. */
  lemma StoredEmailIs(a: string, core: string, b: string)
    requires Blanks(a) && Blanks(b)
    requires core != "" ==> core[0] != ' ' && core[|core| - 1] != ' '
    ensures StoredEmail(a + core + b) == Lower(core)
  {
    hide BTrimStart, BTrimEnd;
    assert a + core + b == a + (core + b);
    BlanksBefore(a, core + b);
    if core == "" {
      BlanksBefore(b, "");
      assert core + b == b + "";
      EmptyBTrim();
    } else {
      BlanksAfter(core, b);
      assert BTrimStart(core + b) == core + b && BTrimEnd(core) == core;
    }
  }

  function VerifiedEmail(c: Claims): Option<string> {
    if c.emailVerified && Given(c.email) then Some(ClaimedEmail(c.email.value)) else None
  }

  function VerifiedPhone(c: Claims): Option<string> {
    if c.phoneVerified && Given(c.phoneNumber) then Some(Trim(c.phoneNumber.value)) else None
  }

  function NonBlank(s: Option<string>): Option<string> {
    if Given(s) then s else None
  }

  function NewEmail(c: Claims): Option<string> {
    if c.email.Some? then NonBlank(Some(ClaimedEmail(c.email.value))) else None
  }

  function NewPhone(c: Claims): Option<string> {
    if c.phoneNumber.Some? then NonBlank(Some(Trim(c.phoneNumber.value))) else None
  }

  predicate HasContact(u: User, email: Option<string>, phone: Option<string>) {
    !u.deleted && (
      || (email.Some? && u.email.Some? && StoredEmail(u.email.value) == email.value)
      || (phone.Some? && u.phone == phone))
  }

  // ---- the three queries ------------------------------------------------------------

  /** `WHERE logto_user_id = $1`. */
  function LinkedTo(users: Users, sub: string): set<nat> {
    set id | id in users && users[id].logtoUserId == Some(sub)
  }

  /** Live accounts with either contact. */
  function WithContact(users: Users, email: Option<string>, phone: Option<string>): set<nat> {
    set id | id in users && HasContact(users[id], email, phone)
  }

  function Candidates(users: Users, c: Claims): set<nat> {
    if !Given(VerifiedEmail(c)) && !Given(VerifiedPhone(c)) then {}
    else WithContact(users, VerifiedEmail(c), VerifiedPhone(c))
  }

  // ---- the decision -------------------------------------------------------------------

  datatype Plan = Refuse | Conflict | Keep(id: nat) | Link(id: nat) | Create(role: string, nameFallback: Option<string>)

  function LegacyRole(key: string): Option<string> {
    match key
    case "ops_lead" => Some("ops_lead")
    case "ops_inspector" => Some("ops_inspector")
    case "super_admin" => Some("admin")
    case "platform_admin" => Some("admin")
    case "finance_admin" => Some("admin")
    case "support_admin" => Some("admin")
    case "auditor" => Some("admin")
    case "director" => Some("admin")
    case "general_manager" => Some("admin")
    case "office_admin" => Some("admin")
    case _ => None
  }

  /** Staff invitations are looked up only in the dedicated staff flow. */
  function PendingInvitations(r: Request): seq<Invitation> {
    if r.portal.Staff? && r.intent.StaffIntent? then r.invitations else []
  }

  ghost function TheOnly(s: set<nat>): (x: nat)
    requires s != {}
    ensures x in s
  {
    var x :| x in s; x
  }

  function CreatePlan(users: Users, c: Claims, role: string, nameFallback: Option<string>): Plan {
    if WithContact(users, NewEmail(c), NewPhone(c)) != {} then Conflict else Create(role, nameFallback)
  }

  function NewAccountPlan(users: Users, r: Request): Plan {
    var pending := PendingInvitations(r);
    if pending != [] then
      var role := LegacyRole(pending[0].roleKey);
      if role.None? then Refuse else CreatePlan(users, r.claims, role.value, pending[0].name)
    else if r.portal.Staff? then Refuse
    else CreatePlan(users, r.claims, if r.intent.LandlordIntent? then "landlord" else "student", None)
  }

  /** What the transaction reads, put together. */
  ghost function Decide(users: Users, deletedSubjects: set<string>, r: Request): Plan {
    var linked := LinkedTo(users, r.claims.sub);
    var candidates := Candidates(users, r.claims);
    if r.claims.sub in deletedSubjects then Refuse
    else if linked != {} then
      if users[TheOnly(linked)].deleted then Refuse else Keep(TheOnly(linked))
    else if |candidates| > 1 then Conflict
    else if candidates != {} then
      if users[TheOnly(candidates)].logtoUserId.Some? then Conflict else Link(TheOnly(candidates))
    else NewAccountPlan(users, r)
  }

  // ---- the writes ------------------------------------------------------------------------

  /** `flag OR (claimed AND stored IS NOT NULL AND stored = contact)` in SQL's
      three-valued logic; none is NULL, which the column refuses. */
  function VerifiedAfter(flag: bool, claimed: bool, stored: Option<string>, contact: Option<string>): Option<bool> {
    if flag then Some(true)
    else if !claimed || stored.None? then Some(false)
    else if contact.None? then None
    else Some(stored == contact)
  }

  function MapStored(s: Option<string>): Option<string> {
    if s.Some? then Some(StoredEmail(s.value)) else None
  }

  function LinkedRow(u: User, c: Claims): Option<User> {
    var emailFlag := VerifiedAfter(u.emailVerified, c.emailVerified, MapStored(u.email), VerifiedEmail(c));
    var phoneFlag := VerifiedAfter(u.phoneVerified, c.phoneVerified, u.phone, VerifiedPhone(c));
    if emailFlag.None? || phoneFlag.None? then None
    else Some(u.(logtoUserId := Some(c.sub), emailVerified := emailFlag.value, phoneVerified := phoneFlag.value))
  }

  function TrimmedName(s: Option<string>): string {
    if s.Some? then Trim(s.value) else ""
  }

  function NewRow(c: Claims, role: string, nameFallback: Option<string>): User {
    var name := TrimmedName(c.name);
    User(Some(c.sub), NewEmail(c), NewPhone(c), c.emailVerified, c.phoneVerified,
      if name != "" then name else TrimmedName(nameFallback), role, Active, false)
  }

  /** The unique columns of `users`, which deleted rows keep occupied. */
  predicate Violates(users: Users, row: User) {
    exists id :: id in users && (
      || (row.logtoUserId.Some? && users[id].logtoUserId == row.logtoUserId)
      || (row.email.Some? && users[id].email == row.email)
      || (row.phone.Some? && users[id].phone == row.phone))
  }

  predicate Eligible(id: nat, u: User, r: Request) {
    !u.deleted && u.status != Suspended && (r.portal.Staff? ==> u.status == Active && id in r.staffMembers)
  }

  function Finish(users: Users, id: nat, r: Request): (Users, Outcome)
    requires id in users
  {
    (users, if Eligible(id, users[id], r) then SignedIn(id) else NoAccount)
  }

  /** The plan carried out; every failure leaves the table as it was. */
  function Apply(users: Users, plan: Plan, r: Request): (Users, Outcome) {
    match plan
    case Refuse => (users, NoAccount)
    case Conflict => (users, Failed)
    case Keep(id) => if id in users then Finish(users, id, r) else (users, Failed)
    case Link(id) =>
      if id !in users || users[id].logtoUserId.Some? || LinkedRow(users[id], r.claims).None? then (users, Failed)
      else Finish(users[id := LinkedRow(users[id], r.claims).value], id, r)
    case Create(role, nameFallback) =>
      var row := NewRow(r.claims, role, nameFallback);
      if Violates(users, row) || r.newId in users then (users, Failed)
      else Finish(users[r.newId := row], r.newId, r)
  }

  /** One whole transaction, alone. */
  ghost function Transaction(users: Users, deletedSubjects: set<string>, r: Request): (Users, Outcome) {
    Apply(users, Decide(users, deletedSubjects, r), r)
  }

  // ---- the table's invariant ---------------------------------------------------------------

  ghost predicate SameSubject(u: User, v: User) {
    u.logtoUserId.Some? && u.logtoUserId == v.logtoUserId
  }

  ghost predicate SameLiveContact(u: User, v: User) {
    !u.deleted && !v.deleted && (
      || (u.email.Some? && v.email.Some? && StoredEmail(u.email.value) == StoredEmail(v.email.value))
      || (u.phone.Some? && u.phone == v.phone))
  }

  /** One account per subject, one live account per email and per phone. */
  ghost predicate Unique(users: Users) {
    forall a, b :: a in users && b in users && a != b ==>
      !SameSubject(users[a], users[b]) && !SameLiveContact(users[a], users[b])
  }

  lemma LinkKeepsUnique(users: Users, id: nat, c: Claims)
    requires Unique(users) && id in users && LinkedTo(users, c.sub) == {} && LinkedRow(users[id], c).Some?
    ensures Unique(users[id := LinkedRow(users[id], c).value])
  {
    hide StoredEmail, VerifiedAfter, VerifiedEmail, VerifiedPhone;
    var after := users[id := LinkedRow(users[id], c).value];
    forall a, b | a in after && b in after && a != b
      ensures !SameSubject(after[a], after[b]) && !SameLiveContact(after[a], after[b])
    {
      assert a !in LinkedTo(users, c.sub) && b !in LinkedTo(users, c.sub);
      assert !SameSubject(users[a], users[b]) && !SameLiveContact(users[a], users[b]);
    }
  }

  lemma CreateKeepsUnique(users: Users, newId: nat, c: Claims, role: string, nameFallback: Option<string>)
    requires Unique(users) && newId !in users
    requires WithContact(users, NewEmail(c), NewPhone(c)) == {}
    requires !Violates(users, NewRow(c, role, nameFallback))
    ensures Unique(users[newId := NewRow(c, role, nameFallback)])
  {
    if c.email.Some? { ClaimedEmailIsStored(c.email.value); }
    hide StoredEmail, Trim, Lower;
    var row := NewRow(c, role, nameFallback);
    forall a | a in users
      ensures !SameSubject(users[a], row) && !SameSubject(row, users[a])
      ensures !SameLiveContact(users[a], row) && !SameLiveContact(row, users[a])
    {
      assert a !in WithContact(users, NewEmail(c), NewPhone(c));
    }
  }

  /** Every transaction keeps the table unique, and changes at most one row:
      a link fills an unlinked row's subject, a creation adds a linked one. */
  lemma ProvisionKeepsUnique(users: Users, deletedSubjects: set<string>, r: Request)
    requires Unique(users)
    ensures Unique(Transaction(users, deletedSubjects, r).0)
  {
    hide LinkedRow, NewRow, Violates, Unique, HasContact;
    match Decide(users, deletedSubjects, r)
    case Refuse =>
    case Conflict =>
    case Keep(_) =>
    case Link(id) =>
      if LinkedRow(users[id], r.claims).Some? { LinkKeepsUnique(users, id, r.claims); }
    case Create(role, nameFallback) =>
      if !Violates(users, NewRow(r.claims, role, nameFallback)) && r.newId !in users {
        CreateKeepsUnique(users, r.newId, r.claims, role, nameFallback);
      }
  }

  /** An exception changes nothing. */
  lemma FailureChangesNothing(users: Users, deletedSubjects: set<string>, r: Request)
    ensures Transaction(users, deletedSubjects, r).1 == Failed ==> Transaction(users, deletedSubjects, r).0 == users
  {
  }

  /** A subject, once linked, stays with its account, and signing it in gives
      that account or nothing. */
  lemma LinkIsForever(users: Users, deletedSubjects: set<string>, r: Request, sub: string, id: nat)
    requires Unique(users) && LinkedTo(users, sub) == {id}
    ensures LinkedTo(Transaction(users, deletedSubjects, r).0, sub) == {id}
    ensures r.claims.sub == sub ==> Transaction(users, deletedSubjects, r).1 in {SignedIn(id), NoAccount}
  {
    hide Unique, WithContact, VerifiedAfter, NewEmail, NewPhone, CreatePlan;
    var after := Transaction(users, deletedSubjects, r).0;
    assert id in LinkedTo(users, sub);
    assert forall a :: a in users && users[a].logtoUserId == Some(sub) ==> a in LinkedTo(users, sub);
    if r.claims.sub == sub {
      assert TheOnly({id}) == id;
    } else {
      assert after.Keys >= users.Keys;
    }
  }

  /** A sign-in gives a live account that is linked to the subject from then on. */
  lemma SignInIsLinked(users: Users, deletedSubjects: set<string>, r: Request)
    requires Transaction(users, deletedSubjects, r).1.SignedIn?
    ensures var (after, outcome) := Transaction(users, deletedSubjects, r);
      && outcome.id in LinkedTo(after, r.claims.sub) && !after[outcome.id].deleted
      && r.claims.sub !in deletedSubjects
  {
    hide VerifiedAfter, NewEmail, NewPhone, Violates;
    match Decide(users, deletedSubjects, r)
    case Refuse =>
    case Conflict =>
    case Keep(i) => assert i in LinkedTo(users, r.claims.sub);
    case Link(i) => assert LinkedRow(users[i], r.claims).value.logtoUserId == Some(r.claims.sub);
    case Create(role, fallback) => assert NewRow(r.claims, role, fallback).logtoUserId == Some(r.claims.sub);
  }

  /** The stored email is the claimed one, which the provider has verified. */
  predicate EmailProven(u: User, c: Claims) {
    c.emailVerified && Given(c.email) && u.email.Some? && StoredEmail(u.email.value) == ClaimedEmail(c.email.value)
  }

  predicate PhoneProven(u: User, c: Claims) {
    c.phoneVerified && Given(c.phoneNumber) && u.phone == Some(Trim(c.phoneNumber.value))
  }

  /** An account that is there keeps everything but its link and its two
      verified flags; a flag is only raised, and only by a verified claim of the
      very contact; and a link goes to this subject, on a live unlinked account,
      and only by a verified contact: presence alone never links. */
  lemma OnlyProvenContactsLink(users: Users, deletedSubjects: set<string>, r: Request, id: nat)
    requires id in users
    ensures var after := Transaction(users, deletedSubjects, r).0; var u := users[id];
      && id in after
      && after[id] == u.(logtoUserId := after[id].logtoUserId, emailVerified := after[id].emailVerified,
                         phoneVerified := after[id].phoneVerified)
      && after[id].emailVerified == (u.emailVerified || (after[id] != u && EmailProven(u, r.claims)))
      && after[id].phoneVerified == (u.phoneVerified || (after[id] != u && PhoneProven(u, r.claims)))
      && (after[id].logtoUserId != u.logtoUserId ==>
            && u.logtoUserId.None? && after[id].logtoUserId == Some(r.claims.sub)
            && !u.deleted && (EmailProven(u, r.claims) || PhoneProven(u, r.claims)))
  {
    hide StoredEmail, Trim, Lower, Violates, NewRow;
    match Decide(users, deletedSubjects, r)
    case Refuse =>
    case Conflict =>
    case Keep(_) =>
    case Link(i) => assert i in Candidates(users, r.claims);
    case Create(_, _) =>
  }

  /** A new account is the caller's: linked to the subject, with contacts that no
      live account has. It is a student's or landlord's through the consumer
      portal; a staff role takes an invitation in the dedicated staff flow. */
  lemma StaffNeedsInvitation(users: Users, deletedSubjects: set<string>, r: Request, id: nat)
    requires id !in users && id in Transaction(users, deletedSubjects, r).0
    ensures var u := Transaction(users, deletedSubjects, r).0[id];
      && id == r.newId && u.logtoUserId == Some(r.claims.sub) && LinkedTo(users, r.claims.sub) == {}
      && WithContact(users, u.email, u.phone) == {}
      && (if r.portal.Consumer? then u.role == if r.intent.LandlordIntent? then "landlord" else "student"
          else r.intent.StaffIntent? && r.invitations != [] && LegacyRole(r.invitations[0].roleKey) == Some(u.role))
  {
    hide LegacyRole, Violates, NewEmail, NewPhone, Trim;
  }

  // ---- the service, statement by statement ---------------------------------------------------

  datatype Lookup = Row(id: nat) | NoRow | Thrown

  class ProvisioningService {
    var users: Users
    var deletedSubjects: set<string>

    ghost predicate Valid()
      reads this
    {
      Unique(users)
    }

    constructor ()
      ensures Valid() && users == map[] && deletedSubjects == {}
    {
      users := map[];
      deletedSubjects := {};
    }

    method ByLogtoId(sub: string) returns (row: Lookup)
      requires Valid()
      ensures row == if LinkedTo(users, sub) == {} then NoRow else Row(TheOnly(LinkedTo(users, sub)))
    {
      var rows := LinkedTo(users, sub);
      if rows == {} { return NoRow; }
      var id :| id in rows;
      assert forall a :: a in rows ==> a == id by {
        forall a | a in rows ensures a == id { assert a != id ==> !SameSubject(users[a], users[id]); }
      }
      row := Row(id);
    }

    /** Finds the one account a verified contact names and links it. */
    method FindAndLinkVerifiedCandidate(c: Claims) returns (row: Lookup)
      requires Valid() && LinkedTo(users, c.sub) == {}
      modifies this`users
      ensures var candidates := Candidates(old(users), c);
        && (candidates == {} ==> row == NoRow && users == old(users))
        && (|candidates| > 1 ==> row == Thrown && users == old(users))
        && (|candidates| == 1 ==>
              var u := old(users)[TheOnly(candidates)];
              if u.logtoUserId.Some? || LinkedRow(u, c).None? then row == Thrown && users == old(users)
              else row == Row(TheOnly(candidates)) && users == old(users)[TheOnly(candidates) := LinkedRow(u, c).value])
    {
      hide LinkedRow, HasContact, VerifiedEmail, VerifiedPhone;
      var email, phone := VerifiedEmail(c), VerifiedPhone(c);
      if !Given(email) && !Given(phone) { return NoRow; }
      var matches := WithContact(users, email, phone);
      if |matches| > 1 { return Thrown; }
      if matches == {} { return NoRow; }
      var id :| id in matches;
      OneElement(matches, id);
      var candidate := users[id];
      if candidate.logtoUserId.Some? && candidate.logtoUserId.value != c.sub { return Thrown; }
      assert id !in LinkedTo(users, c.sub);
      if candidate.logtoUserId == Some(c.sub) { assert false; }
      var linked := LinkedRow(candidate, c);
      if linked.None? { return Thrown; }
      users := users[id := linked.value];
      row := Row(id);
    }

    method CreateUser(c: Claims, role: string, nameFallback: Option<string>, newId: nat) returns (row: Lookup)
      modifies this`users
      ensures var (after, made) := CreateRow(old(users), c, role, nameFallback, newId);
        users == after && row == if made then Row(newId) else Thrown
    {
      hide NewRow, NewEmail, NewPhone, HasContact, Violates;
      if WithContact(users, NewEmail(c), NewPhone(c)) != {} { return Thrown; }
      var created := NewRow(c, role, nameFallback);
      if Violates(users, created) || newId in users { return Thrown; }
      users := users[newId := created];
      row := Row(newId);
    }

    /** `provision`, alone: the transaction's reads and writes in their order,
        undone when one of them throws. */
    method Provision(r: Request) returns (outcome: Outcome)
      requires Valid()
      modifies this`users
      ensures Valid()
      ensures (users, outcome) == Transaction(old(users), deletedSubjects, r)
    {
      hide NewRow, NewEmail, NewPhone, HasContact, Violates, LinkedRow, LegacyRole, VerifiedEmail, VerifiedPhone;
      hide Unique;
      ProvisionKeepsUnique(users, deletedSubjects, r);
      var saved := users;
      if r.claims.sub in deletedSubjects { return NoAccount; }
      var pending := PendingInvitations(r);
      var user := ByLogtoId(r.claims.sub);
      if user.Row? && users[user.id].deleted { return NoAccount; }
      if user.NoRow? {
        user := FindAndLinkVerifiedCandidate(r.claims);
      }
      if user.NoRow? && pending != [] {
        var role := LegacyRole(pending[0].roleKey);
        if role.None? { return NoAccount; }
        user := CreateUser(r.claims, role.value, pending[0].name, r.newId);
      }
      if user.NoRow? && r.portal.Staff? { return NoAccount; }
      if user.NoRow? {
        user := CreateUser(r.claims, if r.intent.LandlordIntent? then "landlord" else "student", None, r.newId);
      }
      if user.Thrown? {
        users := saved;
        return Failed;
      }
      outcome := if Eligible(user.id, users[user.id], r) then SignedIn(user.id) else NoAccount;
    }
  }

  /** The creation step: refused for a contact in use or a unique column. */
  function CreateRow(users: Users, c: Claims, role: string, nameFallback: Option<string>, newId: nat): (Users, bool) {
    var row := NewRow(c, role, nameFallback);
    if WithContact(users, NewEmail(c), NewPhone(c)) != {} || Violates(users, row) || newId in users then (users, false)
    else (users[newId := row], true)
  }
}
