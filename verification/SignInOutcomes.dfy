/** What a sign-in transaction comes to, in terms of the table and the claims:
    apps/api/src/modules/auth/provisioning.service.ts. */
module SignInOutcomes {
  import opened Collections
  import opened Text
  import opened OrderedMap
  import opened Provisioning

  // ---- who may sign in ---------------------------------------------------------------

  /** Whoever completes a transaction is signed in exactly with the live account
      linked to the subject, unless the subject is a deleted one: in the consumer
      portal if the account is active or pending, in the staff portal if it is
      active and holds a staff role. */
  lemma SignInIff(users: Users, deletedSubjects: set<string>, r: Request, id: nat)
    requires Unique(users)
    ensures var (after, outcome) := Transaction(users, deletedSubjects, r);
      outcome == SignedIn(id) <==>
        && outcome != Failed && r.claims.sub !in deletedSubjects
        && id in LinkedTo(after, r.claims.sub) && !after[id].deleted
        && (r.portal == Consumer ==> after[id].status == Active || after[id].status == Pending)
        && (r.portal == Staff ==> after[id].status == Active && id in r.staffMembers)
  {
    hide Unique, HasContact, LinkedRow, NewRow, CreatePlan, LegacyRole, Candidates;
    ProvisionKeepsUnique(users, deletedSubjects, r);
    var (after, outcome) := Transaction(users, deletedSubjects, r);
    var linked := LinkedTo(users, r.claims.sub);
    if outcome.SignedIn? { SignInIsLinked(users, deletedSubjects, r); }
    if id in LinkedTo(after, r.claims.sub) {
      match Decide(users, deletedSubjects, r)
      case Refuse => if linked != {} { OneSubject(after, r.claims.sub, id, TheOnly(linked)); }
      case Conflict =>
      case Keep(i) => OneSubject(after, r.claims.sub, id, i);
      case Link(i) =>
        if outcome != Failed {
          LinkedRowIsLinked(users[i], r.claims);
          OneSubject(after, r.claims.sub, id, i);
        }
      case Create(role, fallback) =>
        NewRowIsLinked(r.claims, role, fallback);
        if outcome != Failed { OneSubject(after, r.claims.sub, id, r.newId); }
    }
  }

  lemma OneSubject(users: Users, sub: string, a: nat, b: nat)
    requires Unique(users) && a in LinkedTo(users, sub) && b in LinkedTo(users, sub)
    ensures a == b
  {
    assert SameSubject(users[a], users[b]);
  }

  lemma LinkedRowIsLinked(u: User, c: Claims)
    ensures LinkedRow(u, c).Some? ==> LinkedRow(u, c).value.logtoUserId == Some(c.sub)
  {
  }

  lemma NewRowIsLinked(c: Claims, role: string, nameFallback: Option<string>)
    ensures NewRow(c, role, nameFallback).logtoUserId == Some(c.sub)
  {
  }

  // ---- which account is linked --------------------------------------------------------

  /** The claims prove a contact that is not blank. */
  predicate ProvesSomething(c: Claims) {
    || (c.emailVerified && c.email.Some? && Trim(c.email.value) != "")
    || (c.phoneVerified && c.phoneNumber.Some? && Trim(c.phoneNumber.value) != "")
  }

  /** The claims prove a contact of this live account. */
  predicate Names(c: Claims, u: User) {
    ProvesSomething(c) && !u.deleted && (EmailProven(u, c) || PhoneProven(u, c))
  }

  /** A contact is claimed verified without being given, so that the raised flag
      of an account that has such a contact would be NULL, which the column refuses. */
  predicate NullFlag(c: Claims, u: User) {
    || (c.emailVerified && !u.emailVerified && u.email.Some? && (c.email.None? || c.email.value == ""))
    || (c.phoneVerified && !u.phoneVerified && u.phone.Some? && (c.phoneNumber.None? || c.phoneNumber.value == ""))
  }

  lemma CandidateIff(users: Users, c: Claims, id: nat)
    ensures id in Candidates(users, c) <==> id in users && Names(c, users[id])
  {
    hide StoredEmail, Trim, Lower;
    if c.email.Some? { BlankEmail(c.email.value); }
    assert Trim("") == "" by { BlankTrim(); }
  }

  lemma BlankTrim()
    ensures Trim("") == ""
  {
  }

  lemma BlankEmail(s: string)
    ensures ClaimedEmail(s) == "" <==> Trim(s) == ""
  {
    assert |Lower(Trim(s))| == |Trim(s)|;
  }

  lemma LinkedRowIff(u: User, c: Claims)
    ensures LinkedRow(u, c).Some? <==> !NullFlag(c, u)
  {
    hide StoredEmail, Trim, Lower;
  }

  /** An unlinked account gets the subject exactly when the subject is no deleted
      one and has no account, and this is the only live account that the verified
      contacts name; and no flag of it would become NULL. */
  lemma LinksIff(users: Users, deletedSubjects: set<string>, r: Request, id: nat)
    requires id in users && users[id].logtoUserId.None?
    ensures var after := Transaction(users, deletedSubjects, r).0;
      id in after && (after[id].logtoUserId == Some(r.claims.sub) <==>
        && r.claims.sub !in deletedSubjects && LinkedTo(users, r.claims.sub) == {}
        && (forall a :: a in users ==> (Names(r.claims, users[a]) <==> a == id))
        && !NullFlag(r.claims, users[id]))
  {
    hide HasContact, WithContact, NewRow, LegacyRole, Candidates, Names, NullFlag, LinkedRow;
    var c := r.claims;
    var candidates := Candidates(users, c);
    forall a | a in users ensures a in candidates <==> Names(c, users[a]) { CandidateIff(users, c, a); }
    assert candidates <= users.Keys by { CandidatesAreUsers(users, c); }
    LinkedRowIff(users[id], c);
    LinkedRowIsLinked(users[id], c);
    OnlyIs(candidates, id);
    assert candidates == {id} <==> forall a :: a in users ==> (Names(c, users[a]) <==> a == id) by {
      ExactlyIs(candidates, users.Keys, id);
    }
    match Decide(users, deletedSubjects, r)
    case Refuse =>
    case Conflict =>
    case Keep(_) =>
    case Link(i) =>
      assert i == TheOnly(candidates) && |candidates| == 1;
      LinkWrites(users, i, r);
    case Create(role, fallback) =>
  }

  lemma LinkWrites(users: Users, id: nat, r: Request)
    requires id in users && users[id].logtoUserId.None?
    ensures Apply(users, Link(id), r).0 ==
      if LinkedRow(users[id], r.claims).None? then users else users[id := LinkedRow(users[id], r.claims).value]
  {
    hide LinkedRow;
  }

  lemma CandidatesAreUsers(users: Users, c: Claims)
    ensures Candidates(users, c) <= users.Keys
  {
  }

  lemma ExactlyIs(s: set<nat>, all: set<nat>, x: nat)
    requires s <= all && x in all
    ensures s == {x} <==> forall a :: a in all ==> (a in s <==> a == x)
  {
    if forall a :: a in all ==> (a in s <==> a == x) {
      forall a ensures a in s <==> a == x {}
    }
  }

  lemma OnlyIs(s: set<nat>, x: nat)
    ensures s == {x} <==> |s| == 1 && s != {} && TheOnly(s) == x
    ensures s == {} <==> |s| == 0
  {
    if |s| == 1 {
      OneElement(s, TheOnly(s));
    }
  }

  // ---- when an account is made -----------------------------------------------------------

  /** The staff key of an invitation and the legacy role the new account gets. */
  predicate StaffRole(key: string, role: string) {
    || (role == key && key in {"ops_lead", "ops_inspector"})
    || (role == "admin" && key in {"super_admin", "platform_admin", "finance_admin", "support_admin", "auditor",
          "director", "general_manager", "office_admin"})
  }

  /** The caller may be given an account with this role. */
  predicate MayBecome(r: Request, role: string) {
    match r.portal
    case Consumer => role == if r.intent == LandlordIntent then "landlord" else "student"
    case Staff => r.intent == StaffIntent && r.invitations != [] && StaffRole(r.invitations[0].roleKey, role)
  }

  /** A live account has the claimed contact, or some account, a deleted one too, has its very text or the subject. */
  predicate Taken(c: Claims, u: User) {
    || (c.email.Some? && Trim(c.email.value) != "" && u.email.Some?
          && (u.email.value == Lower(Trim(c.email.value))
              || (!u.deleted && StoredEmail(u.email.value) == Lower(Trim(c.email.value)))))
    || (c.phoneNumber.Some? && Trim(c.phoneNumber.value) != "" && u.phone == Some(Trim(c.phoneNumber.value)))
    || u.logtoUserId == Some(c.sub)
  }

  lemma LegacyRoleIs(key: string, role: string)
    ensures LegacyRole(key) == Some(role) <==> StaffRole(key, role)
  {
  }

  lemma TakenIff(users: Users, c: Claims, role: string, nameFallback: Option<string>)
    ensures WithContact(users, NewEmail(c), NewPhone(c)) == {} && !Violates(users, NewRow(c, role, nameFallback)) <==>
      forall a :: a in users ==> !Taken(c, users[a])
  {
    hide StoredEmail, Trim, Lower;
    if c.email.Some? { BlankEmail(c.email.value); }
    var row := NewRow(c, role, nameFallback);
    var found := WithContact(users, NewEmail(c), NewPhone(c));
    forall a | a in users ensures a in found ==> Taken(c, users[a]) {}
    if forall a :: a in users ==> !Taken(c, users[a]) {
      assert found == {};
      assert !Violates(users, row);
    } else {
      var a :| a in users && Taken(c, users[a]);
      assert a in found || Violates(users, row);
    }
  }

  /** An account is made exactly for a subject that is no deleted one, has none,
      and names none by a verified contact, when the caller may have one and
      nothing of the claims is taken. */
  lemma CreatesIff(users: Users, deletedSubjects: set<string>, r: Request, id: nat)
    requires id !in users
    ensures var after := Transaction(users, deletedSubjects, r).0;
      id in after <==>
        && id == r.newId && r.claims.sub !in deletedSubjects
        && (exists role :: MayBecome(r, role))
        && (forall a :: a in users ==> !Names(r.claims, users[a]) && !Taken(r.claims, users[a]))
  {
    hide HasContact, NewRow, Candidates, Names, LegacyRole, WithContact, Violates, LinkedRow, StaffRole, Taken;
    var c := r.claims;
    var candidates := Candidates(users, c);
    forall a | a in users ensures a in candidates <==> Names(c, users[a]) { CandidateIff(users, c, a); }
    CandidatesAreUsers(users, c);
    assert candidates == {} <==> forall a :: a in users ==> !Names(c, users[a]);
    OnlyIs(candidates, 0);
    if PendingInvitations(r) != [] {
      var key := r.invitations[0].roleKey;
      forall role ensures LegacyRole(key) == Some(role) <==> StaffRole(key, role) { LegacyRoleIs(key, role); }
      if LegacyRole(key).Some? {
        assert MayBecome(r, LegacyRole(key).value);
        TakenIff(users, c, LegacyRole(key).value, r.invitations[0].name);
      } else {
        forall role ensures !MayBecome(r, role) { LegacyRoleIs(key, role); }
      }
    } else if r.portal == Consumer {
      var role := if r.intent == LandlordIntent then "landlord" else "student";
      assert MayBecome(r, role);
      TakenIff(users, c, role, None);
    }
    if LinkedTo(users, c.sub) != {} { SubjectIsTaken(users, c, TheOnly(LinkedTo(users, c.sub))); }
  }

  lemma SubjectIsTaken(users: Users, c: Claims, id: nat)
    requires id in LinkedTo(users, c.sub)
    ensures Taken(c, users[id])
  {
  }

  /** The account made is the claims, normalised: a blank contact is none, a blank
      name is the inviter's, it is active, and a contact is as verified as claimed. */
  lemma CreatedRow(users: Users, deletedSubjects: set<string>, r: Request, id: nat)
    requires id !in users && id in Transaction(users, deletedSubjects, r).0
    ensures var u := Transaction(users, deletedSubjects, r).0[id]; var c := r.claims;
      && u.logtoUserId == Some(c.sub) && u.status == Active && !u.deleted && MayBecome(r, u.role)
      && (u.email.Some? <==> c.email.Some? && Trim(c.email.value) != "")
      && (u.email.Some? ==> u.email.value == Lower(Trim(c.email.value)))
      && (u.phone.Some? <==> c.phoneNumber.Some? && Trim(c.phoneNumber.value) != "")
      && (u.phone.Some? ==> u.phone.value == Trim(c.phoneNumber.value))
      && u.emailVerified == c.emailVerified && u.phoneVerified == c.phoneVerified
      && (c.name.Some? && Trim(c.name.value) != "" ==> u.name == Trim(c.name.value))
      && (c.name.None? || Trim(c.name.value) == "" ==>
            u.name ==
              if r.portal == Staff && r.invitations[0].name.Some? then Trim(r.invitations[0].name.value) else "")
  {
    hide StoredEmail, Trim, Lower, Violates, WithContact, LegacyRole, StaffRole, Candidates;
    var c := r.claims;
    if c.email.Some? { BlankEmail(c.email.value); }
    if PendingInvitations(r) != [] {
      var key := r.invitations[0].roleKey;
      if LegacyRole(key).Some? { LegacyRoleIs(key, LegacyRole(key).value); }
    }
  }

  // ---- when it fails -----------------------------------------------------------------------

  /** A transaction fails exactly when the subject is new and either its verified
      contacts name several accounts, another subject's or one whose flag would
      become NULL, or an account it may have cannot be made. */
  lemma FailsIff(users: Users, deletedSubjects: set<string>, r: Request)
    requires r.newId !in users
    ensures Transaction(users, deletedSubjects, r).1 == Failed <==>
      && r.claims.sub !in deletedSubjects && LinkedTo(users, r.claims.sub) == {}
      && ((exists a, b :: a in users && b in users && a != b && Names(r.claims, users[a]) && Names(r.claims, users[b]))
          || (exists a :: a in users && Names(r.claims, users[a])
                && (users[a].logtoUserId.Some? || NullFlag(r.claims, users[a])))
          || ((forall a :: a in users ==> !Names(r.claims, users[a]))
              && (exists role :: MayBecome(r, role)) && (exists a :: a in users && Taken(r.claims, users[a]))))
  {
    hide HasContact, NewRow, Candidates, Names, LegacyRole, LinkedRow, StaffRole, Taken, NullFlag;
    var c := r.claims;
    var candidates := Candidates(users, c);
    forall a | a in users ensures a in candidates <==> Names(c, users[a]) { CandidateIff(users, c, a); }
    CandidatesAreUsers(users, c);
    SeveralIff(candidates);
    OnlyIs(candidates, 0);
    if |candidates| == 1 {
      var a := TheOnly(candidates);
      OnlyIs(candidates, a);
      assert candidates == {a};
      LinkedRowIff(users[a], c);
    } else if candidates == {} {
      if LinkedTo(users, c.sub) == {} { NewAccountFails(users, r); }
    }
  }

  lemma SeveralIff(s: set<nat>)
    ensures |s| > 1 <==> exists a, b :: a in s && b in s && a != b
  {
    if |s| > 1 {
      var a :| a in s;
      assert |s - {a}| > 0;
      var b :| b in s - {a};
    }
    if a, b :| a in s && b in s && a != b {
      assert {a, b} <= s;
      SubsetSize({a, b}, s);
    }
  }

  lemma SubsetSize(s: set<nat>, t: set<nat>)
    requires s <= t
    ensures |s| <= |t|
  {
    assert t == s + (t - s);
  }

  lemma NewAccountFails(users: Users, r: Request)
    requires r.newId !in users && LinkedTo(users, r.claims.sub) == {}
    ensures Apply(users, NewAccountPlan(users, r), r).1 == Failed <==>
      (exists role :: MayBecome(r, role)) && exists a :: a in users && Taken(r.claims, users[a])
  {
    hide HasContact, NewRow, LegacyRole, StaffRole, Taken, WithContact, Violates;
    var c := r.claims;
    if PendingInvitations(r) != [] {
      var key := r.invitations[0].roleKey;
      if LegacyRole(key).Some? {
        LegacyRoleIs(key, LegacyRole(key).value);
        assert MayBecome(r, LegacyRole(key).value);
        TakenIff(users, c, LegacyRole(key).value, r.invitations[0].name);
      } else {
        forall role ensures !MayBecome(r, role) { LegacyRoleIs(key, role); }
      }
    } else if r.portal == Consumer {
      var role := if r.intent == LandlordIntent then "landlord" else "student";
      assert MayBecome(r, role);
      TakenIff(users, c, role, None);
    }
  }
}
