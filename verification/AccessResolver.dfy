/** What an account may enter: apps/api/src/modules/auth/access-resolver.ts.
    A list of roles is only ever searched, so it is kept as a set. */
module AccessResolver {
  import opened OrderedMap

  datatype Workspace = Student | Landlord | Management | Ops | Admin

  /** `authenticatedAt` is a time the provider gave that could be read. */
  datatype Assurance = Assurance(authenticatedAt: Option<int>, mfaVerified: bool)

  datatype Identity = Identity(
    role: string, hasStudent: bool, hasLandlord: bool, activeRoles: set<string>, historicalRoles: set<string>)

  datatype AccountAccess = AccountAccess(
    roles: set<string>, workspaces: seq<Workspace>, onboardingStudent: bool, onboardingLandlord: bool,
    assurance: Assurance)

  // ---- the program --------------------------------------------------------------------

  const STAFF_ROLE_TO_DB_ROLE: map<string, string> := map[
    "super_admin" := "admin", "platform_admin" := "admin", "finance_admin" := "admin",
    "support_admin" := "admin", "auditor" := "admin", "ops_lead" := "ops_lead", "ops_inspector" := "ops_inspector",
    "director" := "admin", "general_manager" := "admin", "office_admin" := "admin"]

  const CONSUMER_ROLES := ["student", "landlord", "custodian", "property_worker", "property_manager"]

  function MappedRole(key: string): Option<string> {
    if key in STAFF_ROLE_TO_DB_ROLE then Some(STAFF_ROLE_TO_DB_ROLE[key])
    else if key in CONSUMER_ROLES then Some(key)
    else None
  }

  function EffectiveRoles(keys: set<string>): set<string> {
    set key | key in keys && MappedRole(key).Some? :: MappedRole(key).value
  }

  function NormalizeAssurance(assurance: Option<Assurance>, now: int): (r: Assurance)
    ensures r.mfaVerified ==> r.authenticatedAt.Some? && r.authenticatedAt.value <= now
  {
    var time := if assurance.Some? then assurance.value.authenticatedAt else None;
    var known := time.Some? && time.value <= now;
    Assurance(if known then time else None, known && assurance.value.mfaVerified)
  }

  method GrantRoles(identity: Identity) returns (roles: set<string>)
    ensures roles == Granted(identity)
  {
    roles := identity.activeRoles;
    var keys := ["student", "landlord"];
    for i := 0 to |keys|
      invariant roles == identity.activeRoles + set k | k in keys[..i] && Legacy(identity, k)
    {
      var profile := if keys[i] == "student" then identity.hasStudent else identity.hasLandlord;
      if keys[i] !in identity.historicalRoles && (identity.role == keys[i] || profile) {
        roles := roles + {keys[i]};
      }
      assert keys[..i + 1] == keys[..i] + [keys[i]];
    }
    assert keys[..|keys|] == keys;
  }

  method OpenWorkspaces(roles: set<string>) returns (workspaces: seq<Workspace>)
    ensures workspaces == AllListed(roles)
  {
    hide MappedRole, EffectiveRoles, Opens;
    var mapped := EffectiveRoles(roles);
    MappedGrants(roles);
    workspaces := [];
    if "student" in mapped { workspaces := workspaces + [Student]; }
    if "landlord" in mapped || "custodian" in mapped || "property_worker" in mapped {
      workspaces := workspaces + [Landlord];
    }
    if "property_manager" in mapped { workspaces := workspaces + [Management]; }
    if "ops_lead" in mapped || "ops_inspector" in mapped { workspaces := workspaces + [Ops]; }
    if "admin" in mapped { workspaces := workspaces + [Admin]; }
  }

  method ResolveAccess(identity: Identity, assurance: Option<Assurance>, now: int) returns (access: AccountAccess)
    ensures access == Access(identity, assurance, now)
  {
    hide Granted, AllListed, NormalizeAssurance, EffectiveRoles;
    var roles := GrantRoles(identity);
    var workspaces := OpenWorkspaces(roles);
    var mapped := EffectiveRoles(roles);
    MappedGrants(roles);
    access := AccountAccess(roles, workspaces, "student" in mapped && !identity.hasStudent,
                            "landlord" in mapped && !identity.hasLandlord, NormalizeAssurance(assurance, now));
  }

  // ---- what it grants -----------------------------------------------------------------

  /** A consumer row from before there were assignments. */
  predicate Legacy(identity: Identity, key: string) {
    && key in ["student", "landlord"]
    && key !in identity.historicalRoles
    && (identity.role == key || if key == "student" then identity.hasStudent else identity.hasLandlord)
  }

  /** The roles that open a workspace. */
  function Opens(w: Workspace): set<string> {
    match w
    case Student => {"student"}
    case Landlord => {"landlord", "custodian", "property_worker"}
    case Management => {"property_manager"}
    case Ops => {"ops_lead", "ops_inspector"}
    case Admin => {"super_admin", "platform_admin", "finance_admin", "support_admin", "auditor",
      "director", "general_manager", "office_admin"}
  }

  function Granted(identity: Identity): set<string> {
    identity.activeRoles + set k | k in ["student", "landlord"] && Legacy(identity, k)
  }

  function Listed(roles: set<string>, w: Workspace): seq<Workspace> {
    if roles !! Opens(w) then [] else [w]
  }

  function AllListed(roles: set<string>): seq<Workspace> {
    Listed(roles, Student) + Listed(roles, Landlord) + Listed(roles, Management)
    + Listed(roles, Ops) + Listed(roles, Admin)
  }

  function Access(identity: Identity, assurance: Option<Assurance>, now: int): AccountAccess {
    var roles := Granted(identity);
    AccountAccess(roles, AllListed(roles),
      "student" in roles && !identity.hasStudent,
      "landlord" in roles && !identity.hasLandlord,
      NormalizeAssurance(assurance, now))
  }

  /** Mapping the roles first asks the same as looking for the roles that open a workspace. */
  lemma MappedGrants(roles: set<string>)
    ensures var mapped := EffectiveRoles(roles);
      && ("student" in mapped <==> "student" in roles)
      && ("landlord" in mapped <==> "landlord" in roles)
      && ("student" in mapped <==> !(roles !! Opens(Student)))
      && ("landlord" in mapped || "custodian" in mapped || "property_worker" in mapped <==> !(roles !! Opens(Landlord)))
      && ("property_manager" in mapped <==> !(roles !! Opens(Management)))
      && ("ops_lead" in mapped || "ops_inspector" in mapped <==> !(roles !! Opens(Ops)))
      && ("admin" in mapped <==> !(roles !! Opens(Admin)))
  {
    ConsumersMapToThemselves(roles, "student");
    ConsumersMapToThemselves(roles, "landlord");
    ConsumersMapToThemselves(roles, "custodian");
    ConsumersMapToThemselves(roles, "property_worker");
    ConsumersMapToThemselves(roles, "property_manager");
    OpsAndAdmins(roles);
    hide MappedRole, EffectiveRoles;
  }

  lemma ConsumersMapToThemselves(roles: set<string>, key: string)
    requires key in CONSUMER_ROLES
    ensures key in EffectiveRoles(roles) <==> key in roles
  {
  }

  lemma OpsAndAdmins(roles: set<string>)
    ensures "ops_lead" in EffectiveRoles(roles) <==> "ops_lead" in roles
    ensures "ops_inspector" in EffectiveRoles(roles) <==> "ops_inspector" in roles
    ensures "admin" in EffectiveRoles(roles) <==> !(roles !! Opens(Admin))
  {
    assert "admin" !in CONSUMER_ROLES;
  }

  /** A workspace is open exactly to an active role that opens it, or to a
      consumer row without any assignment history: an expired or revoked grant
      never comes back. */
  lemma OpenIffGranted(identity: Identity, assurance: Option<Assurance>, now: int, w: Workspace)
    ensures w in Access(identity, assurance, now).workspaces <==>
      exists key :: key in Opens(w) && (key in identity.activeRoles || Legacy(identity, key))
  {
    hide Legacy, NormalizeAssurance;
    var roles := Granted(identity);
    assert w in Access(identity, assurance, now).workspaces <==> !(roles !! Opens(w)) by { ListedIff(roles, w); }
    forall key ensures key in roles <==> key in identity.activeRoles || Legacy(identity, key) {
      LegacyKeys(identity, key);
    }
    if key :| key in Opens(w) && (key in identity.activeRoles || Legacy(identity, key)) {
      assert key in roles * Opens(w);
    }
    if key :| key in roles * Opens(w) {
      assert key in Opens(w);
    }
  }

  /** Written out in the fields of the account: who enters, who is to be
      onboarded, and what counts as a second factor. */
  lemma AccessInFields(identity: Identity, assurance: Option<Assurance>, now: int)
    ensures var access := Access(identity, assurance, now);
      var student := "student" in identity.activeRoles
        || ("student" !in identity.historicalRoles && (identity.role == "student" || identity.hasStudent));
      var landlord := "landlord" in identity.activeRoles
        || ("landlord" !in identity.historicalRoles && (identity.role == "landlord" || identity.hasLandlord));
      && (Student in access.workspaces <==> student)
      && (Landlord in access.workspaces <==>
            landlord || "custodian" in identity.activeRoles || "property_worker" in identity.activeRoles)
      && (access.onboardingStudent <==> student && !identity.hasStudent)
      && (access.onboardingLandlord <==> landlord && !identity.hasLandlord)
      && (access.assurance.mfaVerified <==>
            assurance.Some? && assurance.value.mfaVerified
            && assurance.value.authenticatedAt.Some? && assurance.value.authenticatedAt.value <= now)
      && (forall at :: access.assurance.authenticatedAt == Some(at) <==>
            at <= now && assurance.Some? && assurance.value.authenticatedAt == Some(at))
  {
    OpenIffGranted(identity, assurance, now, Student);
    OpenIffGranted(identity, assurance, now, Landlord);
    hide AllListed;
    assert "student" in Opens(Student);
    assert "landlord" in Opens(Landlord) && "custodian" in Opens(Landlord) && "property_worker" in Opens(Landlord);
  }

  /** The staff workspaces take an active staff role; consumer rows do not count. */
  lemma StaffNeedActiveRole(identity: Identity, assurance: Option<Assurance>, now: int)
    ensures var access := Access(identity, assurance, now);
      && (Management in access.workspaces <==> "property_manager" in identity.activeRoles)
      && (Ops in access.workspaces <==>
            "ops_lead" in identity.activeRoles || "ops_inspector" in identity.activeRoles)
      && (Admin in access.workspaces <==> exists key :: key in identity.activeRoles && key in {
            "super_admin", "platform_admin", "finance_admin", "support_admin", "auditor",
            "director", "general_manager", "office_admin"})
  {
    OpenIffGranted(identity, assurance, now, Management);
    OpenIffGranted(identity, assurance, now, Ops);
    OpenIffGranted(identity, assurance, now, Admin);
    hide AllListed;
    assert "property_manager" in Opens(Management) && "ops_lead" in Opens(Ops) && "ops_inspector" in Opens(Ops);
    forall key ensures Legacy(identity, key) ==> key !in Opens(Management) + Opens(Ops) + Opens(Admin) {}
  }

  lemma LegacyKeys(identity: Identity, key: string)
    ensures Legacy(identity, key) ==> key in ["student", "landlord"]
  {
  }

  lemma ListedIff(roles: set<string>, w: Workspace)
    ensures w in AllListed(roles) <==> !(roles !! Opens(w))
  {
    hide Opens;
  }

  predicate IsPropertyTeamAccount(access: AccountAccess) {
    "landlord" !in access.roles && ("custodian" in access.roles || "property_worker" in access.roles)
  }

  /** What the redirects rely on: only owners are sent to onboarding, no
      workspace is listed twice, and second-factor evidence is dated. */
  lemma AccessKeepsRedirectsSafe(identity: Identity, assurance: Option<Assurance>, now: int)
    ensures var access := Access(identity, assurance, now);
      && (access.onboardingLandlord ==> !IsPropertyTeamAccount(access) && Landlord in access.workspaces)
      && (forall i, j :: 0 <= i < j < |access.workspaces| ==> access.workspaces[i] != access.workspaces[j])
      && (access.assurance.mfaVerified ==>
            access.assurance.authenticatedAt.Some? && access.assurance.authenticatedAt.value <= now)
  {
    hide Legacy, NormalizeAssurance, Opens;
    var access := Access(identity, assurance, now);
    if access.onboardingLandlord { OwnerOpensLandlord(access.roles); }
  }

  lemma OwnerOpensLandlord(roles: set<string>)
    requires "landlord" in roles
    ensures !(roles !! Opens(Landlord))
  {
    assert "landlord" in roles * Opens(Landlord);
  }
}
