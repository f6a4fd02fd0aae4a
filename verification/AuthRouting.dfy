/** Where a signed-in visitor is sent: apps/web/src/lib/auth-routing.ts.
    A destination is a normalised path with its query and fragment, on which
    `safeAuthDestination` is the identity; None is a text it refuses. */
module AuthRouting {
  import opened AccessResolver
  import opened Collections
  import opened OrderedMap

  /** `Asking` is a page with the encoded destination in its `next` parameter. */
  datatype Destination = At(path: string, rest: string) | Asking(page: string, next: Destination)

  function Path(d: Destination): string {
    if d.At? then d.path else d.page
  }

  datatype RoutingSession = RoutingSession(status: string, access: AccountAccess)

  // ---- the program ----------------------------------------------------------------------

  predicate Within(path: string, root: string) {
    path == root || root + "/" <= path
  }

  predicate WithinAny(path: string, roots: seq<string>) {
    exists i :: 0 <= i < |roots| && Within(path, roots[i])
  }

  const STUDENT_ROOTS := [
    "/dashboard", "/profile", "/reservations", "/messages", "/saved", "/recently-viewed", "/calendar", "/agreement"]

  function WorkspaceForPath(path: string): Option<Workspace> {
    if Within(path, "/landlord") then Some(Landlord)
    else if Within(path, "/management") then Some(Management)
    else if Within(path, "/ops") then Some(Ops)
    else if Within(path, "/admin") then Some(Admin)
    else if WithinAny(path, STUDENT_ROOTS) then Some(Student)
    else None
  }

  const PUBLIC_PAGES := [
    "/", "/search", "/how-it-works", "/support", "/contact", "/faqs", "/safety", "/landlords", "/landlords/enroll"]

  function AuthorizedNext(access: AccountAccess, raw: Option<Destination>): Option<Destination> {
    if raw.None? then None
    else
      var path := Path(raw.value);
      if '%' in path then None
      else
        var workspace := WorkspaceForPath(path);
        if workspace.Some? then (if workspace.value in access.workspaces then raw else None)
        else if path in PUBLIC_PAGES || Within(path, "/listings") then raw
        else None
  }

  function DefaultHome(w: Workspace): string {
    match w
    case Student => "/"
    case Landlord => "/landlord"
    case Management => "/management"
    case Ops => "/ops"
    case Admin => "/admin"
  }

  function WorkspaceHome(access: AccountAccess, w: Workspace): string {
    if w == Landlord && IsPropertyTeamAccount(access) then "/landlord/team"
    else if w != Admin then DefaultHome(w)
    else if "super_admin" in access.roles || "platform_admin" in access.roles then "/admin"
    else if "director" in access.roles || "general_manager" in access.roles then "/admin/leadership"
    else if "office_admin" in access.roles then "/admin/front-desk"
    else if "finance_admin" in access.roles then "/admin/finance"
    else if "support_admin" in access.roles then "/admin/inquiries"
    else if "auditor" in access.roles then "/admin/audit-log"
    else "/admin"
  }

  function Page(path: string): Destination {
    At(path, "")
  }

  function WorkspaceDestination(access: AccountAccess, w: Workspace, next: Destination): Destination {
    if w !in access.workspaces then Page("/access-required")
    else if (w == Ops || w == Admin) && !access.assurance.mfaVerified then Asking("/mfa-required", next)
    else if w == Landlord && IsPropertyTeamAccount(access) && Path(next) != "/landlord/team" then Page("/landlord/team")
    else if w == Landlord && access.onboardingLandlord then Page("/landlord/onboarding")
    else next
  }

  function AuthDestination(session: RoutingSession, raw: Option<Destination>): Destination {
    if session.status != "active" then Page("/account-pending")
    else
      var access := session.access;
      var next := AuthorizedNext(access, raw);
      if next.Some? then
        var workspace := WorkspaceForPath(Path(next.value));
        if workspace.Some? then WorkspaceDestination(access, workspace.value, next.value) else next.value
      else
        var workspaces := set w | w in access.workspaces;
        if workspaces == {} then Page("/access-required")
        else if |workspaces| == 1 then
          WorkspaceDestination(access, access.workspaces[0], Page(WorkspaceHome(access, access.workspaces[0])))
        else Page("/choose-workspace")
  }

  /** None lets the page render; a destination redirects. */
  function WorkspaceGuard(session: Option<RoutingSession>, w: Workspace, requested: Option<Destination>)
    : Option<Destination>
  {
    var next := if requested.Some? then requested.value else Page(DefaultHome(w));
    if session.None? then Some(Asking("/sign-in", next))
    else if session.value.status != "active" then Some(Page("/account-pending"))
    else if w !in session.value.access.workspaces then Some(Page("/access-required"))
    else
      var destination := WorkspaceDestination(session.value.access, w, next);
      if destination == Page("/landlord/onboarding") && Path(next) == "/landlord/onboarding" then None
      else if destination == next then None
      else Some(destination)
  }

  // ---- which pages lie in which workspace --------------------------------------------------

  /** Outside every workspace there is no guard; inside, the guard lets the page render. */
  predicate Settled(session: Option<RoutingSession>, d: Destination) {
    var workspace := WorkspaceForPath(Path(d));
    workspace.None? || WorkspaceGuard(session, workspace.value, Some(d)).None?
  }

  lemma SecondLetter(path: string, root: string)
    requires |root| >= 2 && Within(path, root)
    ensures |path| >= |root| && path[1] == root[1] && (|path| > |root| ==> path[|root|] == '/')
  {
    if path != root {
      assert (root + "/")[1] == path[1] && (root + "/")[|root|] == path[|root|];
    }
  }

  lemma NotWithin(path: string, root: string)
    requires path != root && (|path| > |root| ==> path[|root|] != '/')
    ensures !Within(path, root)
  {
    assert (root + "/")[|root|] == '/';
  }

  lemma PageOutside(path: string)
    requires path in ["/account-pending", "/access-required", "/choose-workspace", "/mfa-required", "/sign-in", "/"]
    ensures WorkspaceForPath(path).None?
  {
    hide Within;
    NotWithin(path, "/landlord");
    NotWithin(path, "/management");
    NotWithin(path, "/ops");
    NotWithin(path, "/admin");
    forall i | 0 <= i < |STUDENT_ROOTS| ensures !Within(path, STUDENT_ROOTS[i]) {
      NotWithin(path, STUDENT_ROOTS[i]);
    }
  }

  lemma LandlordPages()
    ensures WorkspaceForPath("/landlord/team") == Some(Landlord) == WorkspaceForPath("/landlord/onboarding")
  {
    assert "/landlord/" <= "/landlord/team" && "/landlord/" <= "/landlord/onboarding";
  }

  lemma HomeIsInside(access: AccountAccess, w: Workspace)
    ensures WorkspaceForPath(WorkspaceHome(access, w)) == if w == Student then None else Some(w)
  {
    var home := WorkspaceHome(access, w);
    var root := DefaultHome(w);
    if w == Student {
      PageOutside("/");
    } else {
      assert home == root || root + "/" <= home;
      assert Within(home, root);
      if w != Landlord && Within(home, "/landlord") { SecondLetter(home, "/landlord"); }
      if w != Management && Within(home, "/management") { SecondLetter(home, "/management"); }
      if w == Admin && Within(home, "/ops") { SecondLetter(home, "/ops"); }
    }
  }

  // ---- no redirect loops ---------------------------------------------------------------------

  /** A landlord account that is both a property team's and still to be onboarded;
      no account resolves to one. */
  predicate Torn(access: AccountAccess) {
    Landlord in access.workspaces && access.onboardingLandlord && IsPropertyTeamAccount(access)
  }

  /** What a workspace sends its visitor to is settled. */
  lemma DestinationSettles(session: RoutingSession, w: Workspace, next: Destination)
    requires session.status == "active" && !Torn(session.access)
    requires WorkspaceForPath(Path(next)) in {None, Some(w)}
    ensures Settled(Some(session), WorkspaceDestination(session.access, w, next))
  {
    hide WorkspaceForPath, IsPropertyTeamAccount;
    LandlordPages();
    PageOutside("/access-required");
    PageOutside("/mfa-required");
  }

  /** Signing in ends on a page that renders: after `authDestination` no guard redirects again. */
  lemma SignInSettles(session: RoutingSession, raw: Option<Destination>)
    requires !Torn(session.access)
    ensures Settled(Some(session), AuthDestination(session, raw))
  {
    hide WorkspaceForPath, WorkspaceDestination, WorkspaceHome, Torn;
    PageOutside("/account-pending");
    PageOutside("/access-required");
    PageOutside("/choose-workspace");
    var access := session.access;
    if session.status == "active" {
      var next := AuthorizedNext(access, raw);
      if next.Some? {
        var workspace := WorkspaceForPath(Path(next.value));
        if workspace.Some? { DestinationSettles(session, workspace.value, next.value); }
      } else if access.workspaces != [] {
        var w := access.workspaces[0];
        HomeIsInside(access, w);
        DestinationSettles(session, w, Page(WorkspaceHome(access, w)));
      }
      assert (set w | w in access.workspaces) != {} ==> access.workspaces != [];
    }
  }

  lemma OutsideSettles(session: Option<RoutingSession>, d: Destination)
    requires Path(d) in ["/account-pending", "/access-required", "/mfa-required", "/sign-in"]
    ensures Settled(session, d)
  {
    hide WorkspaceForPath, WorkspaceGuard;
    PageOutside(Path(d));
  }

  lemma LandlordPageSettles(session: RoutingSession)
    requires session.status == "active" && Landlord in session.access.workspaces && !Torn(session.access)
    ensures IsPropertyTeamAccount(session.access) ==> Settled(Some(session), Page("/landlord/team"))
    ensures session.access.onboardingLandlord ==> Settled(Some(session), Page("/landlord/onboarding"))
  {
    hide WorkspaceForPath, IsPropertyTeamAccount;
    LandlordPages();
  }

  /** A guard redirects at most once: the page it sends to is settled, whatever
      page of whatever workspace was asked for. */
  lemma GuardSettles(session: Option<RoutingSession>, w: Workspace, requested: Option<Destination>)
    requires session.Some? ==> !Torn(session.value.access)
    requires WorkspaceGuard(session, w, requested).Some?
    ensures Settled(session, WorkspaceGuard(session, w, requested).value)
  {
    hide WorkspaceForPath, IsPropertyTeamAccount, Settled, Torn;
    var d := WorkspaceGuard(session, w, requested).value;
    if Path(d) in ["/account-pending", "/access-required", "/mfa-required", "/sign-in"] {
      OutsideSettles(session, d);
    } else {
      LandlordPageSettles(session.value);
    }
  }

  /** For an account that is torn the two landlord redirects chase each other for ever. */
  lemma TornLoops(session: RoutingSession)
    requires session.status == "active" && Torn(session.access)
    ensures WorkspaceGuard(Some(session), Landlord, Some(Page("/landlord/team"))) == Some(Page("/landlord/onboarding"))
    ensures WorkspaceGuard(Some(session), Landlord, Some(Page("/landlord/onboarding"))) == Some(Page("/landlord/team"))
  {
  }

  /** Every redirect is settled exactly when the account is not torn, so for
      every account the API resolves. */
  lemma NoRedirectLoopsIff(session: RoutingSession)
    requires session.status == "active"
    ensures !Torn(session.access) <==>
      forall w, requested :: WorkspaceGuard(Some(session), w, requested).Some? ==>
        Settled(Some(session), WorkspaceGuard(Some(session), w, requested).value)
  {
    if Torn(session.access) {
      TornLoops(session);
      LandlordPages();
      assert WorkspaceGuard(Some(session), Landlord, Some(Page("/landlord/onboarding"))).Some?;
    } else {
      forall w, requested | WorkspaceGuard(Some(session), w, requested).Some?
        ensures Settled(Some(session), WorkspaceGuard(Some(session), w, requested).value)
      {
        GuardSettles(Some(session), w, requested);
      }
    }
  }

  lemma ResolvedNeverTorn(identity: Identity, assurance: Option<Assurance>, now: int)
    ensures !Torn(Access(identity, assurance, now))
  {
    AccessKeepsRedirectsSafe(identity, assurance, now);
  }

  // ---- nothing opens without its grant ----------------------------------------------------------

  /** A property team's account, which is no owner's. */
  ghost predicate IsTeam(access: AccountAccess) {
    "landlord" !in access.roles && ("custodian" in access.roles || "property_worker" in access.roles)
  }

  /** What was asked for, or the workspace's home. */
  function Asked(w: Workspace, requested: Option<Destination>): Destination {
    match requested
    case Some(d) => d
    case None => Page(DefaultHome(w))
  }

  /** A page of a workspace renders exactly for a signed-in, active account that
      holds the workspace, with a second factor for staff, with property teams
      kept to their one page and new owners to onboarding. */
  lemma RendersIff(session: Option<RoutingSession>, w: Workspace, requested: Option<Destination>)
    ensures WorkspaceGuard(session, w, requested).None? <==>
      && session.Some? && session.value.status == "active" && w in session.value.access.workspaces
      && (w in {Ops, Admin} ==> session.value.access.assurance.mfaVerified)
      && (w == Landlord && IsTeam(session.value.access) ==> Path(Asked(w, requested)) == "/landlord/team")
      && (w == Landlord && session.value.access.onboardingLandlord ==>
            Path(Asked(w, requested)) == "/landlord/onboarding")
  {
    NoAskingItself("/mfa-required", Asked(w, requested));
  }

  lemma NoAskingItself(page: string, d: Destination)
    ensures Asking(page, d) != d
  {
  }

  /** A page that does not render sends its visitor to the first thing missing:
      sign-in and the second factor keep the page asked for, the other notices do not. */
  lemma RefusedGoesTo(session: Option<RoutingSession>, w: Workspace, requested: Option<Destination>)
    ensures var sent := WorkspaceGuard(session, w, requested); var d := Asked(w, requested);
      && (sent == Some(Asking("/sign-in", d)) <==> session.None?)
      && (sent == Some(At("/account-pending", "")) <==> session.Some? && session.value.status != "active")
      && (session.Some? && session.value.status == "active" ==>
            var access := session.value.access;
            && (sent == Some(At("/access-required", "")) <==> w !in access.workspaces)
            && (w in access.workspaces ==>
                  && (sent == Some(Asking("/mfa-required", d)) <==> w in {Ops, Admin} && !access.assurance.mfaVerified)
                  && (sent == Some(At("/landlord/team", "")) <==>
                        w == Landlord && IsTeam(access) && Path(d) != "/landlord/team")
                  && (sent == Some(At("/landlord/onboarding", "")) <==>
                        w == Landlord && access.onboardingLandlord && Path(d) != "/landlord/onboarding"
                        && (IsTeam(access) ==> Path(d) == "/landlord/team"))))
  {
    NoAskingItself("/mfa-required", Asked(w, requested));
  }

  // ---- which workspace a page lies in ------------------------------------------------------------

  /** The subtrees of a workspace's pages. */
  function Roots(w: Workspace): set<string> {
    match w
    case Student => {"/dashboard", "/profile", "/reservations", "/messages", "/saved", "/recently-viewed", "/calendar",
      "/agreement"}
    case Landlord => {"/landlord"}
    case Management => {"/management"}
    case Ops => {"/ops"}
    case Admin => {"/admin"}
  }

  lemma Apart(path: string, a: string, b: string, k: nat)
    requires k < |a| && k < |b| && a[k] != b[k]
    ensures !(Within(path, a) && Within(path, b))
  {
    if Within(path, a) { assert path[k] == a[k] by { WithinStarts(path, a, k); } }
    if Within(path, b) { assert path[k] == b[k] by { WithinStarts(path, b, k); } }
  }

  lemma WithinStarts(path: string, root: string, k: nat)
    requires Within(path, root) && k < |root|
    ensures k < |path| && path[k] == root[k]
  {
    if path != root { assert (root + "/")[k] == path[k]; }
  }

  /** No staff or landlord page is a student's. */
  lemma StudentsApart(path: string, root: string)
    requires root in Roots(Student)
    ensures !(Within(path, root) && Within(path, "/landlord"))
    ensures !(Within(path, root) && Within(path, "/management"))
    ensures !(Within(path, root) && Within(path, "/ops"))
    ensures !(Within(path, root) && Within(path, "/admin"))
  {
    hide Within;
    Apart(path, root, "/landlord", 1);
    if root == "/messages" { Apart(path, root, "/management", 2); } else { Apart(path, root, "/management", 1); }
    Apart(path, root, "/ops", 1);
    if root == "/agreement" { Apart(path, root, "/admin", 2); } else { Apart(path, root, "/admin", 1); }
  }

  lemma StudentRoots(path: string)
    ensures WithinAny(path, STUDENT_ROOTS) <==> exists root :: root in Roots(Student) && Within(path, root)
  {
    hide Within;
    forall root ensures root in Roots(Student) <==> root in STUDENT_ROOTS {}
    if root :| root in Roots(Student) && Within(path, root) {
      var i :| 0 <= i < |STUDENT_ROOTS| && STUDENT_ROOTS[i] == root;
      assert Within(path, STUDENT_ROOTS[i]);
    }
    if WithinAny(path, STUDENT_ROOTS) {
      var i :| 0 <= i < |STUDENT_ROOTS| && Within(path, STUDENT_ROOTS[i]);
      assert STUDENT_ROOTS[i] in Roots(Student);
    }
  }

  /** A path lies in a workspace exactly when it is one of the workspace's roots
      or goes on from one with a slash; no path lies in two. */
  lemma InWorkspaceIff(path: string, w: Workspace)
    ensures WorkspaceForPath(path) == Some(w) <==>
      exists root :: root in Roots(w) && (path == root || root + "/" <= path)
  {
    StudentRoots(path);
    assert (exists root :: root in Roots(w) && (path == root || root + "/" <= path)) <==>
      (exists root :: root in Roots(w) && Within(path, root));
    hide Within, WithinAny;
    Apart(path, "/landlord", "/management", 1);
    Apart(path, "/landlord", "/ops", 1);
    Apart(path, "/landlord", "/admin", 1);
    Apart(path, "/management", "/ops", 1);
    Apart(path, "/management", "/admin", 1);
    Apart(path, "/ops", "/admin", 1);
    forall root | root in Roots(Student) && Within(path, root)
      ensures !Within(path, "/landlord") && !Within(path, "/management")
      ensures !Within(path, "/ops") && !Within(path, "/admin")
    {
      StudentsApart(path, root);
    }
    match w
    case Student =>
    case Landlord => assert "/landlord" in Roots(w);
    case Management => assert "/management" in Roots(w);
    case Ops => assert "/ops" in Roots(w);
    case Admin => assert "/admin" in Roots(w);
  }

  /** The desks of administrators, the first that one of the roles fits being home. */
  const DESKS: seq<(set<string>, string)> := [
    ({"super_admin", "platform_admin"}, "/admin"),
    ({"director", "general_manager"}, "/admin/leadership"),
    ({"office_admin"}, "/admin/front-desk"),
    ({"finance_admin"}, "/admin/finance"),
    ({"support_admin"}, "/admin/inquiries"),
    ({"auditor"}, "/admin/audit-log")]

  lemma AdminHomeIsFirstDesk(access: AccountAccess, i: nat, role: string)
    requires i < |DESKS| && role in DESKS[i].0 && role in access.roles
    requires forall j, r :: 0 <= j < i && r in DESKS[j].0 ==> r !in access.roles
    ensures WorkspaceHome(access, Admin) == DESKS[i].1
  {
    assert forall j, r :: 0 <= j < i && r in access.roles ==> r !in DESKS[j].0;
    assert "super_admin" in DESKS[0].0 && "platform_admin" in DESKS[0].0;
    assert "director" in DESKS[1].0 && "general_manager" in DESKS[1].0;
    assert "office_admin" in DESKS[2].0 && "finance_admin" in DESKS[3].0 && "support_admin" in DESKS[4].0;
    assert i in {0, 1, 2, 3, 4, 5};
  }

  /** The other homes; an administrator without a desk starts at the workspace's root. */
  lemma HomesAre(access: AccountAccess)
    ensures WorkspaceHome(access, Student) == "/"
    ensures WorkspaceHome(access, Landlord) == if IsTeam(access) then "/landlord/team" else "/landlord"
    ensures WorkspaceHome(access, Management) == "/management" && WorkspaceHome(access, Ops) == "/ops"
    ensures (forall i, role :: 0 <= i < |DESKS| && role in DESKS[i].0 ==> role !in access.roles) ==>
      WorkspaceHome(access, Admin) == "/admin"
  {
    assert "super_admin" in DESKS[0].0 && "platform_admin" in DESKS[0].0;
    assert "director" in DESKS[1].0 && "general_manager" in DESKS[1].0;
    assert "office_admin" in DESKS[2].0 && "finance_admin" in DESKS[3].0;
    assert "support_admin" in DESKS[4].0 && "auditor" in DESKS[5].0;
  }

  /** Who is not active learns it at sign-in, and nobody else is told so. */
  lemma PendingIff(session: RoutingSession, raw: Option<Destination>)
    ensures AuthDestination(session, raw) == Page("/account-pending") <==> session.status != "active"
  {
    hide WorkspaceForPath, WorkspaceHome, IsPropertyTeamAccount, Within;
    PageOutside("/account-pending");
    assert !Within("/account-pending", "/listings") by { NotWithin("/account-pending", "/listings"); }
    if session.access.workspaces != [] { HomeIsNotPending(session.access, session.access.workspaces[0]); }
    assert (set w | w in session.access.workspaces) != {} ==> session.access.workspaces != [];
  }

  lemma HomeIsNotPending(access: AccountAccess, w: Workspace)
    ensures WorkspaceHome(access, w) != "/account-pending"
  {
  }

  /** A page of a workspace asked for at sign-in is reached exactly when it would
      render; the visitor is never sent elsewhere without need. */
  lemma SignInReachesPage(session: RoutingSession, d: Destination, w: Workspace)
    requires session.status == "active" && !Torn(session.access)
    requires d.At? && '%' !in d.path && WorkspaceForPath(d.path) == Some(w)
    ensures Path(AuthDestination(session, Some(d))) == d.path <==> WorkspaceGuard(Some(session), w, Some(d)).None?
  {
    hide WorkspaceForPath, AuthDestination, Torn, WorkspaceDestination, WorkspaceGuard;
    var result := AuthDestination(session, Some(d));
    SignInSettles(session, Some(d));
    PageOutside("/mfa-required");
    if Path(result) == d.path {
      assert result.At? by { AskingIsMfa(session, d); }
      SamePathSameGuard(session, w, result, d);
    } else {
      RefusedElsewhere(session, d, w);
    }
  }

  /** The only question a sign-in ends in is the one for the second factor. */
  lemma AskingIsMfa(session: RoutingSession, d: Destination)
    requires d.At?
    ensures AuthDestination(session, Some(d)).Asking? ==> Path(AuthDestination(session, Some(d))) == "/mfa-required"
  {
    hide WorkspaceForPath, WorkspaceHome, IsPropertyTeamAccount;
  }

  /** The guard looks at the path only. */
  lemma SamePathSameGuard(session: RoutingSession, w: Workspace, a: Destination, b: Destination)
    requires a.At? && b.At? && a.path == b.path && WorkspaceForPath(a.path) == Some(w) && !Torn(session.access)
    ensures WorkspaceGuard(Some(session), w, Some(a)).None? <==> WorkspaceGuard(Some(session), w, Some(b)).None?
  {
    hide WorkspaceForPath, WorkspaceGuard, Torn;
    RendersIff(Some(session), w, Some(a));
    RendersIff(Some(session), w, Some(b));
  }

  lemma RefusedElsewhere(session: RoutingSession, d: Destination, w: Workspace)
    requires session.status == "active" && d.At? && '%' !in d.path && WorkspaceForPath(d.path) == Some(w)
    requires Path(AuthDestination(session, Some(d))) != d.path
    ensures WorkspaceGuard(Some(session), w, Some(d)).Some?
  {
    hide WorkspaceForPath, WorkspaceHome, IsPropertyTeamAccount;
  }

  predicate OnlyOne(ws: seq<Workspace>) {
    ws != [] && forall i :: 0 <= i < |ws| ==> ws[i] == ws[0]
  }

  /** Without a destination the visitor chooses among several workspaces, goes
      into the only one, by way of the second factor where staff lack it, or
      learns that there is none. */
  lemma SignInFallback(session: RoutingSession, raw: Option<Destination>)
    requires session.status == "active" && AuthorizedNext(session.access, raw).None?
    ensures var ws := session.access.workspaces; var result := AuthDestination(session, raw);
      && (result == Page("/choose-workspace") <==> exists i, j :: 0 <= i < j < |ws| && ws[i] != ws[j])
      && (result == Page("/access-required") <==> ws == [])
      && (result.Asking? <==> OnlyOne(ws) && ws[0] in {Ops, Admin} && !session.access.assurance.mfaVerified)
      && (result.Asking? ==> result == Asking("/mfa-required", Page(WorkspaceHome(session.access, ws[0]))))
      && (result.At? && OnlyOne(ws) ==>
            WorkspaceForPath(result.path) == if ws[0] == Student then None else Some(ws[0]))
  {
    hide WorkspaceForPath, AuthorizedNext, IsPropertyTeamAccount, WorkspaceHome;
    var ws := session.access.workspaces;
    var s := set w | w in ws;
    LandlordPages();
    if ws != [] {
      HomeIsInside(session.access, ws[0]);
      PageOutside("/access-required");
      PageOutside("/choose-workspace");
      HomeIsNoNotice(session.access, ws[0]);
      assert ws[0] in s;
      OneElement(s, ws[0]);
      assert forall i :: 0 <= i < |ws| ==> ws[i] in s;
    }
  }

  lemma HomeIsNoNotice(access: AccountAccess, w: Workspace)
    ensures WorkspaceHome(access, w) !in ["/choose-workspace", "/access-required"]
  {
  }

  /** A path without encoding that is listed as public and lies in no workspace. */
  predicate IsPublic(path: string) {
    '%' !in path && WorkspaceForPath(path).None? && (path in PUBLIC_PAGES || Within(path, "/listings"))
  }

  /** A page asked for at sign-in is reached by every active account, whatever it
      may enter, exactly when it is public. */
  lemma PublicPagesAreForEveryone(d: Destination)
    requires d.At?
    ensures (forall access :: AuthDestination(RoutingSession("active", access), Some(d)) == d) <==>
      IsPublic(d.path)
  {
    hide WorkspaceForPath, Within, AuthDestination;
    if IsPublic(d.path) {
      forall access ensures AuthDestination(RoutingSession("active", access), Some(d)) == d {
        PublicIsReached(access, d);
      }
    } else {
      var nobody := AccountAccess({}, [], false, false, Assurance(None, false));
      var both := nobody.(workspaces := [Student, Landlord]);
      PageOutside("/access-required");
      NobodyIsTurnedAway(nobody, d);
      assert AuthDestination(RoutingSession("active", nobody), Some(d)) == Page("/access-required");
      if WorkspaceForPath(d.path).None? {
        SeveralMustChoose(both, d);
        assert AuthDestination(RoutingSession("active", both), Some(d)) == Page("/choose-workspace");
      }
    }
  }

  lemma PublicIsReached(access: AccountAccess, d: Destination)
    requires d.At? && IsPublic(d.path)
    ensures AuthDestination(RoutingSession("active", access), Some(d)) == d
  {
    hide WorkspaceForPath, Within;
  }

  lemma NobodyIsTurnedAway(access: AccountAccess, d: Destination)
    requires d.At? && access.workspaces == [] && !IsPublic(d.path)
    ensures AuthDestination(RoutingSession("active", access), Some(d)) == Page("/access-required")
  {
    hide WorkspaceForPath, Within;
    assert AuthorizedNext(access, Some(d)).None?;
    assert (set w | w in access.workspaces) == {};
  }

  lemma SeveralMustChoose(access: AccountAccess, d: Destination)
    requires d.At? && access.workspaces == [Student, Landlord] && !IsPublic(d.path) && WorkspaceForPath(d.path).None?
    ensures AuthDestination(RoutingSession("active", access), Some(d)) == Page("/choose-workspace")
  {
    hide WorkspaceForPath, Within;
    assert AuthorizedNext(access, Some(d)).None?;
    var s := set w | w in access.workspaces;
    assert s == {Student, Landlord};
    assert |s| == 2;
  }

  /** No `next`, however written, takes a signed-in visitor into a workspace that
      was not granted to the account. */
  lemma SignInStaysInGrants(identity: Identity, assurance: Option<Assurance>, now: int, status: string,
                         raw: Option<Destination>, w: Workspace)
    requires var session := RoutingSession(status, Access(identity, assurance, now));
      WorkspaceForPath(Path(AuthDestination(session, raw))) == Some(w)
    ensures status == "active"
    ensures exists key :: key in Opens(w) && (key in identity.activeRoles || Legacy(identity, key))
    ensures w in {Ops, Admin} ==> assurance.Some? && assurance.value.mfaVerified
  {
    hide WorkspaceForPath, Access, AuthDestination, Torn, Legacy, Opens, IsPropertyTeamAccount;
    var access := Access(identity, assurance, now);
    var session := RoutingSession(status, access);
    ResolvedNeverTorn(identity, assurance, now);
    SignInSettles(session, raw);
    OpenIffGranted(identity, assurance, now, w);
    assert WorkspaceGuard(Some(session), w, Some(AuthDestination(session, raw))).None?;
    MfaIsEvidence(identity, assurance, now);
    PageOutside("/mfa-required");
  }

  lemma MfaIsEvidence(identity: Identity, assurance: Option<Assurance>, now: int)
    ensures Access(identity, assurance, now).assurance.mfaVerified ==> assurance.Some? && assurance.value.mfaVerified
  {
  }
}
