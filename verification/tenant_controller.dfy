/**
 * The tenant (workspace) controller: the slug derived from a workspace
 * name, creation of a workspace with its admin account, who may read,
 * re-theme, invite into and delete a workspace, the theme merge and the
 * seven-day invite.
 *
 * A workspace document is a `Tenant` object whose theme, invite and
 * member list the handlers update in place; `null` is a document
 * `findById` did not find. Random invite tokens and the clock are
 * parameters.
 */
module TenantController {
  import opened Common
  import opened UserModel
  import opened Validators

  const TENANT_NOT_FOUND := "Tenant not found"
  const UNAUTHORIZED := "Unauthorized access"
  const REQUIRED_FIELDS := "Name, email, and password are required"
  const EMAIL_ALREADY_REGISTERED := "Email already registered"
  const WORKSPACE_EXISTS := "Workspace name already exists"
  const TENANT_CREATED := "Tenant created successfully"
  const TENANT_DELETED := "Tenant deleted successfully"
  const THEME_UPDATED := "Theme updated successfully"
  const SUCCESS := "Success"

  const DEFAULT_ADMIN_PASSWORD := "Admin@123"
  const ADMIN := "ADMIN"

  /** Seven days in milliseconds: the life of an invite link. */
  const INVITE_LIFETIME := 7 * 24 * 60 * 60 * 1000

  // ---------------------------------------------------------------------
  // Slugs
  // ---------------------------------------------------------------------

  predicate SlugChar(c: char)
  {
    ('a' <= c <= 'z') || ('0' <= c <= '9')
  }

  predicate InSlugAlphabet(s: string)
  {
    forall i :: 0 <= i < |s| ==> SlugChar(s[i]) || s[i] == '-'
  }

  predicate NoDoubleDash(s: string)
  {
    forall i :: 0 <= i < |s| - 1 ==> !(s[i] == '-' && s[i + 1] == '-')
  }

  /** `replace(/[^a-z0-9]/g, '-')`. */
  function Dashed(s: string): (r: string)
    ensures |r| == |s| && InSlugAlphabet(r)
    ensures forall i :: 0 <= i < |s| && SlugChar(s[i]) ==> r[i] == s[i]
  {
    seq(|s|, i requires 0 <= i < |s| => if SlugChar(s[i]) then s[i] else '-')
  }

  /** `replace(/-+/g, '-')`: every run of dashes becomes one dash. */
  function CollapseDashes(s: string): (r: string)
    ensures |r| <= |s|
    ensures r == [] <==> s == []
    ensures s != [] ==> r[|r| - 1] == s[|s| - 1]
    ensures NoDoubleDash(r)
    ensures forall i :: 0 <= i < |r| ==> r[i] in s
  {
    if s == [] then []
    else
      var init := CollapseDashes(s[..|s| - 1]);
      var c := s[|s| - 1];
      if c == '-' && init != [] && init[|init| - 1] == '-' then init
      else
        assert forall i :: 0 <= i < |init| ==> init[i] in s[..|s| - 1];
        init + [c]
  }

  /**
   * The workspace slug: lowercased, every other character a dash, runs of
   * dashes collapsed. It only uses `a-z`, `0-9` and `-`, never has two
   * dashes in a row, and is never longer than the name.
   */
  function Slug(name: string): (r: string)
    ensures InSlugAlphabet(r) && NoDoubleDash(r)
    ensures |r| <= |name|
    ensures r == [] <==> name == []
  {
    var d := Dashed(ToLower(name));
    var r := CollapseDashes(d);
    assert forall i :: 0 <= i < |r| ==> r[i] in d;
    r
  }

  lemma {:induction false} CollapseKeepsLetters(s: string)
    ensures Filter(CollapseDashes(s), SlugChar) == Filter(s, SlugChar)
  {
    if s != [] {
      var init := s[..|s| - 1];
      var c := s[|s| - 1];
      CollapseKeepsLetters(init);
      var ci := CollapseDashes(init);
      if !(c == '-' && ci != [] && ci[|ci| - 1] == '-') {
        assert (ci + [c])[..|ci|] == ci;
      }
    }
  }

  lemma {:induction false} DashedKeepsLetters(s: string)
    ensures Filter(Dashed(s), SlugChar) == Filter(s, SlugChar)
  {
    if s != [] {
      var init := s[..|s| - 1];
      DashedKeepsLetters(init);
      assert Dashed(s)[..|s| - 1] == Dashed(init);
    }
  }

  /** The letters and digits of the slug are those of the lowercased name, in order. */
  lemma SlugKeepsLettersAndDigits(name: string)
    ensures Filter(Slug(name), SlugChar) == Filter(ToLower(name), SlugChar)
  {
    CollapseKeepsLetters(Dashed(ToLower(name)));
    DashedKeepsLetters(ToLower(name));
  }

  lemma {:induction false} CollapseOfCollapsed(s: string)
    requires NoDoubleDash(s)
    ensures CollapseDashes(s) == s
  {
    if s != [] {
      var init := s[..|s| - 1];
      CollapseOfCollapsed(init);
      if |s| >= 2 {
        assert !(s[|s| - 2] == '-' && s[|s| - 1] == '-');
      }
      assert init + [s[|s| - 1]] == s;
    }
  }

  /** Slugging a slug changes nothing. */
  lemma SlugIdempotent(name: string)
    ensures Slug(Slug(name)) == Slug(name)
  {
    var r := Slug(name);
    assert ToLower(r) == r;
    assert Dashed(r) == r;
    CollapseOfCollapsed(r);
  }

  /** Case does not matter and a space becomes a dash. */
  lemma SlugOfSpacedName()
    ensures Slug("Ab C") == "ab-c"
  {
    assert Dashed(ToLower("Ab C")) == "ab-c";
    CollapseOfCollapsed("ab-c");
  }

  /** A run of separators becomes a single dash. */
  lemma SlugCollapsesRuns()
    ensures Slug("a - b") == "a-b"
  {
    assert Dashed(ToLower("a - b")) == "a---b";
    assert CollapseDashes("a---b") == "a-b" by {
      assert "a---b"[..4] == "a---";
      assert "a---"[..3] == "a--";
      assert "a--"[..2] == "a-";
      assert "a-"[..1] == "a";
      assert "a"[..0] == "";
    }
  }

  /** Punctuation at the edge is not trimmed: the slug ends with a dash. */
  lemma SlugKeepsEdgeDash()
    ensures Slug("Ab!") == "ab-"
  {
    assert Dashed(ToLower("Ab!")) == "ab-";
    CollapseOfCollapsed("ab-");
  }

  // ---------------------------------------------------------------------
  // The workspace document
  // ---------------------------------------------------------------------

  /** An invite link; the join handler fills in who accepted it and when. */
  datatype Invite = Invite(token: string, expiresAt: int, invitedEmail: Option<string>,
                           invitedPhone: Option<string>, acceptedAt: Option<int>, acceptedBy: Option<Id>)

  /**
   * What the tenant schema keeps of an invite when the workspace is saved:
   * it declares only `token` and `expiresAt` under `inviteToken`, and strict
   * mode drops every other field.
   */
  function StoredInviteAsWritten(inv: Invite): (r: Invite)
    ensures r.token == inv.token && r.expiresAt == inv.expiresAt
    ensures r.invitedEmail.None? && r.invitedPhone.None? && r.acceptedAt.None? && r.acceptedBy.None?
  {
    Invite(inv.token, inv.expiresAt, None, None, None, None)
  }

  datatype TenantRecord = TenantRecord(
    id: Id,
    name: string,
    slug: string,
    adminId: Id,
    description: string,
    theme: map<string, string>,
    members: seq<Id>,
    inviteToken: Option<Invite>,
    status: string,
    createdAt: int,
    updatedAt: int)

  /** The schema's theme defaults. */
  const DEFAULT_THEME: map<string, string> := map[
    "primaryColor" := "#2563eb",
    "secondaryColor" := "#1e293b",
    "accentColor" := "#10b981",
    "chatBubbleAdmin" := "#3b82f6",
    "chatBubbleUser" := "#1f2937"]

  class Tenant {
    var id: Id
    var name: string
    var slug: string
    var adminId: Id
    var description: string
    var theme: map<string, string>
    var members: seq<Id>
    var inviteToken: Option<Invite>
    var status: string
    var createdAt: int
    var updatedAt: int

    function Record(): TenantRecord
      reads this
    {
      TenantRecord(id, name, slug, adminId, description, theme, members, inviteToken, status, createdAt, updatedAt)
    }

    constructor (r: TenantRecord)
      ensures Record() == r
    {
      id := r.id;
      name := r.name;
      slug := r.slug;
      adminId := r.adminId;
      description := r.description;
      theme := r.theme;
      members := r.members;
      inviteToken := r.inviteToken;
      status := r.status;
      createdAt := r.createdAt;
      updatedAt := r.updatedAt;
    }
  }

  function RecordOf(t: Tenant?): Option<TenantRecord>
    reads t
  {
    if t == null then None else Some(t.Record())
  }

  // ---------------------------------------------------------------------
  // Who may do what
  // ---------------------------------------------------------------------

  datatype TenantAction = ViewDetails | ListUsers | EditTheme | CreateInvite | DeleteTenant

  /**
   * Details and the user list: a super admin or the workspace's admin.
   * Theme and invites: the workspace's admin only. Deletion: a super admin only.
   */
  predicate MayAct(action: TenantAction, callerId: Id, callerRole: string, t: TenantRecord)
    ensures MayAct(action, callerId, callerRole, t) ==> callerRole == SUPER_ADMIN || callerId == t.adminId
    ensures action != DeleteTenant && callerId == t.adminId ==> MayAct(action, callerId, callerRole, t)
  {
    match action
    case ViewDetails => callerRole == SUPER_ADMIN || callerId == t.adminId
    case ListUsers => callerRole == SUPER_ADMIN || callerId == t.adminId
    case EditTheme => callerId == t.adminId
    case CreateInvite => callerId == t.adminId
    case DeleteTenant => callerRole == SUPER_ADMIN
  }

  /**
   * Every handler looks the workspace up first: 404 comes before 403.
   * `adminStored` says whether the admin's user document still exists. Only
   * `getTenantDetails` populates `adminId`, and for any caller but a super
   * admin it then reads `tenant.adminId._id`; with the admin deleted that
   * throws, and the error handler answers 500.
   */
  function AccessStatus(action: TenantAction, callerId: Id, callerRole: string, t: Option<TenantRecord>,
                        adminStored: bool): (status: int)
    ensures status == 200 || status == 403 || status == 404 || status == 500
    ensures status == 404 <==> t.None?
    ensures status == 500 <==> t.Some? && action == ViewDetails && callerRole != SUPER_ADMIN && !adminStored
    ensures status == 200 <==>
      t.Some? && MayAct(action, callerId, callerRole, t.value) &&
      (action != ViewDetails || callerRole == SUPER_ADMIN || adminStored)
  {
    if t.None? then 404
    else if action == ViewDetails && callerRole != SUPER_ADMIN && !adminStored then 500
    else if !MayAct(action, callerId, callerRole, t.value) then 403
    else 200
  }

  /** Only the details view depends on the admin's document: every other handler compares the bare id. */
  lemma OnlyDetailsReadsAdmin(action: TenantAction, callerId: Id, callerRole: string, t: Option<TenantRecord>)
    requires action != ViewDetails
    ensures AccessStatus(action, callerId, callerRole, t, false) == AccessStatus(action, callerId, callerRole, t, true)
    ensures AccessStatus(action, callerId, callerRole, t, false) != 500
  {
  }

  /** A workspace whose admin was deleted cannot be viewed by anyone but a super admin: the lookup throws. */
  lemma DeletedAdminBreaksDetails(callerId: Id, callerRole: string, t: TenantRecord)
    requires callerRole != SUPER_ADMIN
    ensures AccessStatus(ViewDetails, callerId, callerRole, Some(t), false) == 500
    ensures AccessStatus(ViewDetails, callerId, SUPER_ADMIN, Some(t), false) == 200
  {
  }

  /** A super admin who does not run the workspace may read it but not re-theme it or invite into it. */
  lemma SuperAdminReadsButDoesNotManage(callerId: Id, t: TenantRecord, adminStored: bool)
    requires callerId != t.adminId
    ensures AccessStatus(ViewDetails, callerId, SUPER_ADMIN, Some(t), adminStored) == 200
    ensures AccessStatus(ListUsers, callerId, SUPER_ADMIN, Some(t), adminStored) == 200
    ensures AccessStatus(EditTheme, callerId, SUPER_ADMIN, Some(t), adminStored) == 403
    ensures AccessStatus(CreateInvite, callerId, SUPER_ADMIN, Some(t), adminStored) == 403
  {
  }

  /** The workspace admin may do everything but delete the workspace. */
  lemma AdminManagesButDoesNotDelete(t: TenantRecord, role: string)
    requires role != SUPER_ADMIN
    ensures forall a :: a != DeleteTenant ==> AccessStatus(a, t.adminId, role, Some(t), true) == 200
    ensures AccessStatus(DeleteTenant, t.adminId, role, Some(t), true) == 403
  {
  }

  /** Whoever may change a workspace may also read it. */
  lemma ManagingImpliesReading(callerId: Id, role: string, t: TenantRecord)
    requires MayAct(EditTheme, callerId, role, t) || MayAct(CreateInvite, callerId, role, t)
    ensures MayAct(ViewDetails, callerId, role, t) && MayAct(ListUsers, callerId, role, t)
  {
  }

  // ---------------------------------------------------------------------
  // Theme
  // ---------------------------------------------------------------------

  /** `req.body.theme || req.body`: any theme object is truthy, the empty one included. */
  function ThemeArg(bodyTheme: Option<map<string, string>>, body: map<string, string>): (r: map<string, string>)
    ensures bodyTheme.Some? ==> r == bodyTheme.value
    ensures bodyTheme.None? ==> r == body
  {
    if bodyTheme.Some? then bodyTheme.value else body
  }

  /** `{ ...old, ...given }`: every given key wins, every other old key stays. */
  function MergedTheme(current: map<string, string>, given: map<string, string>): (r: map<string, string>)
    ensures r.Keys == current.Keys + given.Keys
    ensures forall k :: k in given ==> r[k] == given[k]
    ensures forall k :: k in current && k !in given ==> r[k] == current[k]
  {
    current + given
  }

  /** Applying the same theme twice is the same as applying it once. */
  lemma ThemeMergeIdempotent(current: map<string, string>, given: map<string, string>)
    ensures MergedTheme(MergedTheme(current, given), given) == MergedTheme(current, given)
  {
  }

  /** An empty theme changes nothing. */
  lemma EmptyThemeKeepsTheme(current: map<string, string>)
    ensures MergedTheme(current, map[]) == current
  {
  }

  method UpdateTheme(callerId: Id, callerRole: string, tenant: Tenant?, bodyTheme: Option<map<string, string>>,
                     body: map<string, string>, now: int) returns (status: int, message: string)
    modifies tenant
    ensures status == AccessStatus(EditTheme, callerId, callerRole, old(RecordOf(tenant)), true)
    ensures status != 200 ==> RecordOf(tenant) == old(RecordOf(tenant))
    ensures status == 200 ==>
      message == THEME_UPDATED &&
      tenant.Record() == old(tenant.Record()).(theme := MergedTheme(old(tenant.theme), ThemeArg(bodyTheme, body)),
                                               updatedAt := now)
  {
    var theme := if bodyTheme.Some? then bodyTheme.value else body;
    if tenant == null {
      return 404, TENANT_NOT_FOUND;
    }
    if callerId != tenant.adminId {
      return 403, UNAUTHORIZED;
    }
    tenant.theme := tenant.theme + theme;
    tenant.updatedAt := now;
    return 200, THEME_UPDATED;
  }

  // ---------------------------------------------------------------------
  // Invites
  // ---------------------------------------------------------------------

  /** `${FRONTEND_URL}/join/${slug}?token=${token}`. */
  function InviteUrl(frontend: string, slug: string, token: string): (r: string)
    ensures |r| == |frontend| + 6 + |slug| + 7 + |token|
    ensures r[..|frontend|] == frontend
    ensures r[|r| - |token|..] == token
    ensures r[|frontend| .. |frontend| + 6] == "/join/"
  {
    frontend + "/join/" + slug + "?token=" + token
  }

  /**
   * `generateInviteLink`: a fresh token valid for seven days replaces the
   * previous invite, including any record of its acceptance.
   */
  method GenerateInviteLink(callerId: Id, callerRole: string, tenant: Tenant?, token: string, frontend: string,
                            now: int) returns (status: int, url: Option<string>, expiresAt: Option<int>)
    modifies tenant
    ensures status == AccessStatus(CreateInvite, callerId, callerRole, old(RecordOf(tenant)), true)
    ensures status != 200 ==> RecordOf(tenant) == old(RecordOf(tenant)) && url.None? && expiresAt.None?
    ensures status == 200 ==>
      expiresAt == Some(now + INVITE_LIFETIME) &&
      url == Some(InviteUrl(frontend, tenant.slug, token)) &&
      tenant.Record() == old(tenant.Record()).(inviteToken := Some(Invite(token, now + INVITE_LIFETIME, None, None, None, None)))
  {
    if tenant == null {
      return 404, None, None;
    }
    if callerId != tenant.adminId {
      return 403, None, None;
    }
    var expiry := now + 7 * 24 * 60 * 60 * 1000;
    tenant.inviteToken := Some(Invite(token, expiry, None, None, None, None));
    return 200, Some(InviteUrl(frontend, tenant.slug, token)), Some(expiry);
  }

  /** The invite's `new Date() > expiresAt` test: still valid at the expiry instant itself. */
  predicate InviteExpired(inv: Invite, now: int)
    ensures now <= inv.expiresAt ==> !InviteExpired(inv, now)
    ensures now == inv.expiresAt + 1 ==> InviteExpired(inv, now)
  {
    now > inv.expiresAt
  }

  /** A link made at `t` still works at `t` plus seven days and stops working one millisecond later. */
  lemma InviteLastsSevenDays(token: string, t: int)
    ensures !InviteExpired(Invite(token, t + INVITE_LIFETIME, None, None, None, None), t + 604800000)
    ensures InviteExpired(Invite(token, t + INVITE_LIFETIME, None, None, None, None), t + 604800001)
  {
  }

  // ---------------------------------------------------------------------
  // Creating, listing and deleting workspaces
  // ---------------------------------------------------------------------

  /** `User.findOne({ email })`; the schema lowercases e-mails, in queries as in documents. */
  predicate EmailTaken(users: seq<UserRecord>, email: string)
  {
    exists k :: 0 <= k < |users| && users[k].email == ToLower(email)
  }

  predicate SlugTaken(tenants: seq<TenantRecord>, slug: string)
  {
    exists k :: 0 <= k < |tenants| && tenants[k].slug == slug
  }

  datatype CreateOutcome =
    | TenantCreated(admin: UserRecord, tenant: TenantRecord)
    | CreateRefused(status: int, message: string)
    | CreateSchemaRejected(path: string)

  /** The destructuring default `password = 'Admin@123'`: it applies only when no password is sent. */
  function AdminPassword(password: Option<string>): string
  {
    if password.None? then DEFAULT_ADMIN_PASSWORD else password.value
  }

  /**
   * What saving the new admin account demands of the user schema: the
   * lowercased e-mail matches the schema's pattern (the same pattern as
   * `isValidEmail`), and the password is present with at least six UTF-16
   * code units. The name `<name> Admin` always passes `required`.
   */
  ghost predicate AdminSaves(email: string, password: Option<string>)
  {
    EmailRegex(ToLower(email)) && Utf16Length(AdminPassword(password)) >= 6
  }

  /** The admin account's name: the schema trims `<name> Admin`, which never trims to nothing. */
  function AdminName(name: string): (r: string)
    ensures r != "" && !IsJsWhitespace(r[0]) && !IsJsWhitespace(r[|r| - 1])
    ensures |r| <= |name| + 6
  {
    var n := name + " Admin";
    TrimEmptyIffBlank(n);
    assert !IsJsWhitespace(n[|n| - 1]);
    Trim(n)
  }

  /**
   * `createTenant`: name and e-mail are required, the e-mail must be new,
   * then the slug must be new; then saving the admin account runs the user
   * schema, whose validation error goes to the error middleware. The
   * workspace gets a fresh admin account (password `Admin@123` unless one
   * is given) that belongs to it.
   */
  function CreateTenant(users: seq<UserRecord>, tenants: seq<TenantRecord>, name: string, email: string,
                        password: Option<string>, adminUserId: Id, tenantId: Id, now: int): CreateOutcome
  {
    if name == "" || email == "" then CreateRefused(400, REQUIRED_FIELDS)
    else if EmailTaken(users, email) then CreateRefused(400, EMAIL_ALREADY_REGISTERED)
    else if SlugTaken(tenants, Slug(name)) then CreateRefused(400, WORKSPACE_EXISTS)
    else if !IsValidEmail(ToLower(email)) then CreateSchemaRejected("email")
    else if Utf16Length(AdminPassword(password)) < 6 then CreateSchemaRejected("password")
    else
      var admin := UserRecord(adminUserId, AdminName(name), ToLower(email), None, false, None, None, None,
                              AdminPassword(password), None, ADMIN, Some(tenantId), ACTIVE, [], [], [], [], None);
      var tenant := TenantRecord(tenantId, name, Slug(name), adminUserId, name + " workspace", DEFAULT_THEME,
                                 [], None, ACTIVE, now, now);
      TenantCreated(admin, tenant)
  }

  /**
   * Every outcome of `createTenant`: the three refusals in order, then the
   * schema's rejection exactly when the admin account cannot be saved, and
   * otherwise a workspace and its admin account.
   */
  lemma CreateTenantOutcome(users: seq<UserRecord>, tenants: seq<TenantRecord>, name: string, email: string,
                            password: Option<string>, adminUserId: Id, tenantId: Id, now: int, r: CreateOutcome)
    requires r == CreateTenant(users, tenants, name, email, password, adminUserId, tenantId, now)
    ensures name == "" || email == "" ==> r == CreateRefused(400, REQUIRED_FIELDS)
    ensures name != "" && email != "" && EmailTaken(users, email) ==> r == CreateRefused(400, EMAIL_ALREADY_REGISTERED)
    ensures name != "" && email != "" && !EmailTaken(users, email) && SlugTaken(tenants, Slug(name)) ==>
      r == CreateRefused(400, WORKSPACE_EXISTS)
    ensures r.CreateSchemaRejected? <==>
      name != "" && email != "" && !EmailTaken(users, email) && !SlugTaken(tenants, Slug(name)) &&
      !AdminSaves(email, password)
    ensures r.CreateSchemaRejected? ==> r.path == (if EmailRegex(ToLower(email)) then "password" else "email")
    ensures r.TenantCreated? <==>
      name != "" && email != "" && !EmailTaken(users, email) && !SlugTaken(tenants, Slug(name)) &&
      AdminSaves(email, password)
    ensures r.TenantCreated? ==>
      r.admin.id == adminUserId && r.admin.role == ADMIN && r.admin.status == ACTIVE &&
      r.admin.email == ToLower(email) && r.admin.name == AdminName(name) &&
      r.admin.password == AdminPassword(password) && r.admin.tenantId == Some(tenantId) &&
      r.tenant.id == tenantId && r.tenant.adminId == adminUserId && r.tenant.slug == Slug(name) &&
      r.tenant.slug != "" && r.tenant.name == name && r.tenant.description == name + " workspace" &&
      r.tenant.members == [] && r.tenant.inviteToken.None? && r.tenant.theme == DEFAULT_THEME
  {
    if name == "" || email == "" || EmailTaken(users, email) || SlugTaken(tenants, Slug(name)) {
    } else if !IsValidEmail(ToLower(email)) {
      assert r == CreateSchemaRejected("email");
    } else if Utf16Length(AdminPassword(password)) < 6 {
      assert r == CreateSchemaRejected("password");
    } else {
      assert r.TenantCreated?;
    }
  }

  /**
   * A password sent empty does not take the default, so the account cannot
   * be saved; nor can one with fewer than six characters.
   */
  lemma ShortPasswordRefused(users: seq<UserRecord>, tenants: seq<TenantRecord>, name: string, email: string,
                             pw: string, adminUserId: Id, tenantId: Id, now: int)
    requires name != "" && !EmailTaken(users, email) && !SlugTaken(tenants, Slug(name))
    requires EmailRegex(ToLower(email)) && |pw| < 3
    ensures CreateTenant(users, tenants, name, email, Some(pw), adminUserId, tenantId, now) ==
            CreateSchemaRejected("password")
  {
    CreateTenantOutcome(users, tenants, name, email, Some(pw), adminUserId, tenantId, now,
                        CreateTenant(users, tenants, name, email, Some(pw), adminUserId, tenantId, now));
  }

  /** The new admin runs the new workspace but cannot delete it. */
  lemma CreatedAdminRunsWorkspace(users: seq<UserRecord>, tenants: seq<TenantRecord>, name: string, email: string,
                                  password: Option<string>, adminUserId: Id, tenantId: Id, now: int)
    requires CreateTenant(users, tenants, name, email, password, adminUserId, tenantId, now).TenantCreated?
    ensures var r := CreateTenant(users, tenants, name, email, password, adminUserId, tenantId, now);
      AccessStatus(EditTheme, r.admin.id, r.admin.role, Some(r.tenant), true) == 200 &&
      AccessStatus(CreateInvite, r.admin.id, r.admin.role, Some(r.tenant), true) == 200 &&
      AccessStatus(DeleteTenant, r.admin.id, r.admin.role, Some(r.tenant), true) == 403
  {
    var r := CreateTenant(users, tenants, name, email, password, adminUserId, tenantId, now);
    CreateTenantOutcome(users, tenants, name, email, password, adminUserId, tenantId, now, r);
    AdminManagesButDoesNotDelete(r.tenant, r.admin.role);
  }

  /** A second workspace whose name slugs the same way is refused, whatever its spelling. */
  lemma SameSlugRefused(users: seq<UserRecord>, tenants: seq<TenantRecord>, name: string, email: string,
                        password: Option<string>, adminUserId: Id, tenantId: Id, now: int,
                        name2: string, email2: string, adminUserId2: Id, tenantId2: Id)
    requires CreateTenant(users, tenants, name, email, password, adminUserId, tenantId, now).TenantCreated?
    requires name2 != "" && email2 != "" && Slug(name2) == Slug(name)
    ensures var r := CreateTenant(users, tenants, name, email, password, adminUserId, tenantId, now);
      CreateTenant(users + [r.admin], tenants + [r.tenant], name2, email2, password, adminUserId2, tenantId2, now).CreateRefused?
  {
    var r := CreateTenant(users, tenants, name, email, password, adminUserId, tenantId, now);
    CreateTenantOutcome(users, tenants, name, email, password, adminUserId, tenantId, now, r);
    assert (tenants + [r.tenant])[|tenants|].slug == Slug(name2);
    var r2 := CreateTenant(users + [r.admin], tenants + [r.tenant], name2, email2, password, adminUserId2, tenantId2, now);
    CreateTenantOutcome(users + [r.admin], tenants + [r.tenant], name2, email2, password, adminUserId2, tenantId2, now, r2);
  }

  /** `deleteTenant`: 404, then 403 for anyone but a super admin, then the document is gone. */
  function DeleteTenantSpec(callerId: Id, callerRole: string, tenants: map<Id, TenantRecord>, tenantId: Id)
    : (r: (int, map<Id, TenantRecord>))
    ensures r.0 == AccessStatus(DeleteTenant, callerId, callerRole,
                                if tenantId in tenants then Some(tenants[tenantId]) else None, true)
    ensures r.0 == 200 ==> r.1 == tenants - {tenantId} && tenantId !in r.1
    ensures r.0 != 200 ==> r.1 == tenants
  {
    if tenantId !in tenants then (404, tenants)
    else if callerRole != SUPER_ADMIN then (403, tenants)
    else (200, tenants - {tenantId})
  }

  predicate InTenant(tenantId: Id, u: UserRecord)
  {
    u.tenantId == Some(tenantId)
  }

  /** `getTenantUsers`: the access decision and the `total` count of the workspace's users. */
  function TenantUserTotal(callerId: Id, callerRole: string, t: Option<TenantRecord>, users: seq<UserRecord>)
    : (r: (int, nat))
    ensures r.0 == AccessStatus(ListUsers, callerId, callerRole, t, true)
    ensures r.0 == 200 ==> r.1 == |Filter(users, u => InTenant(t.value.id, u))|
    ensures r.0 != 200 ==> r.1 == 0
  {
    var status := AccessStatus(ListUsers, callerId, callerRole, t, true);
    if status != 200 then (status, 0) else (200, |Filter(users, u => InTenant(t.value.id, u))|)
  }
}
