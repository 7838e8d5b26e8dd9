/** System-level user management (`CustomAdminUserService`): listing
    accounts, changing an account's system role and its status. The feature
    flag is the parameter `enabled`; ordering by creation time is the row
    order of the account table. */
module UserService {
  import opened Base
  import opened Store
  import opened SystemRoles

  /** The `(success, error_message)` pair of the mutating calls, with the
      database after the call. */
  datatype UserStep = UserStep(ok: bool, message: string, db: Db)

  const FeatureNotEnabled: string := "Feature not enabled"
  const UserNotFound: string := "User not found"
  const CannotDemoteSelf: string := "Cannot demote yourself from super_admin"
  const CannotDisableSelf: string := "Cannot disable your own account"

  function InvalidRoleMessage(role: string): string {
    "Invalid system role: " + role
  }

  function InvalidStatusMessage(status: string): string {
    "Invalid status: " + status + ". Must be 'active' or 'banned'"
  }

  /** `update_system_role`. The checks run in order: feature flag, role
      validity, account existence, and then a super admin changing their
      own role to anything else is refused. */
  function UpdateSystemRole(enabled: bool, db: Db, userId: Id, newRole: string, operatorId: Id)
    : (r: UserStep)
    ensures !enabled ==> r == UserStep(false, FeatureNotEnabled, db)
    ensures enabled && !IsValidRole(Some(newRole)) ==>
              r == UserStep(false, InvalidRoleMessage(newRole), db)
    ensures enabled && IsValidRole(Some(newRole)) && FindAccount(db.accounts, userId).None? ==>
              r == UserStep(false, UserNotFound, db)
    ensures r.ok <==>
              enabled && IsValidRole(Some(newRole)) && FindAccount(db.accounts, userId).Some?
              && !(userId == operatorId && newRole != "super_admin"
                   && FindAccount(db.accounts, userId).value.systemRole == Some("super_admin"))
    ensures !r.ok ==> r.db == db
    ensures r.ok ==> r.message == "" && FindAccount(r.db.accounts, userId).Some?
                     && FindAccount(r.db.accounts, userId).value
                        == FindAccount(db.accounts, userId).value.(systemRole := Some(newRole))
                     && r.db.tenants == db.tenants && r.db.joins == db.joins
    ensures r.ok ==> AccountIndex(db.accounts, userId).Some?
                     && r.db == db.(accounts := db.accounts[AccountIndex(db.accounts, userId).value :=
                                      db.accounts[AccountIndex(db.accounts, userId).value].(systemRole := Some(newRole))])
  {
    if !enabled then UserStep(false, FeatureNotEnabled, db)
    else if !IsValidRole(Some(newRole)) then UserStep(false, InvalidRoleMessage(newRole), db)
    else match AccountIndex(db.accounts, userId)
      case None => UserStep(false, UserNotFound, db)
      case Some(i) =>
        var user := db.accounts[i];
        if userId == operatorId && newRole != "super_admin" && user.systemRole == Some("super_admin") then
          UserStep(false, CannotDemoteSelf, db)
        else
          UserStep(true, "", SetAccount(db, i, user.(systemRole := Some(newRole))))
  }

  /** `update_user_status`: only `active` and `banned` are accepted, the
      account must exist, and nobody may ban themselves. The feature flag is
      not consulted. */
  function UpdateUserStatus(db: Db, userId: Id, newStatus: string, operatorId: Id): (r: UserStep)
    ensures newStatus != Active && newStatus != Banned ==>
              r == UserStep(false, InvalidStatusMessage(newStatus), db)
    ensures (newStatus == Active || newStatus == Banned) && FindAccount(db.accounts, userId).None? ==>
              r == UserStep(false, UserNotFound, db)
    ensures r.ok <==>
              (newStatus == Active || newStatus == Banned) && FindAccount(db.accounts, userId).Some?
              && !(userId == operatorId && newStatus == Banned)
    ensures !r.ok ==> r.db == db
    ensures r.ok ==> r.message == "" && FindAccount(r.db.accounts, userId).Some?
                     && FindAccount(r.db.accounts, userId).value
                        == FindAccount(db.accounts, userId).value.(status := newStatus)
                     && r.db.tenants == db.tenants && r.db.joins == db.joins
    ensures r.ok ==> AccountIndex(db.accounts, userId).Some?
                     && r.db == db.(accounts := db.accounts[AccountIndex(db.accounts, userId).value :=
                                      db.accounts[AccountIndex(db.accounts, userId).value].(status := newStatus)])
  {
    if newStatus != Active && newStatus != Banned then
      UserStep(false, InvalidStatusMessage(newStatus), db)
    else match AccountIndex(db.accounts, userId)
      case None => UserStep(false, UserNotFound, db)
      case Some(i) =>
        if userId == operatorId && newStatus == Banned then UserStep(false, CannotDisableSelf, db)
        else UserStep(true, "", SetAccount(db, i, db.accounts[i].(status := newStatus)))
  }

  /** A role change keeps the number of super admins positive whenever the
      operator is a stored super admin: the operator cannot lose the role. */
  lemma OperatorKeepsASuperAdmin(enabled: bool, db: Db, userId: Id, newRole: string, operatorId: Id)
    requires UniqueAccountIds(db.accounts)
    requires FindAccount(db.accounts, operatorId).Some?
    requires FindAccount(db.accounts, operatorId).value.systemRole == Some("super_admin")
    ensures SuperAdminCount(UpdateSystemRole(enabled, db, userId, newRole, operatorId).db.accounts) >= 1
  {
    var r := UpdateSystemRole(enabled, db, userId, newRole, operatorId);
    var op := FindAccount(db.accounts, operatorId).value;
    if r.ok {
      var i := AccountIndex(db.accounts, userId).value;
      var j := AccountIndex(db.accounts, operatorId).value;
      if i == j {
        assert r.db.accounts[i].systemRole == Some("super_admin");
        CountPositive(r.db.accounts, IsStoredSuperAdmin());
      } else {
        assert r.db.accounts[j] == db.accounts[j];
        assert IsStoredSuperAdmin()(r.db.accounts[j]);
        CountPositive(r.db.accounts, IsStoredSuperAdmin());
      }
    } else {
      var j := AccountIndex(db.accounts, operatorId).value;
      assert IsStoredSuperAdmin()(db.accounts[j]);
      CountPositive(db.accounts, IsStoredSuperAdmin());
    }
  }

  /** The self-demotion guard covers only the operator's own row: a super
      admin may demote another super admin, even the last other one. */
  lemma OtherSuperAdminCanBeDemoted(u: Id, o: Id)
    requires u != o
    ensures var db := Db([Account(u, "U", "u@x", Active, Some("super_admin")),
                          Account(o, "O", "o@x", Active, Some("super_admin"))], [], []);
            var r := UpdateSystemRole(true, db, u, "normal", o);
            r.ok && SuperAdminCount(r.db.accounts) == 1
  {
    var db := Db([Account(u, "U", "u@x", Active, Some("super_admin")),
                  Account(o, "O", "o@x", Active, Some("super_admin"))], [], []);
    assert IsValidRole(Some("normal")) by { ValueRoundTrip(Normal, "normal"); }
    var r := UpdateSystemRole(true, db, u, "normal", o);
    assert r.db.accounts == [Account(u, "U", "u@x", Active, Some("normal")),
                             Account(o, "O", "o@x", Active, Some("super_admin"))];
    var p := IsStoredSuperAdmin();
    assert !p(r.db.accounts[0]) && p(r.db.accounts[1]);
    assert r.db.accounts[1..][1..] == [];
    assert CountWhere(r.db.accounts[1..], p) == 1 + CountWhere(r.db.accounts[1..][1..], p);
  }

  /** The account as the listings show it; the system role falls back to
      "normal" when the column is NULL or empty. */
  datatype UserView = UserView(id: Id, name: string, email: string, status: string, systemRole: string)

  /** `_build_user_dict` without workspaces. */
  function BuildUserView(a: Account): (v: UserView)
    ensures v.id == a.id && v.name == a.name && v.email == a.email && v.status == a.status
    ensures a.systemRole.Some? && a.systemRole.value != "" ==> v.systemRole == a.systemRole.value
    ensures a.systemRole.None? || a.systemRole == Some("") ==> v.systemRole == "normal"
  {
    var role := if a.systemRole.Some? && a.systemRole.value != "" then a.systemRole.value else Value(Normal);
    UserView(a.id, a.name, a.email, a.status, role)
  }

  /** The filters of `get_users`. An empty search or status applies no
      filter; the role filter applies only to a valid role value and
      compares with the stored column, so NULL rows never match it. */
  function IsListedUser(search: string, systemRole: string, status: string,
                        matches: (string, string) -> bool): Account -> bool
  {
    (a: Account) =>
      AccountMatches(a, search, matches)
      && (!IsValidRole(Some(systemRole)) || a.systemRole == Some(systemRole))
      && (status == "" || a.status == status)
  }

  /** `get_users`: one page of the matching accounts and the total before
      paging. */
  function GetUsers(db: Db, page: int, limit: nat, search: string, systemRole: string, status: string,
                    matches: (string, string) -> bool): (r: (seq<UserView>, nat))
    requires page >= 1
    ensures |r.0| <= limit
    ensures r.1 == CountWhere(db.accounts, IsListedUser(search, systemRole, status, matches))
    ensures forall v :: v in r.0 ==>
              exists a :: a in db.accounts && IsListedUser(search, systemRole, status, matches)(a)
                          && v == BuildUserView(a)
  {
    var rows := Filter(db.accounts, IsListedUser(search, systemRole, status, matches));
    (Views(Page(rows, page, limit)), |rows|)
  }

  /** The page holds exactly the rows of the listing from the page's offset
      on, as many as fit: `limit` of them, or what is left of the listing,
      or none once the offset is past its end. */
  lemma GetUsersPage(db: Db, page: int, limit: nat, search: string, systemRole: string, status: string,
                     matches: (string, string) -> bool)
    requires page >= 1
    ensures var r := GetUsers(db, page, limit, search, systemRole, status, matches);
            var rows := Filter(db.accounts, IsListedUser(search, systemRole, status, matches));
            |r.0| == (if Offset(page, limit) >= |rows| then 0
                      else if |rows| - Offset(page, limit) < limit then |rows| - Offset(page, limit)
                      else limit)
            && forall i :: 0 <= i < |r.0| ==>
                 Offset(page, limit) + i < |rows| && r.0[i] == BuildUserView(rows[Offset(page, limit) + i])
  {
    var rows := Filter(db.accounts, IsListedUser(search, systemRole, status, matches));
    assert GetUsers(db, page, limit, search, systemRole, status, matches).0 == Views(Page(rows, page, limit));
  }

  function Views(accounts: seq<Account>): (r: seq<UserView>)
    ensures |r| == |accounts|
    ensures forall i :: 0 <= i < |r| ==> r[i] == BuildUserView(accounts[i])
    ensures forall v :: v in r ==> exists a :: a in accounts && v == BuildUserView(a)
  {
    if |accounts| == 0 then [] else [BuildUserView(accounts[0])] + Views(accounts[1..])
  }

  /** An invalid role filter is ignored: the listing is the same as with no
      role filter at all. */
  lemma InvalidRoleFilterIgnored(db: Db, page: int, limit: nat, search: string, systemRole: string,
                                 status: string, matches: (string, string) -> bool)
    requires page >= 1
    requires !IsValidRole(Some(systemRole))
    ensures GetUsers(db, page, limit, search, systemRole, status, matches)
            == GetUsers(db, page, limit, search, "", status, matches)
  {
    FilterSame(db.accounts, IsListedUser(search, systemRole, status, matches),
               IsListedUser(search, "", status, matches));
  }

  /** One workspace of a user's detail view. */
  datatype UserWorkspace = UserWorkspace(id: Id, name: string, role: WorkspaceRole, current: bool)

  /** `_get_user_workspaces`: the user's joins paired with their tenant rows,
      whatever the tenant's status. */
  function UserWorkspaces(tenants: seq<Tenant>, joins: seq<Join>, userId: Id): (r: seq<UserWorkspace>)
    ensures forall w :: w in r ==>
              Join(w.id, userId, w.role, w.current) in joins
              && exists t :: t in tenants && t.id == w.id && t.name == w.name
    ensures UniqueTenantIds(tenants) ==> |r| <= |joins|
  {
    if |joins| == 0 then []
    else
      var j := joins[0];
      var rest := UserWorkspaces(tenants, joins[1..], userId);
      if j.accountId == userId then
        assert j == Join(j.tenantId, userId, j.role, j.current);
        var here := TenantsOfJoin(tenants, j);
        assert UniqueTenantIds(tenants) ==> |here| <= 1 by {
          if UniqueTenantIds(tenants) { TenantsOfJoinAtMostOne(tenants, j); }
        }
        here + rest
      else rest
  }

  /** The tenant rows a join row matches on the tenant id. */
  function TenantsOfJoin(tenants: seq<Tenant>, j: Join): (r: seq<UserWorkspace>)
    ensures forall w :: w in r ==> w.id == j.tenantId && w.role == j.role && w.current == j.current
                                   && exists t :: t in tenants && t.id == w.id && t.name == w.name
    ensures FindTenant(tenants, j.tenantId).Some? <==> |r| > 0
    ensures forall t :: t in tenants && t.id == j.tenantId ==> UserWorkspace(t.id, t.name, j.role, j.current) in r
  {
    if |tenants| == 0 then []
    else
      var rest := TenantsOfJoin(tenants[1..], j);
      assert forall x :: x in tenants <==> x == tenants[0] || x in tenants[1..];
      if tenants[0].id == j.tenantId then
        [UserWorkspace(tenants[0].id, tenants[0].name, j.role, j.current)] + rest
      else rest
  }

  lemma {:induction false} TenantsOfJoinAtMostOne(tenants: seq<Tenant>, j: Join)
    requires UniqueTenantIds(tenants)
    ensures |TenantsOfJoin(tenants, j)| <= 1
  {
    if |tenants| > 0 {
      assert UniqueTenantIds(tenants[1..]);
      TenantsOfJoinAtMostOne(tenants[1..], j);
    }
  }

  /** The account's joins. */
  function IsJoinOfAccount(accountId: Id): Join -> bool {
    (j: Join) => j.accountId == accountId
  }

  /** Every join of the user to an existing tenant row yields an entry with
      that tenant's name and the join's role. */
  lemma {:induction false} UserWorkspacesComplete(tenants: seq<Tenant>, joins: seq<Join>, userId: Id,
                                                  j: Join, t: Tenant)
    requires j in joins && j.accountId == userId
    requires t in tenants && t.id == j.tenantId
    ensures UserWorkspace(t.id, t.name, j.role, j.current) in UserWorkspaces(tenants, joins, userId)
  {
    if joins[0] != j {
      assert j in joins[1..];
      UserWorkspacesComplete(tenants, joins[1..], userId, j, t);
    }
  }

  /** With unique tenant ids and every join of the user pointing at a
      tenant row, the user has exactly one entry per join. */
  lemma {:induction false} UserWorkspacesCount(tenants: seq<Tenant>, joins: seq<Join>, userId: Id)
    requires UniqueTenantIds(tenants)
    requires forall j :: j in joins && j.accountId == userId ==> FindTenant(tenants, j.tenantId).Some?
    ensures |UserWorkspaces(tenants, joins, userId)| == CountWhere(joins, IsJoinOfAccount(userId))
  {
    if |joins| > 0 {
      assert forall j :: j in joins[1..] ==> j in joins;
      UserWorkspacesCount(tenants, joins[1..], userId);
      if joins[0].accountId == userId {
        assert joins[0] in joins;
        TenantsOfJoinAtMostOne(tenants, joins[0]);
      }
    }
  }

  /** The detail view: the account and its workspaces. */
  datatype UserDetail = UserDetail(user: UserView, workspaces: seq<UserWorkspace>)

  /** `get_user_by_id`: `None` for a missing account. */
  function GetUserById(db: Db, userId: Id): (r: Option<UserDetail>)
    ensures r.None? <==> FindAccount(db.accounts, userId).None?
    ensures r.Some? ==> r.value.user == BuildUserView(FindAccount(db.accounts, userId).value)
                        && r.value.user.id == userId
    ensures r.Some? ==> forall w :: w in r.value.workspaces ==>
                          IsMember(db.joins, w.id, userId) && FindTenant(db.tenants, w.id).Some?
  {
    match FindAccount(db.accounts, userId)
    case None => None
    case Some(a) =>
      var ws := UserWorkspaces(db.tenants, db.joins, userId);
      assert forall w :: w in ws ==> IsJoinOf(Join(w.id, userId, w.role, w.current), w.id, userId);
      Some(UserDetail(BuildUserView(a), ws))
  }

  /** In a well-formed database the detail view of an existing user lists
      every workspace the user has joined, with the join's role, once per
      join. */
  lemma UserDetailListsEveryJoin(db: Db, userId: Id)
    requires WellFormed(db) && FindAccount(db.accounts, userId).Some?
    ensures var ws := GetUserById(db, userId).value.workspaces;
            |ws| == CountWhere(db.joins, IsJoinOfAccount(userId))
            && forall j :: j in db.joins && j.accountId == userId ==>
                 exists w :: w in ws && w.id == j.tenantId && w.role == j.role && w.current == j.current
  {
    UserWorkspacesCount(db.tenants, db.joins, userId);
    forall j | j in db.joins && j.accountId == userId
      ensures exists w :: w in GetUserById(db, userId).value.workspaces
                          && w.id == j.tenantId && w.role == j.role && w.current == j.current
    {
      var t := FindTenant(db.tenants, j.tenantId).value;
      UserWorkspacesComplete(db.tenants, db.joins, userId, j, t);
    }
  }
}
