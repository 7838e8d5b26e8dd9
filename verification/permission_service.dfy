/** System-level permission checks and workspace visibility
    (`CustomSystemPermissionService`). The multi-workspace feature flag is
    the parameter `enabled`. */
module PermissionService {
  import opened Base
  import opened Store
  import opened SystemRoles

  /** `get_system_role`: `Normal` while the feature is off; otherwise the
      stored role when it is a valid role value, and `Normal` for a missing,
      empty or unknown value. */
  function GetSystemRole(enabled: bool, account: Account): (r: SystemRole)
    ensures !enabled ==> r == Normal
    ensures enabled && IsValidRole(account.systemRole) ==> Some(Value(r)) == account.systemRole
    ensures !IsValidRole(account.systemRole) ==> r == Normal
  {
    if !enabled then Normal
    else if IsValidRole(account.systemRole) then FromValue(account.systemRole.value).value
    else Normal
  }

  /** `is_super_admin`. */
  function IsSuperAdminAccount(enabled: bool, account: Account): (b: bool)
    ensures b <==> enabled && account.systemRole == Some("super_admin")
  {
    SystemRoles.IsSuperAdmin(Some(GetSystemRole(enabled, account)))
  }

  /** `can_access_all_workspaces`. */
  function CanAccessAllWorkspacesAccount(enabled: bool, account: Account): (b: bool)
    ensures b <==> enabled && account.systemRole == Some("super_admin")
  {
    enabled && SystemRoles.CanAccessAllWorkspaces(Some(GetSystemRole(enabled, account)))
  }

  /** `can_manage_users`. */
  function CanManageUsersAccount(enabled: bool, account: Account): (b: bool)
    ensures b <==> enabled && account.systemRole == Some("super_admin")
  {
    enabled && SystemRoles.CanManageUsers(Some(GetSystemRole(enabled, account)))
  }

  /** `can_assign_members`. */
  function CanAssignMembersAccount(enabled: bool, account: Account): (b: bool)
    ensures b <==> enabled && account.systemRole == Some("super_admin")
  {
    enabled && SystemRoles.CanAssignMembers(Some(GetSystemRole(enabled, account)))
  }

  /** Every account reads as `Normal` while the feature is off, and no
      capability is granted; the stored value is irrelevant. */
  lemma DisabledMeansNormal(a: Account, b: Account)
    ensures GetSystemRole(false, a) == GetSystemRole(false, b) == Normal
    ensures !IsSuperAdminAccount(false, a) && !CanAccessAllWorkspacesAccount(false, a)
            && !CanManageUsersAccount(false, a) && !CanAssignMembersAccount(false, a)
  {
  }

  /** With the feature on, the capability checks all coincide with
      super-admin status. */
  lemma CapabilitiesCoincide(enabled: bool, a: Account)
    ensures IsSuperAdminAccount(enabled, a) == CanAccessAllWorkspacesAccount(enabled, a)
            == CanManageUsersAccount(enabled, a) == CanAssignMembersAccount(enabled, a)
  {
  }

  /** One entry of the accessible-workspace list: the tenant and the
      account's role in it, if joined. */
  datatype WorkspaceAccess = WorkspaceAccess(tenant: Tenant, role: Option<WorkspaceRole>)

  /** The role of the LAST join of the pair: the value a Python dict built
      from all the account's joins keeps for the tenant. */
  function LastJoinRole(joins: seq<Join>, tenantId: Id, accountId: Id): (r: Option<WorkspaceRole>)
    ensures r.None? <==> !IsMember(joins, tenantId, accountId)
    ensures r.Some? ==> Join(tenantId, accountId, r.value, false) in joins
                        || Join(tenantId, accountId, r.value, true) in joins
  {
    if |joins| == 0 then None
    else
      var j := joins[|joins| - 1];
      var init := joins[..|joins| - 1];
      assert forall x :: x in joins <==> x in init || x == j;
      if IsJoinOf(j, tenantId, accountId) then
        assert j == Join(tenantId, accountId, j.role, j.current);
        Some(j.role)
      else LastJoinRole(init, tenantId, accountId)
  }

  /** The status filter of the tenant query. */
  function IsNormalTenant(): Tenant -> bool {
    (t: Tenant) => t.status == TenantNormal
  }

  /** `_get_all_workspaces_with_role`: every normal tenant row, once and in
      table order, with the role the account's joins map it to (the last
      join wins, as in the dict comprehension), or `None` where it has not
      joined. */
  function AllWorkspacesWithRole(db: Db, accountId: Id): (r: seq<WorkspaceAccess>)
    ensures forall w :: w in r ==> w.tenant in db.tenants && w.tenant.status == TenantNormal
    ensures forall t :: t in db.tenants && t.status == TenantNormal ==>
              exists w :: w in r && w.tenant == t
    ensures |r| == CountWhere(db.tenants, IsNormalTenant())
    ensures forall i :: 0 <= i < |r| ==> r[i].tenant == Filter(db.tenants, IsNormalTenant())[i]
    ensures forall w :: w in r ==> w.role == LastJoinRole(db.joins, w.tenant.id, accountId)
    ensures forall w :: w in r ==> (w.role.None? <==> !IsMember(db.joins, w.tenant.id, accountId))
  {
    AllWithRole(db.tenants, db.joins, accountId)
  }

  /** The query's normal tenants, each paired with the account's role. */
  function AllWithRole(tenants: seq<Tenant>, joins: seq<Join>, accountId: Id): (r: seq<WorkspaceAccess>)
    ensures forall w :: w in r ==> w.tenant in tenants && w.tenant.status == TenantNormal
    ensures forall t :: t in tenants && t.status == TenantNormal ==> exists w :: w in r && w.tenant == t
    ensures |r| == CountWhere(tenants, IsNormalTenant())
    ensures forall i :: 0 <= i < |r| ==> r[i].tenant == Filter(tenants, IsNormalTenant())[i]
    ensures forall w :: w in r ==> w.role == LastJoinRole(joins, w.tenant.id, accountId)
  {
    var normal := Filter(tenants, IsNormalTenant());
    WithRoles(normal, joins, accountId)
  }

  /** The loop over the tenant rows: one entry per tenant, in order. */
  function WithRoles(tenants: seq<Tenant>, joins: seq<Join>, accountId: Id): (r: seq<WorkspaceAccess>)
    ensures |r| == |tenants|
    ensures forall i :: 0 <= i < |r| ==> r[i] == WorkspaceAccess(tenants[i], LastJoinRole(joins, tenants[i].id, accountId))
    ensures forall w :: w in r ==> w.tenant in tenants
    ensures forall t :: t in tenants ==> WorkspaceAccess(t, LastJoinRole(joins, t.id, accountId)) in r
  {
    if |tenants| == 0 then []
    else [WorkspaceAccess(tenants[0], LastJoinRole(joins, tenants[0].id, accountId))]
         + WithRoles(tenants[1..], joins, accountId)
  }

  /** `_get_joined_workspaces_with_role`: the inner join of the account's
      joins with the normal tenants, in join order. A join matches every
      tenant row with its id. */
  function JoinedWorkspacesWithRole(db: Db, accountId: Id): (r: seq<WorkspaceAccess>)
    ensures forall w :: w in r ==>
              w.tenant in db.tenants && w.tenant.status == TenantNormal && w.role.Some?
              && (Join(w.tenant.id, accountId, w.role.value, false) in db.joins
                  || Join(w.tenant.id, accountId, w.role.value, true) in db.joins)
    ensures forall w :: w in r ==> IsMember(db.joins, w.tenant.id, accountId)
  {
    JoinedWithRole(db.tenants, db.joins, accountId)
  }

  function JoinedWithRole(tenants: seq<Tenant>, joins: seq<Join>, accountId: Id): (r: seq<WorkspaceAccess>)
    ensures forall w :: w in r ==>
              w.tenant in tenants && w.tenant.status == TenantNormal && w.role.Some?
              && (Join(w.tenant.id, accountId, w.role.value, false) in joins
                  || Join(w.tenant.id, accountId, w.role.value, true) in joins)
  {
    if |joins| == 0 then []
    else
      var j := joins[0];
      var rest := JoinedWithRole(tenants, joins[1..], accountId);
      if j.accountId == accountId then
        assert j == Join(j.tenantId, accountId, j.role, j.current);
        MatchingTenants(tenants, j) + rest
      else rest
  }

  /** The normal tenants with the join's tenant id, each paired with the
      join's role. */
  function MatchingTenants(tenants: seq<Tenant>, j: Join): (r: seq<WorkspaceAccess>)
    ensures forall w :: w in r ==>
              w.tenant in tenants && w.tenant.status == TenantNormal && w.tenant.id == j.tenantId
              && w.role == Some(j.role)
    ensures forall t :: t in tenants && t.id == j.tenantId && t.status == TenantNormal ==>
              WorkspaceAccess(t, Some(j.role)) in r
  {
    if |tenants| == 0 then []
    else
      var rest := MatchingTenants(tenants[1..], j);
      assert forall x :: x in tenants <==> x == tenants[0] || x in tenants[1..];
      if tenants[0].id == j.tenantId && tenants[0].status == TenantNormal then
        [WorkspaceAccess(tenants[0], Some(j.role))] + rest
      else rest
  }

  /** `get_accessible_workspaces`: every normal workspace for an account
      that may see all of them, otherwise only the joined ones. */
  function GetAccessibleWorkspaces(enabled: bool, db: Db, account: Account): (r: seq<WorkspaceAccess>)
    ensures forall w :: w in r ==> w.tenant in db.tenants && w.tenant.status == TenantNormal
    ensures !CanAccessAllWorkspacesAccount(enabled, account) ==>
              forall w :: w in r ==> w.role.Some? && IsMember(db.joins, w.tenant.id, account.id)
                                     && (Join(w.tenant.id, account.id, w.role.value, false) in db.joins
                                         || Join(w.tenant.id, account.id, w.role.value, true) in db.joins)
    ensures CanAccessAllWorkspacesAccount(enabled, account) ==>
              (forall t :: t in db.tenants && t.status == TenantNormal ==> exists w :: w in r && w.tenant == t)
              && |r| == CountWhere(db.tenants, IsNormalTenant())
              && forall w :: w in r ==> w.role == LastJoinRole(db.joins, w.tenant.id, account.id)
  {
    if CanAccessAllWorkspacesAccount(enabled, account) then AllWorkspacesWithRole(db, account.id)
    else JoinedWorkspacesWithRole(db, account.id)
  }

  /** A joined normal workspace is visible to every account, whatever its
      system role. */
  lemma {:induction false} JoinedWorkspaceIsVisible(db: Db, account: Account, t: Tenant, role: WorkspaceRole, current: bool)
    requires t in db.tenants && t.status == TenantNormal
    requires Join(t.id, account.id, role, current) in db.joins
    ensures exists w :: w in GetAccessibleWorkspaces(true, db, account) && w.tenant == t
  {
    if !CanAccessAllWorkspacesAccount(true, account) {
      JoinedWithRoleComplete(db.tenants, db.joins, account.id, t, role, current);
      assert WorkspaceAccess(t, Some(role)) in GetAccessibleWorkspaces(true, db, account);
    }
  }

  /** Every join of the account to a normal tenant shows up in the inner
      join. */
  lemma {:induction false} JoinedWithRoleComplete(tenants: seq<Tenant>, joins: seq<Join>, accountId: Id,
                                                  t: Tenant, role: WorkspaceRole, current: bool)
    requires t in tenants && t.status == TenantNormal
    requires Join(t.id, accountId, role, current) in joins
    ensures WorkspaceAccess(t, Some(role)) in JoinedWithRole(tenants, joins, accountId)
  {
    var j := Join(t.id, accountId, role, current);
    if joins[0] == j {
      assert WorkspaceAccess(t, Some(role)) in MatchingTenants(tenants, j);
    } else {
      assert j in joins[1..];
      JoinedWithRoleComplete(tenants, joins[1..], accountId, t, role, current);
    }
  }

  /** No tenant id is listed twice. */
  predicate EachTenantOnce(r: seq<WorkspaceAccess>) {
    forall i, k :: 0 <= i < k < |r| ==> r[i].tenant.id != r[k].tenant.id
  }

  /** At most one entry for a tenant no other entry names keeps every
      tenant listed once. */
  lemma PrependOtherTenant(m: seq<WorkspaceAccess>, rest: seq<WorkspaceAccess>, id: Id)
    requires |m| <= 1 && forall w :: w in m ==> w.tenant.id == id
    requires forall w :: w in rest ==> w.tenant.id != id
    requires EachTenantOnce(rest)
    ensures EachTenantOnce(m + rest)
  {
    var r := m + rest;
    forall i, k | 0 <= i < k < |r| ensures r[i].tenant.id != r[k].tenant.id {
      if i < |m| {
        assert r[i] == m[i] && m[i] in m;
        assert r[k] == rest[k - |m|] && rest[k - |m|] in rest;
      } else {
        assert r[i] == rest[i - |m|] && r[k] == rest[k - |m|];
      }
    }
  }

  /** A selection of a table with unique tenant ids has unique ids. */
  lemma {:induction false} FilterKeepsUniqueIds(tenants: seq<Tenant>, p: Tenant -> bool)
    requires UniqueTenantIds(tenants)
    ensures UniqueTenantIds(Filter(tenants, p))
  {
    if |tenants| > 0 {
      assert UniqueTenantIds(tenants[1..]);
      FilterKeepsUniqueIds(tenants[1..], p);
      var rest := Filter(tenants[1..], p);
      forall t | t in rest ensures t.id != tenants[0].id {
        var m :| 0 <= m < |tenants[1..]| && tenants[1..][m] == t;
        assert tenants[m + 1] == t;
      }
      var f := Filter(tenants, p);
      if p(tenants[0]) {
        forall i, k | 0 <= i < k < |f| ensures f[i].id != f[k].id {
          assert f[k] == rest[k - 1];
          assert rest[k - 1] in rest;
          if i > 0 { assert f[i] == rest[i - 1]; }
        }
      }
    }
  }

  /** With unique tenant ids, the all-workspaces listing names each tenant
      once. */
  lemma AllWithRoleEachOnce(tenants: seq<Tenant>, joins: seq<Join>, accountId: Id)
    requires UniqueTenantIds(tenants)
    ensures EachTenantOnce(AllWithRole(tenants, joins, accountId))
  {
    FilterKeepsUniqueIds(tenants, IsNormalTenant());
  }

  /** With unique tenant ids and unique joins, the joined-workspaces listing
      names each tenant once. */
  lemma {:induction false} JoinedWithRoleEachOnce(tenants: seq<Tenant>, joins: seq<Join>, accountId: Id)
    requires UniqueTenantIds(tenants) && UniqueJoins(joins)
    ensures EachTenantOnce(JoinedWithRole(tenants, joins, accountId))
  {
    if |joins| > 0 {
      var j := joins[0];
      var rest := JoinedWithRole(tenants, joins[1..], accountId);
      assert UniqueJoins(joins[1..]);
      JoinedWithRoleEachOnce(tenants, joins[1..], accountId);
      if j.accountId == accountId {
        var m := MatchingTenants(tenants, j);
        MatchingTenantsAtMostOne(tenants, j);
        forall w | w in rest ensures w.tenant.id != j.tenantId {
          var x :| x in joins[1..] && x == Join(w.tenant.id, accountId, w.role.value, x.current);
          var n :| 0 <= n < |joins[1..]| && joins[1..][n] == x;
          assert joins[n + 1] == x;
        }
        assert JoinedWithRole(tenants, joins, accountId) == m + rest;
        PrependOtherTenant(m, rest, j.tenantId);
      }
    }
  }

  /** With unique tenant ids at most one tenant row matches a join. */
  lemma {:induction false} MatchingTenantsAtMostOne(tenants: seq<Tenant>, j: Join)
    requires UniqueTenantIds(tenants)
    ensures |MatchingTenants(tenants, j)| <= 1
  {
    if |tenants| > 0 {
      assert UniqueTenantIds(tenants[1..]);
      MatchingTenantsAtMostOne(tenants[1..], j);
      if tenants[0].id == j.tenantId && tenants[0].status == TenantNormal {
        MatchingTenantsNone(tenants[1..], j);
      }
    }
  }

  /** No tenant row after the one with the join's id matches it again. */
  lemma {:induction false} MatchingTenantsNone(tenants: seq<Tenant>, j: Join)
    requires forall t :: t in tenants ==> t.id != j.tenantId
    ensures MatchingTenants(tenants, j) == []
  {
    if |tenants| > 0 {
      assert tenants[0] in tenants;
      assert forall t :: t in tenants[1..] ==> t in tenants;
      MatchingTenantsNone(tenants[1..], j);
    }
  }

  /** The listing an account sees names each workspace once, whichever branch
      is taken, provided ids and joins are unique. */
  lemma AccessibleWorkspacesEachOnce(enabled: bool, db: Db, account: Account)
    requires UniqueTenantIds(db.tenants) && UniqueJoins(db.joins)
    ensures EachTenantOnce(GetAccessibleWorkspaces(enabled, db, account))
  {
    if CanAccessAllWorkspacesAccount(enabled, account) {
      AllWithRoleEachOnce(db.tenants, db.joins, account.id);
    } else {
      assert GetAccessibleWorkspaces(enabled, db, account) == JoinedWithRole(db.tenants, db.joins, account.id);
      JoinedWithRoleEachOnce(db.tenants, db.joins, account.id);
    }
  }

  /** `get_user_role_in_workspace`: the role of the first join of the pair,
      or `None` for a non-member. */
  function GetUserRoleInWorkspace(db: Db, account: Account, tenantId: Id): (r: Option<WorkspaceRole>)
    ensures r.None? <==> !IsMember(db.joins, tenantId, account.id)
    ensures r.Some? ==> exists k :: 0 <= k < |db.joins| && IsJoinOf(db.joins[k], tenantId, account.id)
                                    && db.joins[k].role == r.value
  {
    match JoinIndex(db.joins, tenantId, account.id)
    case None =>
      assert forall j :: j in db.joins ==> !IsJoinOf(j, tenantId, account.id);
      None
    case Some(k) =>
      assert db.joins[k] in db.joins;
      Some(db.joins[k].role)
  }

  /** Under unique joins, the role reported per workspace and the role of
      the single-workspace query agree. */
  lemma {:induction false} LastAndFirstJoinAgree(joins: seq<Join>, tenantId: Id, accountId: Id)
    requires UniqueJoins(joins)
    ensures LastJoinRole(joins, tenantId, accountId)
            == GetUserRoleInWorkspace(Db([], [], joins), Account(accountId, "", "", "", None), tenantId)
  {
    var first := JoinIndex(joins, tenantId, accountId);
    if |joins| > 0 {
      var init := joins[..|joins| - 1];
      var j := joins[|joins| - 1];
      assert UniqueJoins(init);
      LastAndFirstJoinAgree(init, tenantId, accountId);
      if IsJoinOf(j, tenantId, accountId) {
        assert first.Some?;
        assert first.value == |joins| - 1;
      } else {
        JoinIndexOfPrefix(joins, tenantId, accountId);
      }
    }
  }

  /** Dropping a last row that is not of the pair leaves the first match
      of the pair where it was. */
  lemma {:induction false} JoinIndexOfPrefix(joins: seq<Join>, tenantId: Id, accountId: Id)
    requires |joins| > 0 && !IsJoinOf(joins[|joins| - 1], tenantId, accountId)
    ensures JoinIndex(joins[..|joins| - 1], tenantId, accountId) == JoinIndex(joins, tenantId, accountId)
  {
    var init := joins[..|joins| - 1];
    if |joins| > 1 && !IsJoinOf(joins[0], tenantId, accountId) {
      assert joins[1..][..|joins| - 2] == init[1..];
      JoinIndexOfPrefix(joins[1..], tenantId, accountId);
    }
  }

  /** `update_system_role`: false while the feature is off or for a missing
      account; otherwise the first row with the id takes the new role's
      value and nothing else changes. */
  function UpdateSystemRole(enabled: bool, db: Db, accountId: Id, newRole: SystemRole): (r: (bool, Db))
    ensures r.0 <==> enabled && FindAccount(db.accounts, accountId).Some?
    ensures !r.0 ==> r.1 == db
    ensures r.0 ==> r.1.tenants == db.tenants && r.1.joins == db.joins
                    && |r.1.accounts| == |db.accounts|
                    && FindAccount(r.1.accounts, accountId).Some?
                    && FindAccount(r.1.accounts, accountId).value.systemRole == Some(Value(newRole))
                    && GetSystemRole(true, FindAccount(r.1.accounts, accountId).value) == newRole
    ensures r.0 ==> AccountIndex(db.accounts, accountId).Some?
                    && r.1 == db.(accounts := db.accounts[AccountIndex(db.accounts, accountId).value :=
                                    db.accounts[AccountIndex(db.accounts, accountId).value].(systemRole := Some(Value(newRole)))])
  {
    if !enabled then (false, db)
    else match AccountIndex(db.accounts, accountId)
      case None => (false, db)
      case Some(i) =>
        var a := db.accounts[i];
        var accounts := db.accounts[i := a.(systemRole := Some(Value(newRole)))];
        AccountIndexAfterUpdate(db.accounts, i, a.(systemRole := Some(Value(newRole))));
        ValueRoundTrip(newRole, Value(newRole));
        (true, db.(accounts := accounts))
  }
}
