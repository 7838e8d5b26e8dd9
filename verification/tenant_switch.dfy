/** Switching the current workspace, extended so that an account that may
    see every workspace can enter one it has not joined
    (`CustomTenantServiceExt.switch_tenant`). The base service's switch is
    the parameter `ordinarySwitch`. */
module TenantSwitch {
  import opened Base
  import opened Store
  import opened PermissionService

  /** The outcome of a switch: the tenant entered and whether the account
      is a member of it, or one of the two raised errors. */
  datatype SwitchResult =
    | Switched(tenant: Tenant, isMember: bool, db: Db)
    | TenantNotFound
    | AccountNotLinked

  /** The messages the two errors carry. */
  function ErrorMessage(r: SwitchResult): string {
    match r
    case TenantNotFound => "Tenant not found or archived"
    case AccountNotLinked => "Account is not a member of this workspace"
    case Switched(_, _, _) => ""
  }

  /** `_set_tenant_for_super_admin`: every join of the account loses its
      `current` flag. */
  function ClearCurrent(joins: seq<Join>, accountId: Id): (r: seq<Join>)
    ensures |r| == |joins|
    ensures forall i :: 0 <= i < |r| ==>
              r[i] == (if joins[i].accountId == accountId then joins[i].(current := false) else joins[i])
  {
    if |joins| == 0 then []
    else
      var j := joins[0];
      [if j.accountId == accountId then j.(current := false) else j] + ClearCurrent(joins[1..], accountId)
  }

  /** `switch_tenant`: a missing or archived tenant is an error; a member
      takes the ordinary switch; a non-member is refused unless it may see
      every workspace, in which case it enters without a join being
      created and none of its joins stays current. */
  function SwitchTenant(enabled: bool, db: Db, account: Account, tenantId: Id,
                        ordinarySwitch: (Db, Id, Id) -> Db): (r: SwitchResult)
    ensures FindNormalTenant(db.tenants, tenantId).None? <==> r == TenantNotFound
    ensures r == AccountNotLinked <==>
              FindNormalTenant(db.tenants, tenantId).Some? && !IsMember(db.joins, tenantId, account.id)
              && !CanAccessAllWorkspacesAccount(enabled, account)
    ensures r.Switched? ==> r.tenant.id == tenantId && r.tenant.status == TenantNormal
                            && (r.isMember <==> IsMember(db.joins, tenantId, account.id))
    ensures r.Switched? && r.isMember ==> r.db == ordinarySwitch(db, account.id, tenantId)
    ensures r.Switched? && !r.isMember ==>
              r.db.accounts == db.accounts && r.db.tenants == db.tenants && |r.db.joins| == |db.joins|
              && !IsMember(r.db.joins, tenantId, account.id)
              && forall i :: 0 <= i < |r.db.joins| && r.db.joins[i].accountId == account.id ==>
                   !r.db.joins[i].current
  {
    match FindNormalTenant(db.tenants, tenantId)
    case None => TenantNotFound
    case Some(tenant) =>
      if IsMember(db.joins, tenantId, account.id) then
        Switched(tenant, true, ordinarySwitch(db, account.id, tenantId))
      else if !CanAccessAllWorkspacesAccount(enabled, account) then AccountNotLinked
      else
        var joins := ClearCurrent(db.joins, account.id);
        assert forall j :: j in joins ==> !IsJoinOf(j, tenantId, account.id) by {
          forall j | j in joins ensures !IsJoinOf(j, tenantId, account.id) {
            var i :| 0 <= i < |joins| && joins[i] == j;
            assert db.joins[i] in db.joins;
          }
        }
        Switched(tenant, false, db.(joins := joins))
  }

  /** Entering an unjoined workspace leaves every membership, and every
      other account's joins, exactly as they were. */
  lemma UnjoinedSwitchKeepsMemberships(enabled: bool, db: Db, account: Account, tenantId: Id,
                                       ordinarySwitch: (Db, Id, Id) -> Db, t: Id, u: Id)
    requires SwitchTenant(enabled, db, account, tenantId, ordinarySwitch).Switched?
    requires !SwitchTenant(enabled, db, account, tenantId, ordinarySwitch).isMember
    ensures var after := SwitchTenant(enabled, db, account, tenantId, ordinarySwitch).db;
            (IsMember(after.joins, t, u) <==> IsMember(db.joins, t, u))
            && OwnerCount(after.joins, t) == OwnerCount(db.joins, t)
  {
    var r := SwitchTenant(enabled, db, account, tenantId, ordinarySwitch);
    assert r.db == db.(joins := ClearCurrent(db.joins, account.id));
    ClearCurrentKeepsMemberships(db.joins, account.id, t, u);
  }

  /** Clearing the `current` flags keeps every membership and every owner
      count. */
  lemma ClearCurrentKeepsMemberships(joins: seq<Join>, accountId: Id, t: Id, u: Id)
    ensures IsMember(ClearCurrent(joins, accountId), t, u) <==> IsMember(joins, t, u)
    ensures OwnerCount(ClearCurrent(joins, accountId), t) == OwnerCount(joins, t)
  {
    var after := ClearCurrent(joins, accountId);
    if IsMember(joins, t, u) {
      var i :| 0 <= i < |joins| && IsJoinOf(joins[i], t, u);
      assert after[i] in after;
    }
    if IsMember(after, t, u) {
      var i :| 0 <= i < |after| && IsJoinOf(after[i], t, u);
      assert joins[i] in joins;
    }
    CountMapSame(after, joins, IsOwnerOf(t));
  }

  /** A non-member without the all-workspaces capability never gets in,
      whatever the feature flag, and a member always does. */
  lemma MembershipDecidesForOrdinaryAccounts(enabled: bool, db: Db, account: Account, t: Tenant,
                                             ordinarySwitch: (Db, Id, Id) -> Db)
    requires t in db.tenants && t.status == TenantNormal
    ensures IsMember(db.joins, t.id, account.id) ==>
              SwitchTenant(enabled, db, account, t.id, ordinarySwitch).Switched?
    ensures !IsMember(db.joins, t.id, account.id) && account.systemRole != Some("super_admin") ==>
              SwitchTenant(enabled, db, account, t.id, ordinarySwitch) == AccountNotLinked
  {
  }
}
