/** The client-side rules for acting on other users
    (web/hooks/custom/use-custom-admin-permissions.ts). The translation
    function `t` is a parameter: a refusal carries `t` of its message key.
    Roles are the raw strings the client compares. */
module AdminPermissions {
  import opened Base
  import Store
  import UserService

  /** `PermissionCheckResult`: allowed, or refused with a reason. */
  datatype CheckResult = CheckResult(allowed: bool, reason: Option<string>)

  const CannotDemoteSelf: string := "admin.cannotDemoteSelf"
  const CannotDemoteSystemAdmin: string := "admin.cannotDemoteSystemAdmin"
  const CannotDisableSelf: string := "admin.cannotDisableSelf"
  const CannotDisableSystemAdmin: string := "admin.cannotDisableSystemAdmin"
  const CannotDeleteSelf: string := "admin.cannotDeleteSelf"
  const CannotDeleteSystemAdmin: string := "admin.cannotDeleteSystemAdmin"

  /** The refusal with the translated message of `key`. */
  function Deny(t: string -> string, key: string): CheckResult {
    CheckResult(false, Some(t(key)))
  }

  /** `canChangeRole`: nobody changes their own role; a system_admin may
      only be "changed" to system_admin. The self rule is checked first. */
  function CanChangeRole(currentUserId: string, t: string -> string,
                         targetUserId: string, targetRole: string, newRole: string): (r: CheckResult)
    ensures r.allowed <==> targetUserId != currentUserId
                           && !(targetRole == "system_admin" && newRole != "system_admin")
    ensures r.allowed <==> r.reason.None?
    ensures targetUserId == currentUserId ==> r.reason == Some(t(CannotDemoteSelf))
    ensures targetUserId != currentUserId && !r.allowed ==> r.reason == Some(t(CannotDemoteSystemAdmin))
  {
    if targetUserId == currentUserId then Deny(t, CannotDemoteSelf)
    else if targetRole == "system_admin" && newRole != "system_admin" then Deny(t, CannotDemoteSystemAdmin)
    else CheckResult(true, None)
  }

  /** `canChangeStatus`: only a ban is ever refused, of oneself or of a
      system_admin, with the self rule first. */
  function CanChangeStatus(currentUserId: string, t: string -> string,
                           targetUserId: string, targetRole: string, newStatus: string): (r: CheckResult)
    ensures newStatus != "banned" ==> r.allowed
    ensures r.allowed <==> !(newStatus == "banned" && (targetUserId == currentUserId || targetRole == "system_admin"))
    ensures r.allowed <==> r.reason.None?
    ensures newStatus == "banned" && targetUserId == currentUserId ==> r.reason == Some(t(CannotDisableSelf))
    ensures newStatus == "banned" && targetUserId != currentUserId && targetRole == "system_admin" ==>
              r.reason == Some(t(CannotDisableSystemAdmin))
  {
    if targetUserId == currentUserId && newStatus == "banned" then Deny(t, CannotDisableSelf)
    else if targetRole == "system_admin" && newStatus == "banned" then Deny(t, CannotDisableSystemAdmin)
    else CheckResult(true, None)
  }

  /** `canDeleteUser`: refused for oneself and for a system_admin, with the
      self rule first. */
  function CanDeleteUser(currentUserId: string, t: string -> string,
                         targetUserId: string, targetRole: string): (r: CheckResult)
    ensures r.allowed <==> targetUserId != currentUserId && targetRole != "system_admin"
    ensures r.allowed <==> r.reason.None?
    ensures targetUserId == currentUserId ==> r.reason == Some(t(CannotDeleteSelf))
    ensures targetUserId != currentUserId && targetRole == "system_admin" ==>
              r.reason == Some(t(CannotDeleteSystemAdmin))
  {
    if targetUserId == currentUserId then Deny(t, CannotDeleteSelf)
    else if targetRole == "system_admin" then Deny(t, CannotDeleteSystemAdmin)
    else CheckResult(true, None)
  }

  /** `getRoleOptionDisabledReason`: why an entry of the role drop-down is
      greyed out, or `None` when it can be picked. */
  function RoleOptionDisabledReason(currentUserId: string, t: string -> string,
                                    targetUserId: string, targetRole: string, optionRole: string)
    : (r: Option<string>)
    ensures r.None? <==> targetUserId != currentUserId
                         && !(targetRole == "system_admin" && optionRole != "system_admin")
    ensures targetUserId == currentUserId ==> r == Some(t(CannotDemoteSelf))
    ensures targetUserId != currentUserId && r.Some? ==> r == Some(t(CannotDemoteSystemAdmin))
  {
    if targetUserId == currentUserId then Some(t(CannotDemoteSelf))
    else if targetRole == "system_admin" && optionRole != "system_admin" then Some(t(CannotDemoteSystemAdmin))
    else None
  }

  /** The drop-down greys out exactly the roles `canChangeRole` refuses, with
      the same reason. */
  lemma OptionDisabledIffChangeRefused(currentUserId: string, t: string -> string,
                                       targetUserId: string, targetRole: string, optionRole: string)
    ensures var reason := RoleOptionDisabledReason(currentUserId, t, targetUserId, targetRole, optionRole);
            var check := CanChangeRole(currentUserId, t, targetUserId, targetRole, optionRole);
            (reason.None? <==> check.allowed) && reason == check.reason
  {
  }

  /** `canAccessAdminPanel`: the loaded role is system_admin or
      tenant_manager. */
  predicate CanAccessAdminPanel(currentRole: Option<string>)
    ensures currentRole.None? ==> !CanAccessAdminPanel(currentRole)
    ensures CanAccessAdminPanel(currentRole) <==>
              currentRole.Some? && currentRole.value in {"system_admin", "tenant_manager"}
  {
    currentRole == Some("system_admin") || currentRole == Some("tenant_manager")
  }

  /** `canManageUsers`: the loaded role is system_admin. */
  predicate CanManageUsers(currentRole: Option<string>)
    ensures currentRole.None? ==> !CanManageUsers(currentRole)
    ensures CanManageUsers(currentRole) ==> CanAccessAdminPanel(currentRole)
  {
    currentRole == Some("system_admin")
  }

  /** Managing users is a panel privilege: whoever may manage users may open
      the panel, and a tenant manager may open it without managing users. */
  lemma ManageImpliesPanel(currentRole: Option<string>)
    ensures CanManageUsers(currentRole) ==> CanAccessAdminPanel(currentRole)
    ensures currentRole == Some("tenant_manager") ==> CanAccessAdminPanel(currentRole) && !CanManageUsers(currentRole)
  {
  }

  /** The client refuses more than the server: it will not ban another
      system admin, while the server bans any existing account other than
      the operator, whatever its role. */
  lemma ClientRefusesWhatServerAllows(db: Store.Db, t: string -> string, operatorId: string, targetUserId: string)
    requires targetUserId != operatorId
    requires Store.FindAccount(db.accounts, targetUserId).Some?
    ensures UserService.UpdateUserStatus(db, targetUserId, Store.Banned, operatorId).ok
    ensures !CanChangeStatus(operatorId, t, targetUserId, "system_admin", "banned").allowed
  {
  }
}
