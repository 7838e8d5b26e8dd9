/** The current user's system-role hooks of the web client
    (web/hooks/custom/use-custom-system-role.ts). The response of the
    system-role endpoint is an input: `None` when nothing has loaded, the
    request failed, or the feature is off and the endpoint answered 404.
    The role is compared as a raw string, as the client does. */
module SystemRoleHooks {
  import opened Base

  /** The body of the current-user system-role response. */
  datatype RoleResponse = RoleResponse(systemRole: string, featureEnabled: bool)

  /** `data?.multi_workspace_permission_enabled ?? false`. */
  function IsFeatureEnabled(data: Option<RoleResponse>): (b: bool)
    ensures data.None? ==> !b
  {
    data.Some? && data.value.featureEnabled
  }

  /** `useIsSystemAdmin().isSystemAdmin`: a loaded role of exactly
      "system_admin"; the legacy "super_admin" does not count. */
  predicate IsSystemAdmin(data: Option<RoleResponse>)
    ensures IsSystemAdmin(data) ==> data.Some? && !IsTenantManager(data)
    ensures data.Some? && data.value.systemRole == "super_admin" ==> !IsSystemAdmin(data)
  {
    data.Some? && data.value.systemRole == "system_admin"
  }

  /** `useIsTenantManager().isTenantManager`: a loaded role of exactly
      "tenant_manager"; the legacy "workspace_admin" does not count. */
  predicate IsTenantManager(data: Option<RoleResponse>)
    ensures IsTenantManager(data) ==> data.Some? && data.value.systemRole != "system_admin"
    ensures data.Some? && data.value.systemRole == "workspace_admin" ==> !IsTenantManager(data)
  {
    data.Some? && data.value.systemRole == "tenant_manager"
  }

  /** `useCanCreateWorkspace().canCreateWorkspace`: the user may create
      workspaces exactly when the loaded role is system_admin or
      tenant_manager. */
  function CanCreateWorkspace(data: Option<RoleResponse>): (b: bool)
    ensures b <==> IsSystemAdmin(data) || IsTenantManager(data)
    ensures data.None? ==> !b
  {
    data.Some? && (data.value.systemRole == "system_admin" || data.value.systemRole == "tenant_manager")
  }

  /** What `useIsSystemAdmin` returns. */
  datatype AdminFlags = AdminFlags(isSystemAdmin: bool, isFeatureEnabled: bool, isLoading: bool)

  /** What `useIsSuperAdmin` returns. */
  datatype SuperAdminFlags = SuperAdminFlags(isSuperAdmin: bool, isFeatureEnabled: bool, isLoading: bool)

  function UseIsSystemAdmin(data: Option<RoleResponse>, isLoading: bool): (r: AdminFlags)
    ensures r.isSystemAdmin <==> IsSystemAdmin(data)
    ensures r.isFeatureEnabled <==> data.Some? && data.value.featureEnabled
    ensures r.isLoading == isLoading
  {
    AdminFlags(IsSystemAdmin(data), IsFeatureEnabled(data), isLoading)
  }

  /** The deprecated alias renames the first flag and passes every value
      through. */
  function UseIsSuperAdmin(data: Option<RoleResponse>, isLoading: bool): (r: SuperAdminFlags)
    ensures var a := UseIsSystemAdmin(data, isLoading);
            r.isSuperAdmin == a.isSystemAdmin && r.isFeatureEnabled == a.isFeatureEnabled
            && r.isLoading == a.isLoading
  {
    var a := UseIsSystemAdmin(data, isLoading);
    SuperAdminFlags(a.isSystemAdmin, a.isFeatureEnabled, a.isLoading)
  }

  /** What `useIsTenantManager` returns. */
  datatype TenantManagerFlags = TenantManagerFlags(isTenantManager: bool, isFeatureEnabled: bool, isLoading: bool)

  /** The tenant-manager hook reads the same response and reports the same
      feature flag and loading state as the system-admin hook. */
  function UseIsTenantManager(data: Option<RoleResponse>, isLoading: bool): (r: TenantManagerFlags)
    ensures r.isTenantManager <==> IsTenantManager(data)
    ensures r.isFeatureEnabled == UseIsSystemAdmin(data, isLoading).isFeatureEnabled
    ensures r.isLoading == isLoading
    ensures r.isTenantManager ==> !UseIsSystemAdmin(data, isLoading).isSystemAdmin
  {
    TenantManagerFlags(IsTenantManager(data), IsFeatureEnabled(data), isLoading)
  }

  /** A user is never reported as both system admin and tenant manager,
      and with nothing loaded the client reports neither and no feature. */
  lemma RolesExclusive(data: Option<RoleResponse>)
    ensures !(IsSystemAdmin(data) && IsTenantManager(data))
    ensures data.None? ==> !IsSystemAdmin(data) && !IsTenantManager(data) && !IsFeatureEnabled(data)
  {
  }
}
