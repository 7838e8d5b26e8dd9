/** The label and tip helpers of the admin pages
    (web/utils/custom/admin-labels.ts). The translation function `t` is a
    parameter; every label is `t` of a message key, except where an unknown
    value is shown as it is. */
module AdminLabels {
  import opened Base
  import Store
  import RoleRename

  /** The three groups the system-role labels fall into; each gathers a
      current name, its legacy name, and (for the lowest) everything else. */
  datatype RoleGroup = SystemAdminGroup | TenantManagerGroup | UserGroup

  /** The group of a raw system-role string. */
  function SystemRoleGroup(role: string): (g: RoleGroup)
    ensures g == SystemAdminGroup <==> role == "system_admin" || role == "super_admin"
    ensures g == TenantManagerGroup <==> role == "tenant_manager" || role == "workspace_admin"
  {
    if role == "system_admin" || role == "super_admin" then SystemAdminGroup
    else if role == "tenant_manager" || role == "workspace_admin" then TenantManagerGroup
    else UserGroup
  }

  /** `getSystemRoleLabel`. */
  function SystemRoleLabel(role: string, t: string -> string): (r: string)
    ensures role == "system_admin" || role == "super_admin" ==> r == t("admin.systemRoleSystemAdmin")
    ensures role == "tenant_manager" || role == "workspace_admin" ==> r == t("admin.systemRoleTenantManager")
    ensures role !in {"system_admin", "super_admin", "tenant_manager", "workspace_admin"} ==>
              r == t("admin.systemRoleUser")
  {
    match SystemRoleGroup(role)
    case SystemAdminGroup => t("admin.systemRoleSystemAdmin")
    case TenantManagerGroup => t("admin.systemRoleTenantManager")
    case UserGroup => t("admin.systemRoleUser")
  }

  /** `getSystemRoleTip`. */
  function SystemRoleTip(role: string, t: string -> string): (r: string)
    ensures role == "system_admin" || role == "super_admin" ==> r == t("admin.systemRoleSystemAdminTip")
    ensures role == "tenant_manager" || role == "workspace_admin" ==> r == t("admin.systemRoleTenantManagerTip")
    ensures role !in {"system_admin", "super_admin", "tenant_manager", "workspace_admin"} ==>
              r == t("admin.systemRoleUserTip")
  {
    match SystemRoleGroup(role)
    case SystemAdminGroup => t("admin.systemRoleSystemAdminTip")
    case TenantManagerGroup => t("admin.systemRoleTenantManagerTip")
    case UserGroup => t("admin.systemRoleUserTip")
  }

  /** Renaming a stored role as the migration's upgrade does never changes
      what the admin pages show for it. */
  lemma LabelsSurviveUpgrade(role: string, t: string -> string)
    ensures var up := RoleRename.UpgradeValue(Some(role)).value;
            SystemRoleLabel(up, t) == SystemRoleLabel(role, t)
            && SystemRoleTip(up, t) == SystemRoleTip(role, t)
  {
  }

  /** Renaming a stored role back, as the migration's downgrade does, never
      changes what the admin pages show for it either. */
  lemma LabelsSurviveDowngrade(role: string, t: string -> string)
    ensures var down := RoleRename.DowngradeValue(Some(role)).value;
            SystemRoleLabel(down, t) == SystemRoleLabel(role, t)
            && SystemRoleTip(down, t) == SystemRoleTip(role, t)
  {
  }

  /** A value that is none of the six role names reads as the lowest role,
      label and tip alike. */
  lemma UnknownRoleReadsAsUser(role: string, t: string -> string)
    requires role !in ["system_admin", "super_admin", "tenant_manager", "workspace_admin", "user", "normal"]
    ensures SystemRoleLabel(role, t) == t("admin.systemRoleUser")
    ensures SystemRoleTip(role, t) == t("admin.systemRoleUserTip")
  {
  }

  /** The label key of each workspace role. */
  function WorkspaceRoleLabelKey(r: Store.WorkspaceRole): string {
    match r
    case Owner => "admin.workspaceRole.owner"
    case Admin => "admin.workspaceRole.admin"
    case Editor => "admin.workspaceRole.editor"
    case NormalMember => "admin.workspaceRole.normal"
    case DatasetOperator => "admin.workspaceRole.datasetOperator"
  }

  /** The tip key of each workspace role. */
  function WorkspaceRoleTipKey(r: Store.WorkspaceRole): string {
    match r
    case Owner => "admin.workspaceRole.ownerTip"
    case Admin => "admin.workspaceRole.adminTip"
    case Editor => "admin.workspaceRole.editorTip"
    case NormalMember => "admin.workspaceRole.normalTip"
    case DatasetOperator => "admin.workspaceRole.datasetOperatorTip"
  }

  /** `getWorkspaceRoleLabel`: a known role is translated; any other string
      is shown as it is. */
  function WorkspaceRoleLabel(role: string, t: string -> string): (r: string)
    ensures Store.ParseWorkspaceRole(role).None? ==> r == role
    ensures Store.ParseWorkspaceRole(role).Some? ==>
              r == t(WorkspaceRoleLabelKey(Store.ParseWorkspaceRole(role).value))
  {
    if role == "owner" then t("admin.workspaceRole.owner")
    else if role == "admin" then t("admin.workspaceRole.admin")
    else if role == "editor" then t("admin.workspaceRole.editor")
    else if role == "normal" then t("admin.workspaceRole.normal")
    else if role == "dataset_operator" then t("admin.workspaceRole.datasetOperator")
    else role
  }

  /** `getWorkspaceRoleTip`: a known role's tip; the empty string for any
      other. */
  function WorkspaceRoleTip(role: string, t: string -> string): (r: string)
    ensures Store.ParseWorkspaceRole(role).None? ==> r == ""
    ensures Store.ParseWorkspaceRole(role).Some? ==>
              r == t(WorkspaceRoleTipKey(Store.ParseWorkspaceRole(role).value))
  {
    if role == "owner" then t("admin.workspaceRole.ownerTip")
    else if role == "admin" then t("admin.workspaceRole.adminTip")
    else if role == "editor" then t("admin.workspaceRole.editorTip")
    else if role == "normal" then t("admin.workspaceRole.normalTip")
    else if role == "dataset_operator" then t("admin.workspaceRole.datasetOperatorTip")
    else ""
  }

  /** `getStatusLabel`: the three known statuses are translated; any other
      string is shown as it is. */
  function StatusLabel(status: string, t: string -> string): (r: string)
    ensures status !in ["active", "pending", "banned"] ==> r == status
    ensures status == Store.Active ==> r == t("admin.statusActive")
    ensures status == "pending" ==> r == t("admin.statusPending")
    ensures status == Store.Banned ==> r == t("admin.statusBanned")
  {
    if status == "active" then t("admin.statusActive")
    else if status == "pending" then t("admin.statusPending")
    else if status == "banned" then t("admin.statusBanned")
    else status
  }
}
