/** The closed set of system roles and its capability predicates
    (`SystemRole` in api/custom/models/custom_account_ext.py). */
module SystemRoles {
  import opened Base

  /** The three system roles, most privileged first. */
  datatype SystemRole = SuperAdmin | WorkspaceAdmin | Normal

  /** The string each role is stored as. */
  function Value(r: SystemRole): string {
    match r
    case SuperAdmin => "super_admin"
    case WorkspaceAdmin => "workspace_admin"
    case Normal => "normal"
  }

  /** `SystemRole(s)`: the role whose value is exactly `s` (case-sensitive). */
  function FromValue(s: string): (r: Option<SystemRole>)
    ensures r.Some? ==> Value(r.value) == s
    ensures forall role :: Value(role) == s ==> r == Some(role)
  {
    if s == "super_admin" then Some(SuperAdmin)
    else if s == "workspace_admin" then Some(WorkspaceAdmin)
    else if s == "normal" then Some(Normal)
    else None
  }

  /** `SystemRole.is_valid_role`: false for a missing or empty value,
      otherwise membership in the three role values. */
  function IsValidRole(role: Option<string>): (b: bool)
    ensures b <==> role.Some? && FromValue(role.value).Some?
    ensures role == None || role == Some("") ==> !b
  {
    if role.None? || role.value == "" then false
    else role.value in {"super_admin", "workspace_admin", "normal"}
  }

  /** `SystemRole.is_super_admin`. */
  predicate IsSuperAdmin(role: Option<SystemRole>) {
    role == Some(SuperAdmin)
  }

  /** `SystemRole.can_access_all_workspaces`. */
  predicate CanAccessAllWorkspaces(role: Option<SystemRole>) {
    role == Some(SuperAdmin)
  }

  /** `SystemRole.can_manage_users`. */
  predicate CanManageUsers(role: Option<SystemRole>) {
    role == Some(SuperAdmin)
  }

  /** `SystemRole.can_assign_members`. */
  predicate CanAssignMembers(role: Option<SystemRole>) {
    role == Some(SuperAdmin)
  }

  /** Every stored role value parses back to its role; parsing and
      validation agree on every string. */
  lemma ValueRoundTrip(r: SystemRole, s: string)
    ensures FromValue(Value(r)) == Some(r)
    ensures IsValidRole(Some(s)) <==> FromValue(s).Some?
  {
    if IsValidRole(Some(s)) {
      var q :| Some(s) == Some(Value(q));
    }
  }

  /** Validation is case-sensitive: upper-case spellings are rejected. */
  lemma ValidityIsCaseSensitive()
    ensures !IsValidRole(Some("SUPER_ADMIN")) && !IsValidRole(Some("Super_Admin"))
    ensures IsValidRole(Some("super_admin"))
  {
    assert Some("super_admin") == Some(Value(SuperAdmin));
  }

  /** The four capability predicates always agree, and hold only for the
      super-admin role. */
  lemma CapabilitiesAgree(role: Option<SystemRole>)
    ensures IsSuperAdmin(role) == CanAccessAllWorkspaces(role) == CanManageUsers(role)
            == CanAssignMembers(role)
    ensures IsSuperAdmin(role) <==> role == Some(SuperAdmin)
    ensures role in {None, Some(WorkspaceAdmin), Some(Normal)} ==> !CanManageUsers(role)
  {
  }
}
