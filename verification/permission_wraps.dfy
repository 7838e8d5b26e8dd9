/** The endpoint guards `super_admin_required` and
    `feature_enabled_required`. The wrapped view is reduced to the value it
    would return, and the signed-in account is a parameter. */
module PermissionWraps {
  import opened Base
  import opened Store
  import opened PermissionService

  /** What a guarded endpoint answers: the view's value, or an HTTP abort
      with a status code and a description. */
  datatype Response<R> = ViewResult(value: R) | Abort(status: nat, description: string)

  const FeatureNotAvailable: string := "Feature not available"
  const SuperAdminPermissionRequired: string := "Super admin permission required"

  /** `super_admin_required`: 404 while the feature is off, 403 for an
      account that is not a super admin, otherwise the view's value. */
  function SuperAdminRequired<R>(enabled: bool, currentUser: Account, view: R): (r: Response<R>)
    ensures !enabled ==> r == Abort(404, FeatureNotAvailable)
    ensures enabled && currentUser.systemRole != Some("super_admin") ==>
              r == Abort(403, SuperAdminPermissionRequired)
    ensures r.ViewResult? <==> enabled && currentUser.systemRole == Some("super_admin")
    ensures r.ViewResult? ==> r.value == view
  {
    if !enabled then Abort(404, FeatureNotAvailable)
    else if !IsSuperAdminAccount(enabled, currentUser) then Abort(403, SuperAdminPermissionRequired)
    else ViewResult(view)
  }

  /** `feature_enabled_required`: 404 while the feature is off, otherwise
      the view's value for every account. */
  function FeatureEnabledRequired<R>(enabled: bool, view: R): (r: Response<R>)
    ensures !enabled ==> r == Abort(404, FeatureNotAvailable)
    ensures enabled ==> r == ViewResult(view)
  {
    if !enabled then Abort(404, FeatureNotAvailable) else ViewResult(view)
  }

  /** While the feature is off the guard hides the endpoint from everyone
      alike: the answer does not depend on the account. */
  lemma DisabledHidesFromEveryone<R>(a: Account, b: Account, view: R)
    ensures SuperAdminRequired(false, a, view) == SuperAdminRequired(false, b, view)
            == FeatureEnabledRequired(false, view)
  {
  }

  /** The super-admin guard is the stricter one: whatever it lets through,
      the feature guard lets through too, and it lets through exactly the
      accounts the permission service calls super admins. */
  lemma SuperAdminGuardIsStricter<R>(enabled: bool, user: Account, view: R)
    ensures SuperAdminRequired(enabled, user, view).ViewResult? ==>
              FeatureEnabledRequired(enabled, view) == SuperAdminRequired(enabled, user, view)
    ensures SuperAdminRequired(enabled, user, view).ViewResult? <==> IsSuperAdminAccount(enabled, user)
  {
  }
}
