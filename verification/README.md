# Multi-workspace permissions of a Dify fork, in Dafny

This project models the custom multi-workspace permission subsystem of the
linhai0872/dify fork, together with the smaller pure pieces around it. The
permission subsystem covers:

- **System roles.** There are three values, with a set of capability checks.
- **Role resolution behind a feature flag.** With the flag off, or when the stored value is unusable, everyone reads as a normal user.
- **Endpoint guards.** They answer 404 ("feature not available") before 403 ("super admin required").
- **Workspace membership.** Members can be added, have their role changed or be removed. A last-owner guard applies to role changes and removals.
- **Workspace switching.** A super admin may enter a workspace they have not joined.
- **Account administration.** Role and status changes carry a self-protection rule.
- **The command-line super-admin tools.** They guard the last super admin.
- **The migration that renames the stored role values.**

The other pieces are:

- the boolean environment-flag parser;
- the query-argument flattening done before validation;
- the trace-id lookup;
- the DOC/PPT/PPTX text extractors' post-processing;
- the web client's permission hooks, label helpers, retry-panel handlers and create-user form.

The database is a value. `Store.Db` holds three row sequences: accounts, tenants (workspaces) and tenant-account joins. A row's position stands for the order the query returns it in. Every service call is a pure function from a state to an outcome and a new state. Things outside the code are parameters:

- the feature flag (`enabled`);
- the `ILIKE` search match;
- the case-tolerant email lookup;
- the ordinary tenant switch;
- the document partitioner's output;
- the web translation function `t`.

Each module follows one source file:

| module | source |
|---|---|
| `SystemRoles` | `custom_account_ext.py` |
| `PermissionService` | `custom_system_permission_service.py` |
| `PermissionWraps` | `custom_permission_wraps.py` |
| `MemberService` | `custom_admin_member_service.py` |
| `UserService` | `custom_admin_user_service.py` |
| `TenantSwitch` | `custom_tenant_service_ext.py` |
| `SuperAdminCommands` | `commands.py` |
| `RoleRename` | the 2026-02-05 migration |
| `FeatureFlags` | `feature_flags.py` |
| `RequestParsing` | `request_parsing.py` |
| `TraceService` | `custom_trace_service.py` |
| `PageGrouping` | DOC and PPT extractors |
| `PptxExtractor` | PPTX extractor |
| `AdminPermissions`, `SystemRoleHooks` | the two hooks |
| `AdminLabels` | label helpers |
| `RetryPanel` | retry panel |
| `CreateUserForm` | create-user dialog |

`Base`, `Text`, `Store` and `Sorting` hold the shared vocabulary:

- options, counting and paging;
- Python and JavaScript trimming, lower-casing, joining and line splitting;
- the three tables and their keyed lookups;
- a stable sort by key (`Sorting.SortByStable`).

## Model

| member | source | states |
|---|---|---|
| Base.Page | api/custom/services/custom_admin_member_service.py:139-144 | at most `limit` rows: exactly the rows from the page's offset on, in order, and empty when the offset is past the end |
| Base.OffsetIsProduct | api/custom/services/custom_admin_member_service.py:141 | the page-by-page offset equals `(page - 1) * limit` |
| Sorting.SortBy | api/custom/services/custom_trace_service.py:225 | the result is ordered by ascending key and is a permutation of the input |
| Sorting.InsertBy | api/custom/services/custom_trace_service.py:225 | inserting into an ordered sequence keeps it ordered and adds exactly the one element |
| Sorting.InsertByStable | api/custom/services/custom_trace_service.py:225 | the inserted element goes ahead of every element with the same key; those keep their order |
| Sorting.SortByStable | api/custom/services/custom_trace_service.py:225 | for every key, the elements with that key appear in their input order; SQL leaves ties unordered, so this is the model's fixed choice for them |
| SystemRoles.FromValue | api/custom/models/custom_account_ext.py:17-40 | the enum constructor accepts exactly the three stored values, each giving back the role whose value it is |
| SystemRoles.IsValidRole | api/custom/models/custom_account_ext.py:42-51 | valid iff the string is one of the three values; None and "" are invalid |
| SystemRoles.ValueRoundTrip | api/custom/models/custom_account_ext.py:17-51 | reading back a role's value gives the role; validity coincides with the enum constructor succeeding |
| SystemRoles.ValidityIsCaseSensitive | api/custom/models/custom_account_ext.py:47-51 | "SUPER_ADMIN" and "Super_Admin" are rejected, "super_admin" accepted |
| SystemRoles.CapabilitiesAgree | api/custom/models/custom_account_ext.py:53-71 | the four capability checks always agree, hold exactly for SUPER_ADMIN, and fail for None, WORKSPACE_ADMIN and NORMAL |
| PermissionService.GetSystemRole | api/custom/services/custom_system_permission_service.py:20-40 | flag off gives NORMAL; a valid stored value gives its role; a missing, empty or unknown value gives NORMAL |
| PermissionService.IsSuperAdminAccount | api/custom/services/custom_system_permission_service.py:43-53 | true iff the flag is on and the stored role is exactly "super_admin" |
| PermissionService.CanAccessAllWorkspacesAccount | api/custom/services/custom_system_permission_service.py:56-72 | false with the flag off; otherwise true iff the stored role is "super_admin" |
| PermissionService.CanManageUsersAccount | api/custom/services/custom_system_permission_service.py:75-89 | false with the flag off; otherwise true iff the stored role is "super_admin" |
| PermissionService.CanAssignMembersAccount | api/custom/services/custom_system_permission_service.py:92-106 | false with the flag off; otherwise true iff the stored role is "super_admin" |
| PermissionService.DisabledMeansNormal | api/custom/services/custom_system_permission_service.py:32-33 | with the flag off every account resolves to NORMAL and passes no capability check |
| PermissionService.CapabilitiesCoincide | api/custom/services/custom_system_permission_service.py:43-106 | for any flag value and account, the four account-level checks give the same answer |
| PermissionService.LastJoinRole | api/custom/services/custom_system_permission_service.py:143-154 | the role the tenant-to-role dict holds is absent iff the account has no join in that tenant, and is the role of one of its joins |
| PermissionService.AllWorkspacesWithRole | api/custom/services/custom_system_permission_service.py:130-157 | exactly the NORMAL tenants, in table order, one entry each; each entry's role is the one the account's last join in that tenant gives, None iff it has not joined |
| PermissionService.JoinedWorkspacesWithRole | api/custom/services/custom_system_permission_service.py:160-180 | each entry is a NORMAL tenant with a stored join of the account carrying exactly that entry's role |
| PermissionService.GetAccessibleWorkspaces | api/custom/services/custom_system_permission_service.py:109-127 | only NORMAL tenants; an all-access account sees each of them, as many entries as NORMAL tenants, with its last-join role or None; any other account sees joined ones, each with the role of one of its stored joins |
| PermissionService.JoinedWorkspaceIsVisible | api/custom/services/custom_system_permission_service.py:124-180 | every NORMAL tenant the account has joined is listed, whichever branch is taken |
| PermissionService.JoinedWithRoleComplete | api/custom/services/custom_system_permission_service.py:164-180 | the joined listing contains every (NORMAL tenant, join role) pair of the account |
| PermissionService.WithRoles | api/custom/services/custom_system_permission_service.py:141-155 | one entry per tenant, in order, each with the account's last-join role there |
| PermissionService.FilterKeepsUniqueIds | api/custom/services/custom_system_permission_service.py:136-139 | selecting tenants from a table with unique ids keeps the ids unique |
| PermissionService.AllWithRoleEachOnce | api/custom/services/custom_system_permission_service.py:130-157 | on a table with unique tenant ids, the all-workspaces listing names each tenant once |
| PermissionService.JoinedWithRoleEachOnce | api/custom/services/custom_system_permission_service.py:160-180 | with unique tenant ids and at most one join per pair, the joined listing names each tenant once |
| PermissionService.PrependOtherTenant | api/custom/services/custom_system_permission_service.py:164-180 | at most one entry for a tenant that no later entry names keeps every tenant listed once |
| PermissionService.AccessibleWorkspacesEachOnce | api/custom/services/custom_system_permission_service.py:109-180 | with unique tenant ids and at most one join per pair, whichever branch is taken, no tenant is listed twice |
| PermissionService.GetUserRoleInWorkspace | api/custom/services/custom_system_permission_service.py:183-204 | None iff no join exists for the pair; otherwise the role held by one of its joins |
| PermissionService.LastAndFirstJoinAgree | api/custom/services/custom_system_permission_service.py:143-204 | with at most one join per pair, the dict built from all joins and the first-join lookup give the same role |
| PermissionService.UpdateSystemRole | api/custom/services/custom_system_permission_service.py:207-228 | false and no change when the flag is off or the account is missing; otherwise true, the database is exactly the old one with that account's stored role set to the new value, so the account resolves to the new role and every other field, account, tenant and join is kept |
| PermissionWraps.SuperAdminRequired | api/custom/wraps/custom_permission_wraps.py:22-51 | flag off gives 404 "Feature not available" regardless of the caller; flag on and not a super admin gives 403; otherwise the view's own result, unchanged |
| PermissionWraps.FeatureEnabledRequired | api/custom/wraps/custom_permission_wraps.py:54-70 | 404 iff the flag is off, otherwise the view's result untouched |
| PermissionWraps.DisabledHidesFromEveryone | api/custom/wraps/custom_permission_wraps.py:39-47 | with the flag off two different callers get the same 404, so the 404 takes precedence over the 403 |
| PermissionWraps.SuperAdminGuardIsStricter | api/custom/wraps/custom_permission_wraps.py:37-68 | whenever the super-admin guard lets a call through, so does the feature guard; it lets through exactly the super admins |
| MemberService.AddMember | api/custom/services/custom_admin_member_service.py:161-213 | failure order: invalid role, workspace missing or not NORMAL, user missing, already a member, each with its message and no change; success inserts exactly one non-current join with the role |
| MemberService.UpdateMemberRole | api/custom/services/custom_admin_member_service.py:216-257 | failure order: invalid role, non-member, last owner losing ownership, each without change; success changes only that join's role |
| MemberService.RemoveMember | api/custom/services/custom_admin_member_service.py:260-296 | non-member and last-owner removal fail without change; success deletes exactly that join |
| MemberService.AddMemberKeepsOwners | api/custom/services/custom_admin_member_service.py:161-213 | adding a member never lowers any tenant's owner count |
| MemberService.UpdateMemberRoleKeepsAnOwner | api/custom/services/custom_admin_member_service.py:245-255 | a tenant with at least one owner still has one after a role change |
| MemberService.RemoveMemberKeepsAnOwner | api/custom/services/custom_admin_member_service.py:280-294 | a tenant with at least one owner still has one after a removal |
| MemberService.OwnerSurvivesAllOps | api/custom/services/custom_admin_member_service.py:161-296 | any sequence of add, role change and remove calls keeps a tenant's owner count at one or more |
| MemberService.AddTwiceIsRejected | api/custom/services/custom_admin_member_service.py:198-201 | repeating a successful add fails with "already a member" and changes nothing |
| MemberService.LastOwnerScenario | api/custom/services/custom_admin_member_service.py:245-252 | a workspace's only owner can be demoted once a second owner exists, but not before |
| MemberService.NewMemberListedFirst | api/custom/services/custom_admin_member_service.py:138-156 | joins are listed newest first: right after a successful add, page 1 starts with the new member, showing its account and the new role, and the total grew by one |
| MemberService.MemberRows | api/custom/services/custom_admin_member_service.py:119-156 | at most one row per join |
| MemberService.MemberRowsComplete | api/custom/services/custom_admin_member_service.py:119-156 | for any search, the rows are exactly the workspace's joins whose account exists and matches, in join order, one row each with that account and the join's role |
| MemberService.MemberRowsListEveryMatch | api/custom/services/custom_admin_member_service.py:119-136 | every join of the workspace whose account exists and matches the search appears as a row showing that account and the join's role |
| MemberService.MembersTotalCountsMatches | api/custom/services/custom_admin_member_service.py:119-136 | for any search, the total of a NORMAL workspace is the number of its joins whose account exists and matches |
| MemberService.MemberRowsSound | api/custom/services/custom_admin_member_service.py:119-156 | each row is a join of the workspace whose account exists and matches the search, showing that account and the join role |
| MemberService.GetWorkspaceMembers | api/custom/services/custom_admin_member_service.py:84-158 | a missing or archived workspace gives ([], 0, None); otherwise total counts all matching rows and the page holds exactly the rows from offset (page-1)*limit on, as many as remain up to limit |
| MemberService.MemberRowsCountJoins | api/custom/services/custom_admin_member_service.py:119-136 | with no search and every join pointing at an account, the rows number exactly the workspace's joins |
| MemberService.MembersTotalIsMemberCount | api/custom/services/custom_admin_member_service.py:119-136 | on a well-formed database the unfiltered total is the workspace's member count |
| MemberService.GetAvailableUsers | api/custom/services/custom_admin_member_service.py:299-345 | as many accounts as the limit allows of those available, i.e. the smaller of limit and their number; each active, matching the search and not joined to the workspace |
| MemberService.AvailableUsersComplete | api/custom/services/custom_admin_member_service.py:316-335 | when the limit is at least the number of available accounts, every active, matching, unjoined account is offered |
| MemberService.GetWorkspaceRoles | api/custom/services/custom_admin_member_service.py:348-376 | exactly five entries, in the order owner, admin, editor, normal, dataset_operator; every role appears at its rank |
| MemberService.CatalogueMatchesValidation | api/custom/services/custom_admin_member_service.py:350-376 | a string is accepted as a workspace role iff it is the value of one of the catalogue's entries |
| MemberService.GetAllWorkspaces | api/custom/services/custom_admin_member_service.py:20-81 | total counts every NORMAL tenant matching the search; the page holds at most limit summaries, each of a NORMAL tenant with its number of joins |
| MemberService.GetAllWorkspacesPage | api/custom/services/custom_admin_member_service.py:44-79 | the page holds exactly the listed tenants from offset (page-1)*limit on, as many as remain up to limit, each with its number of joins |
| MemberService.SummariesOfPage | api/custom/services/custom_admin_member_service.py:48-79 | the summary at each position of a page is the tenant at that position of the listing, with its number of joins |
| MemberService.Summaries | api/custom/services/custom_admin_member_service.py:56-79 | one summary per tenant, in order, each being that tenant with its number of joins as member count |
| UserService.UpdateSystemRole | api/custom/services/custom_admin_user_service.py:97-133 | failure order: flag off, invalid role, user not found, a super-admin operator demoting themself, each without change; otherwise the database is exactly the old one with that account's role set to the new value: its other fields, the other accounts, the tenants and the joins are kept |
| UserService.UpdateUserStatus | api/custom/services/custom_admin_user_service.py:136-167 | accepts only active or banned, needs no flag, refuses an operator banning themself, and otherwise the database is exactly the old one with that account's status set to the new value: its other fields, the other accounts, the tenants and the joins are kept |
| UserService.OperatorKeepsASuperAdmin | api/custom/services/custom_admin_user_service.py:124-127 | a super-admin operator's role change leaves at least one stored super admin |
| UserService.OtherSuperAdminCanBeDemoted | api/custom/services/custom_admin_user_service.py:124-133 | the self guard does not protect another super admin: one of two super admins can demote the other |
| UserService.BuildUserView | api/custom/services/custom_admin_user_service.py:170-189 | the view copies id, name, email and status; the system role falls back to "normal" when missing or empty |
| UserService.GetUsers | api/custom/services/custom_admin_user_service.py:22-77 | total counts accounts passing all filters together, before paging; the page holds at most limit views of such accounts |
| UserService.GetUsersPage | api/custom/services/custom_admin_user_service.py:60-77 | the page holds exactly the views of the filtered accounts from offset (page-1)*limit on, as many as remain up to limit |
| UserService.InvalidRoleFilterIgnored | api/custom/services/custom_admin_user_service.py:54-55 | an invalid role filter gives the same result as no role filter |
| UserService.UserWorkspaces | api/custom/services/custom_admin_user_service.py:192-210 | each entry is a tenant the user has a join for, with that join's role and current flag; with unique tenant ids there are no more entries than joins |
| UserService.TenantsOfJoinAtMostOne | api/custom/services/custom_admin_user_service.py:194-199 | with unique tenant ids a join yields at most one workspace entry |
| UserService.UserWorkspacesComplete | api/custom/services/custom_admin_user_service.py:192-210 | every join of the user to a stored tenant yields an entry with that tenant, the join's role and current flag |
| UserService.UserWorkspacesCount | api/custom/services/custom_admin_user_service.py:192-210 | with unique tenant ids and every join pointing at a tenant, there is exactly one entry per join of the user |
| UserService.UserDetailListsEveryJoin | api/custom/services/custom_admin_user_service.py:80-94 | on a well-formed database, a found user's detail lists one workspace per join, each join with its entry |
| UserService.GetUserById | api/custom/services/custom_admin_user_service.py:80-94 | None iff the account is missing; otherwise its view and the workspaces of its joins |
| TenantSwitch.ClearCurrent | api/custom/services/custom_tenant_service_ext.py:71-88 | every join of the account loses its current flag; all other joins and all fields but current are kept |
| TenantSwitch.SwitchTenant | api/custom/services/custom_tenant_service_ext.py:19-68 | missing or archived tenant gives the not-found error; a member gets the ordinary switch and (tenant, true); a non-member without all-access gets the not-linked error; an all-access non-member gets (tenant, false), no join is created and none of its joins stays current |
| TenantSwitch.UnjoinedSwitchKeepsMemberships | api/custom/services/custom_tenant_service_ext.py:60-88 | the super-admin branch creates and deletes no join and keeps every tenant's owner count |
| TenantSwitch.ClearCurrentKeepsMemberships | api/custom/services/custom_tenant_service_ext.py:71-88 | clearing the current flags neither adds nor removes a membership and keeps every owner count |
| TenantSwitch.MembershipDecidesForOrdinaryAccounts | api/custom/services/custom_tenant_service_ext.py:47-62 | a member always switches; a non-member whose stored role is not super_admin always gets the not-linked error |
| SuperAdminCommands.NormalizeEmail | api/custom/commands.py:39 | the normalised email has no upper-case ASCII letter and neither starts nor ends with whitespace |
| SuperAdminCommands.NormalizeEmailIsLoweredMiddle | api/custom/commands.py:39 | the normalised email is the lower-cased middle of the input, after removing only whitespace from both ends |
| SuperAdminCommands.NormalizeEmailIdempotent | api/custom/commands.py:39 | normalising twice is the same as normalising once |
| SuperAdminCommands.Resolve | api/custom/commands.py:39-46 | the account found is the first row with the id the lookup gives for the normalised email; nothing is found exactly when the lookup gives no id or no row has that id |
| SuperAdminCommands.SetSuperAdmin | api/custom/commands.py:17-59 | flag off, unknown account and already super admin change nothing; otherwise that row alone becomes super_admin and the count rises by one |
| SuperAdminCommands.ListSuperAdmins | api/custom/commands.py:62-96 | with the flag on, exactly the accounts whose stored role is super_admin |
| SuperAdminCommands.RemoveSuperAdmin | api/custom/commands.py:99-152 | flag off, no confirm, unknown account, not a super admin and last super admin change nothing; otherwise the database is exactly the old one with that account's stored role set to "normal", and the count drops by one; the count never goes from one or more to zero |
| SuperAdminCommands.SetThenRemoveRestoresCount | api/custom/commands.py:17-152 | granting and then revoking the same account restores the super-admin count |
| RoleRename.RenamePass | api/migrations/versions/2026_02_05_custom_rename_system_roles.py:28-34 | one UPDATE renames exactly the rows holding the old value and keeps every other row |
| RoleRename.Upgrade | api/migrations/versions/2026_02_05_custom_rename_system_roles.py:25-34 | the three upgrade statements act as one per-row map: super_admin to system_admin, workspace_admin to tenant_manager, normal to user, anything else kept, and no other column changes |
| RoleRename.Downgrade | api/migrations/versions/2026_02_05_custom_rename_system_roles.py:75-82 | the three downgrade statements act as the inverse per-row map |
| RoleRename.InsertWithDefault | api/migrations/versions/2026_02_05_custom_rename_system_roles.py:37-42 | a row inserted without a role takes the column's server default and every existing row is kept |
| RoleRename.UpgradeTable | api/migrations/versions/2026_02_05_custom_rename_system_roles.py:25-42 | the upgrade renames each row and sets the server default to "user" |
| RoleRename.DowngradeTable | api/migrations/versions/2026_02_05_custom_rename_system_roles.py:58-82 | the downgrade sets the server default back to "normal" and renames each row back |
| RoleRename.DowngradeUndoesUpgrade | api/migrations/versions/2026_02_05_custom_rename_system_roles.py:25-82 | on a table holding no new name, downgrade after upgrade restores it |
| RoleRename.UpgradeUndoesDowngrade | api/migrations/versions/2026_02_05_custom_rename_system_roles.py:25-82 | on a table holding no legacy name, upgrade after downgrade restores it |
| RoleRename.UpgradeIdempotent | api/migrations/versions/2026_02_05_custom_rename_system_roles.py:28-34 | after an upgrade no legacy name is left, and upgrading again changes nothing |
| RoleRename.PreexistingNewNameDoesNotRoundTrip | api/migrations/versions/2026_02_05_custom_rename_system_roles.py:28-82 | a row already holding "user" before the upgrade comes back as "normal" |
| RoleRename.UpgradedSuperAdminReadsAsNormal | api/migrations/versions/2026_02_05_custom_rename_system_roles.py:28-30 | a super admin before the upgrade resolves to NORMAL after it |
| RoleRename.DefaultFollowsRename | api/migrations/versions/2026_02_05_custom_rename_system_roles.py:25-82 | inserting a row without a role before the upgrade gives the same table as inserting it after; the same holds for the downgrade |
| FeatureFlags.GetBoolEnv | api/custom/feature_flags.py:12-15 | an unset variable gives the default; a set one is true iff its lower-case form is true, 1, yes or on |
| FeatureFlags.TraceSearchEnabled | api/custom/feature_flags.py:23 | the trace-search flag is on when its variable is unset |
| FeatureFlags.TruthyExamples | api/custom/feature_flags.py:14-15 | TRUE, Yes and On read as true, whatever the default |
| FeatureFlags.FalsyExamples | api/custom/feature_flags.py:14-15 | the empty string, false, 0 and " true" read as false, whatever the default |
| FeatureFlags.CaseInsensitive | api/custom/feature_flags.py:15 | two values equal up to ASCII case parse alike |
| RequestParsing.ParseField | api/libs/request_parsing.py:43-50 | a list field takes all values in order; any other field takes the first value, or None for an empty list |
| RequestParsing.ParseArgs | api/libs/request_parsing.py:16-52 | the parsed keys are exactly the model fields present in the query, each parsed by its field kind |
| RequestParsing.ScalarFieldsMatchFlatView | api/libs/request_parsing.py:36-50 | a scalar field receives what a flat view of the query would give it |
| RequestParsing.OnlyDeclaredAndPresent | api/libs/request_parsing.py:39-41 | undeclared query keys and absent fields never reach validation |
| TraceService.NodeExecutionsOf | api/custom/services/custom_trace_service.py:219-246 | exactly the run's node executions, as a permutation, sorted by ascending index |
| TraceService.AgentThoughtsOf | api/custom/services/custom_trace_service.py:248-274 | exactly the message's agent thoughts, sorted by ascending position |
| TraceService.WorkflowExecution | api/custom/services/custom_trace_service.py:50-74 | None iff no run matches app, tenant and trace id; otherwise a matching run created no earlier than any other matching run, as a workflow result without message |
| TraceService.ChatflowMessage | api/custom/services/custom_trace_service.py:79-115 | the message found belongs to the app; when some message of the app carries the trace id, one is found, it carries the id and no other such message is newer |
| TraceService.LinkedRun | api/custom/services/custom_trace_service.py:117-124 | the linked run is the stored run the message names; a message without a run id links none |
| TraceService.ChatflowExecution | api/custom/services/custom_trace_service.py:77-132 | None iff no message is found; otherwise a chatflow result with no agent thoughts |
| TraceService.MessageExecution | api/custom/services/custom_trace_service.py:135-185 | None iff no message of the app carries the trace id; otherwise one that no other such message is newer than, with no workflow run and no node executions, and no agent thoughts for completion |
| TraceService.GetExecutionByTraceId | api/custom/services/custom_trace_service.py:21-47 | dispatch by mode: workflow, chatflow, chat or agent by agent-chat, completion; any other mode gives None; a workflow app finds a result iff a traced run exists, a chat, agent-chat or completion app iff a traced message exists |
| TraceService.ChatflowFallsBackToRun | api/custom/services/custom_trace_service.py:90-115 | when no message carries the trace id, a message found is linked to a traced run of the app that no other traced run is newer than; and when a strictly newest traced run has a message, one is found |
| TraceService.LatestIsNewest | api/custom/services/custom_trace_service.py:53-62 | the row picked qualifies and no qualifying row has a larger key; nothing is picked iff no row qualifies |
| TraceService.OtherAppsAreInvisible | api/custom/services/custom_trace_service.py:79-148 | adding a message of another app changes neither the chat, agent-chat and completion lookups' results nor the chatflow lookup's message |
| TraceService.LatestIgnoresLast | api/custom/services/custom_trace_service.py:80-88 | a non-qualifying row added at the end leaves the newest pick unchanged |
| TraceService.FirstIgnoresLast | api/custom/services/custom_trace_service.py:104-112 | a non-qualifying row added at the end leaves the first pick unchanged |
| PageGrouping.TextsOnPage | api/custom/extractors/doc_extractor.py:55-66 | the stripped texts of one page are each non-blank and trimmed, and exist iff some element with text lies on that page |
| PageGrouping.TextPages | api/custom/extractors/doc_extractor.py:62-71 | the pages with text, strictly ascending, and exactly those |
| PageGrouping.PageDocs | api/custom/extractors/doc_extractor.py:71-82 | one document per page, in the given order, holding that page's texts joined by newlines and tagged with the page |
| PageGrouping.AppendLoose | api/custom/extractors/doc_extractor.py:84-97 | empty iff there are neither page documents nor page-less texts; without page-less text the documents are unchanged; without page documents the texts form one untagged document; otherwise all but the last document are kept and the last gets a blank line and the texts |
| PageGrouping.GroupByPage | api/custom/extractors/doc_extractor.py:51-97 | the documents are empty iff no element has text, and every content is trimmed |
| PageGrouping.GroupedContent | api/custom/extractors/doc_extractor.py:51-97 | one document per page with text, ascending, each holding that page's stripped texts joined by newlines; the page-less texts follow a blank line in the last one, or form the only document when no page has text |
| PageGrouping.GroupedPages | api/custom/extractors/doc_extractor.py:71-97 | one document per page with text, tagged with it; without such pages the page-less texts form the only document |
| PageGrouping.GroupedFrontContent | api/custom/extractors/doc_extractor.py:71-82 | every page's document but the last holds exactly that page's text |
| PageGrouping.GroupedLastContent | api/custom/extractors/doc_extractor.py:71-97 | the last page's document holds that page's text followed by the page-less text |
| PageGrouping.AppendLooseKeepsFront | api/custom/extractors/doc_extractor.py:84-97 | appending the page-less text keeps every document but the last |
| PageGrouping.AppendLooseExtendsLast | api/custom/extractors/doc_extractor.py:91-97 | appending the page-less text extends the last document by a blank line and the texts |
| PageGrouping.TextsOnPageSnoc | api/custom/extractors/doc_extractor.py:55-66 | a further element adds its stripped text to its page's list exactly when it has non-blank text on that page |
| PageGrouping.PageMetadata | api/custom/extractors/ppt_extractor.py:77-80 | the metadata has the format's page key ("page" for DOC, "slide" for PPT) iff the document has a page, with that page as value, and no other key |
| PageGrouping.NoTextWithoutPagesOrLoose | api/custom/extractors/doc_extractor.py:55-97 | no page and no page-less text means no element has text |
| PageGrouping.Extract | api/custom/extractors/doc_extractor.py:36-134 | an import failure and any other error map to their messages; a partition gives only non-blank documents |
| PageGrouping.FallbackNeverFires | api/custom/extractors/doc_extractor.py:99-108 | the whole-text fallback never adds a document: extraction equals page grouping |
| PageGrouping.AllTextBlank | api/custom/extractors/doc_extractor.py:100-102 | when no element has text, every text the fallback joins is blank |
| PageGrouping.GroupedPagesAscend | api/custom/extractors/ppt_extractor.py:71-82 | the page-tagged documents come in strictly ascending page order |
| PageGrouping.GroupedPagesComplete | api/custom/extractors/ppt_extractor.py:55-82 | every page holding text has its document |
| PageGrouping.FailureMessage | api/custom/extractors/ppt_extractor.py:119-134 | a message mentioning libreoffice, soffice or libre gives the LibreOffice guidance; any other gives "Failed to extract text from PPT/DOC: " and the message |
| PageGrouping.LibreCoversLibreOffice | api/custom/extractors/doc_extractor.py:123 | the three-way test is the same as looking for "libre" or "soffice" alone |
| PptxExtractor.NonBlankStripped | api/custom/extractors/pptx_extractor.py:127-131 | the kept paragraphs number at most the input's and are each trimmed and non-blank |
| PptxExtractor.NonBlankStrippedContent | api/custom/extractors/pptx_extractor.py:127-131 | one kept text per non-blank paragraph; every non-blank paragraph's stripped text is kept, and every kept text is one |
| PptxExtractor.NonBlankStrippedInOrder | api/custom/extractors/pptx_extractor.py:127-131 | the k-th kept text is the k-th non-blank paragraph stripped, so order and repetitions follow the input |
| PptxExtractor.NonBlankStrippedSnoc | api/custom/extractors/pptx_extractor.py:127-131 | one more paragraph adds its stripped text at the end exactly when it is not blank |
| PptxExtractor.TextFrameLines | api/custom/extractors/pptx_extractor.py:117-132 | when no paragraph holds a newline and some has text, splitting the frame's text at newlines gives back the stripped non-blank paragraphs |
| PptxExtractor.ExtractTextFrame | api/custom/extractors/pptx_extractor.py:117-132 | empty iff no paragraph has text; otherwise trimmed at both ends |
| PptxExtractor.EscapeCell | api/custom/extractors/pptx_extractor.py:152-154 | an escaped cell holds no newline and every pipe in it follows a backslash |
| PptxExtractor.PipesEscaped | api/custom/extractors/pptx_extractor.py:154 | replacing each pipe by backslash-pipe leaves no unescaped pipe |
| PptxExtractor.UnescapeEscaped | api/custom/extractors/pptx_extractor.py:154 | un-escaping the escaped text gives the original text back |
| PptxExtractor.EscapeCellRoundTrip | api/custom/extractors/pptx_extractor.py:152-154 | un-escaping an escaped cell gives its text with newlines made spaces, stripped |
| PptxExtractor.Fit | api/custom/extractors/pptx_extractor.py:171-175 | a data row becomes exactly col_count cells: its own first cells, then empty padding |
| PptxExtractor.TableCells | api/custom/extractors/pptx_extractor.py:161-175 | the table's cells are the header row, col_count "---" separator cells, then each further row padded or cut to col_count |
| PptxExtractor.RowLines | api/custom/extractors/pptx_extractor.py:165-175 | one Markdown row per row of cells, in order |
| PptxExtractor.TableLines | api/custom/extractors/pptx_extractor.py:161-175 | rows+1 lines: the header, a separator of col_count "---" cells, then each further row fitted to col_count |
| PptxExtractor.RowHasNoNewline | api/custom/extractors/pptx_extractor.py:165-175 | a Markdown row built from cells without newlines holds none |
| PptxExtractor.TableLinesHaveNoNewline | api/custom/extractors/pptx_extractor.py:161-177 | when no cell holds a newline, no line of the table does |
| PptxExtractor.ExtractTable | api/custom/extractors/pptx_extractor.py:134-177 | "" iff the table has no rows; otherwise the text starts with a pipe |
| PptxExtractor.TableHasOneLinePerRow | api/custom/extractors/pptx_extractor.py:161-177 | splitting the Markdown table at newlines gives rows+1 lines: the header row, the separator, then each further row fitted to the header's width, in order |
| PptxExtractor.ShapeParts | api/custom/extractors/pptx_extractor.py:94-113 | no part is empty, and a shape contributes nothing exactly when its frame, its table and every group member's frame are empty |
| PptxExtractor.ShapePartsOrder | api/custom/extractors/pptx_extractor.py:96-105 | a non-empty frame's text is the shape's first part, and a table with rows comes right after it (first when the frame is empty) |
| PptxExtractor.GroupParts | api/custom/extractors/pptx_extractor.py:108-113 | no part is empty, and there are none exactly when every member's frame is empty |
| PptxExtractor.GroupPartsSnoc | api/custom/extractors/pptx_extractor.py:108-113 | one more member adds its frame's text at the end, or nothing when that frame is empty |
| PptxExtractor.SlideParts | api/custom/extractors/pptx_extractor.py:92-113 | the parts of a slide are never empty |
| PptxExtractor.SlidePartsEmpty | api/custom/extractors/pptx_extractor.py:92-113 | a slide has no parts exactly when every shape on it is empty |
| PptxExtractor.SlidePartsSnoc | api/custom/extractors/pptx_extractor.py:94-113 | one more shape adds its parts after those of the earlier shapes, in slide order |
| PptxExtractor.SlideContent | api/custom/extractors/pptx_extractor.py:82-115 | the content is "" exactly when every shape is empty |
| PptxExtractor.TextPart | api/custom/extractors/pptx_extractor.py:192-193 | nothing exactly when the shape's text is absent or blank; what it gives is trimmed |
| PptxExtractor.ShapeTexts | api/custom/extractors/pptx_extractor.py:191-193 | every text is trimmed, and there are none exactly when no shape has non-blank text |
| PptxExtractor.ShapeTextsSnoc | api/custom/extractors/pptx_extractor.py:191-193 | one more shape adds its stripped text at the end exactly when it has non-blank text |
| PptxExtractor.AllShapeTexts | api/custom/extractors/pptx_extractor.py:179-194 | every collected text is trimmed |
| PptxExtractor.AllShapeTextsSnoc | api/custom/extractors/pptx_extractor.py:189-194 | one more slide adds its shape texts after the earlier slides'; there are none exactly when no slide has any |
| PptxExtractor.SlideTexts | api/custom/extractors/pptx_extractor.py:50-53 | one text per slide, in slide order: that slide's content, stripped |
| PptxExtractor.StrippedEmptyIffBlank | api/custom/extractors/pptx_extractor.py:53-56 | the stripped content is empty iff the content is blank, and a non-empty stripped content is not blank |
| PptxExtractor.KeptFrom | api/custom/extractors/pptx_extractor.py:50-53 | the slide positions kept by the loop: ascending, each with non-empty text, and every position with non-empty text among them |
| PptxExtractor.SlideDocs | api/custom/extractors/pptx_extractor.py:50-62 | documents carry slide numbers counted from the first, strictly ascending; each content is its slide's stripped text and is not empty |
| PptxExtractor.SlideDocsComplete | api/custom/extractors/pptx_extractor.py:50-62 | every slide whose stripped text is not empty has its document, holding that text and its slide number |
| PptxExtractor.SlideDocsEmpty | api/custom/extractors/pptx_extractor.py:53-66 | there are no slide documents iff every stripped text is empty |
| PptxExtractor.PresentationDocs | api/custom/extractors/pptx_extractor.py:50-66 | each slide document's content is not blank, and there are none iff every slide's content is blank |
| PptxExtractor.Extract | api/custom/extractors/pptx_extractor.py:39-80 | a load failure gives "Failed to extract text from PPTX: " and the reason; slide documents are used when some slide has content; when every slide is blank, the result is one source-only document holding the stripped, blank-line-joined shape texts, or nothing when those are blank |
| SystemRoleHooks.IsFeatureEnabled | web/hooks/custom/use-custom-system-role.ts:42 | false when nothing is loaded |
| SystemRoleHooks.IsSystemAdmin | web/hooks/custom/use-custom-system-role.ts:41 | only a loaded role of exactly system_admin counts: never a tenant manager, never the legacy super_admin |
| SystemRoleHooks.IsTenantManager | web/hooks/custom/use-custom-system-role.ts:68 | only a loaded role of exactly tenant_manager counts: never the legacy workspace_admin |
| SystemRoleHooks.UseIsTenantManager | web/hooks/custom/use-custom-system-role.ts:65-72 | reports tenant manager exactly as the role check does, with the same feature flag and loading state as the system-admin hook, and never together with system admin |
| SystemRoleHooks.CanCreateWorkspace | web/hooks/custom/use-custom-system-role.ts:78-88 | true iff the loaded role is system_admin or tenant_manager |
| SystemRoleHooks.UseIsSystemAdmin | web/hooks/custom/use-custom-system-role.ts:37-45 | isSystemAdmin iff the role is system_admin; the feature flag defaults to false |
| SystemRoleHooks.UseIsSuperAdmin | web/hooks/custom/use-custom-system-role.ts:51-59 | reports exactly the values of the system-admin hook |
| SystemRoleHooks.RolesExclusive | web/hooks/custom/use-custom-system-role.ts:37-72 | never both system admin and tenant manager; nothing loaded means neither and no feature |
| AdminPermissions.CanChangeRole | web/hooks/custom/use-custom-admin-permissions.ts:39-61 | refused iff the target is oneself or a system_admin moved off system_admin, the self reason first |
| AdminPermissions.CanChangeStatus | web/hooks/custom/use-custom-admin-permissions.ts:66-88 | only a ban is ever refused: of oneself with the cannot-disable-self reason (checked first), or of another system_admin with the cannot-disable-system-admin reason |
| AdminPermissions.CanDeleteUser | web/hooks/custom/use-custom-admin-permissions.ts:93-114 | refused iff the target is oneself (cannot-delete-self reason, checked first) or another system_admin (cannot-delete-system-admin reason) |
| AdminPermissions.RoleOptionDisabledReason | web/hooks/custom/use-custom-admin-permissions.ts:120-136 | no reason iff the target is someone else and the option does not move a system_admin off system_admin; the self reason wins, otherwise the cannot-demote-system-admin reason |
| AdminPermissions.CanAccessAdminPanel | web/hooks/custom/use-custom-admin-permissions.ts:156 | the panel opens iff the loaded role is system_admin or tenant_manager; never with no role loaded |
| AdminPermissions.CanManageUsers | web/hooks/custom/use-custom-admin-permissions.ts:161 | only a loaded system_admin may manage users, and whoever may also opens the panel |
| AdminPermissions.OptionDisabledIffChangeRefused | web/hooks/custom/use-custom-admin-permissions.ts:120-136 | a drop-down option is disabled iff changing to it is refused, with the same reason |
| AdminPermissions.ManageImpliesPanel | web/hooks/custom/use-custom-admin-permissions.ts:156-161 | managing users implies panel access; a tenant manager has panel access only |
| AdminPermissions.ClientRefusesWhatServerAllows | web/hooks/custom/use-custom-admin-permissions.ts:79-85 | the client refuses to ban another system admin, while the server bans any existing account other than the operator |
| AdminLabels.SystemRoleLabel | web/utils/custom/admin-labels.ts:9-22 | system_admin and super_admin get the system-admin label, tenant_manager and workspace_admin the tenant-manager label, any other string the user label |
| AdminLabels.SystemRoleTip | web/utils/custom/admin-labels.ts:24-37 | the same three groups, each with its tip |
| AdminLabels.SystemRoleGroup | web/utils/custom/admin-labels.ts:9-37 | each current role name is grouped with its legacy name, and every other string falls in the user group |
| AdminLabels.LabelsSurviveUpgrade | web/utils/custom/admin-labels.ts:9-37 | renaming a role as the migration's upgrade does keeps its label and tip |
| AdminLabels.LabelsSurviveDowngrade | web/utils/custom/admin-labels.ts:9-37 | renaming a role back as the downgrade does keeps its label and tip |
| AdminLabels.UnknownRoleReadsAsUser | web/utils/custom/admin-labels.ts:9-37 | an unknown role gets the user label and tip |
| AdminLabels.WorkspaceRoleLabel | web/utils/custom/admin-labels.ts:39-54 | a known workspace role gets its translated label; any other string is shown unchanged |
| AdminLabels.WorkspaceRoleTip | web/utils/custom/admin-labels.ts:56-71 | a known workspace role gets its tip; any other gives "" |
| AdminLabels.StatusLabel | web/utils/custom/admin-labels.ts:73-84 | active, pending and banned each get their own translated label; any other status is shown unchanged |
| RetryPanel.Clamp | web/app/components/workflow/nodes/_base/components/retry/retry-on-panel.tsx:41-44 | the result lies in the range; in-range input is kept; above gives the top, below the bottom |
| RetryPanel.ClampIdempotent | web/app/components/workflow/nodes/_base/components/retry/retry-on-panel.tsx:40-99 | clamping twice equals clamping once |
| RetryPanel.OnRetryEnabledChange | web/app/components/workflow/nodes/_base/components/retry/retry-on-panel.tsx:27-38 | the switch sets retry_enabled to its value and carries or defaults every other field |
| RetryPanel.OnMaxRetriesChange | web/app/components/workflow/nodes/_base/components/retry/retry-on-panel.tsx:40-55 | max_retries lies in [1, 10] and keeps in-range input; retries on; other fields carried |
| RetryPanel.OnRetryIntervalChange | web/app/components/workflow/nodes/_base/components/retry/retry-on-panel.tsx:57-72 | retry_interval lies in [100, 5000] and keeps in-range input; retries on; other fields carried |
| RetryPanel.OnBackoffStrategyChange | web/app/components/workflow/nodes/_base/components/retry/retry-on-panel.tsx:75-84 | the strategy is exactly the chosen one; retries on; other fields carried |
| RetryPanel.OnMaxBackoffIntervalChange | web/app/components/workflow/nodes/_base/components/retry/retry-on-panel.tsx:86-99 | max_backoff_interval lies in [1000, 60000]; an unset strategy becomes exponential; other fields carried |
| RetryPanel.MaxBackoffAloneSwitchesStrategy | web/app/components/workflow/nodes/_base/components/retry/retry-on-panel.tsx:23-99 | with no stored strategy only the max-backoff handler picks exponential; the others and the display keep fixed |
| RetryPanel.DefaultsWhenUnset | web/app/components/workflow/nodes/_base/components/retry/retry-on-panel.tsx:30-35 | with nothing stored the defaults are 3 retries, 1000 ms, fixed, multiplier 2.0 and 60000 ms |
| CreateUserForm.EmailMatches | web/app/components/custom/admin/users/create-user-modal.tsx:19 | the single scan accepts exactly the strings EMAIL_REGEX accepts |
| CreateUserForm.PasswordMatches | web/app/components/custom/admin/users/create-user-modal.tsx:20-22 | the single scan accepts exactly the strings PASSWORD_REGEX accepts: eight or more characters without line terminators, with an ASCII letter and a digit |
| CreateUserForm.SplitFacts | web/app/components/custom/admin/users/create-user-modal.tsx:19 | an accepted email has no whitespace and exactly one "@" |
| CreateUserForm.EmailIsTrimmed | web/app/components/custom/admin/users/create-user-modal.tsx:19-64 | trimming an accepted email leaves it unchanged |
| CreateUserForm.IsValid | web/app/components/custom/admin/users/create-user-modal.tsx:46-50 | a valid form has a non-blank name, an email without edge whitespace and a password of at least eight characters |
| CreateUserForm.Errors | web/app/components/custom/admin/users/create-user-modal.tsx:37-44 | a field shows its error exactly when it was touched and fails its check: a blank name, an email the pattern rejects, a password the pattern rejects |
| CreateUserForm.HandleSubmit | web/app/components/custom/admin/users/create-user-modal.tsx:45-64 | submits iff the form is valid, with the name trimmed of JavaScript whitespace (and so non-empty), the email as typed, the password untouched and the chosen role |
| CreateUserForm.HandleClose | web/app/components/custom/admin/users/create-user-modal.tsx:34-58 | closing empties name, email and password, resets the role to user and the touched marks, and the reset form cannot submit |
| CreateUserForm.ValidFormShowsNoErrors | web/app/components/custom/admin/users/create-user-modal.tsx:37-49 | a valid form or an untouched one shows no field error |

## Left out

- GetAvailableUsers: the query has no `ORDER BY`, so when the limit cuts, which available accounts SQL returns is unspecified. The model returns the first ones in table order; only the number and the properties of the returned accounts are promised in that case.
- The SQLAlchemy session, commits and transactions. Each service call is one atomic step on an immutable value. Check-then-act races on the owner count and the super-admin count are not modelled.
- `ILIKE` patterns. The search match is an opaque parameter, and no escaping of `%`, `_` or `\` is claimed.
- `TenantAccountRole` lives in `models.account`, which is not part of this model. The five workspace roles are those listed by `get_workspace_roles`.
- `AccountService.get_account_by_email_with_case_fallback` and `TenantService.switch_tenant` are not part of this model. They are function parameters.
- `current_account_with_tenant` in the guards is not modelled. The current account is a parameter.
- Python's `lower()` and JavaScript's regular-expression case folding are modelled on ASCII only.
- The flag `DIFY_CUSTOM_MULTI_WORKSPACE_PERMISSION_ENABLED` is imported from a module that is not part of this model. It is a parameter.
- The Pydantic `model_validate` call after flattening is out. Only the flattening is modelled, with a field's kind reduced to "list" or "not list".
- Avatars, timestamps (`created_at`, `joined_at`, ISO formatting) and the source path in document metadata are out. Row order stands for `created_at DESC` ordering: the join table is kept newest first, because `MemberService.AddMember` inserts at the front. Tenants and accounts are never created by the model, so their stored order is taken as already newest first.
- Ties between equal `created_at` values have no order in SQL. `TraceService.Latest` takes the first of the tied rows.
- `TraceService.GetExecutionByTraceId`: a mode string outside the `AppMode` enum makes `AppMode(...)` raise `ValueError` (custom_trace_service.py:36). The model's mode is a closed datatype, so that error path is not modelled; `OtherMode` stands for valid modes the dispatch does not handle, which give None.
- The dictionary formatting of runs and messages in the trace service is out. The result records the rows themselves.
- The migration's DDL is out: the `created_by` column and its index on tenants.
- Click prompts, `click.echo` output and logging. The commands return outcome values instead.
- `partition_doc`, `partition_ppt` and `Presentation(...)` are library calls. Their output is an input: elements with optional text and page, or slides of shapes. Only a failure while loading is modelled as a PPTX error, not one raised later in the walk.
- `PptxExtractor.Extract`'s fallback reads each shape's `text` attribute independently of its text frame. Whether python-pptx can make the two disagree is not modelled.
- JavaScript numbers are integers here. NaN, fractions and `Number.parseInt` on the text inputs of the retry panel are out. The multiplier is carried as a real, never computed with.
- `handleRetryConfigChange`, `onClose`, `onSubmit` and React state hooks are callbacks. The handlers return the value they would pass.
- JavaScript strings are sequences of UTF-16 code units. Here a character is a Unicode scalar value, so the password length and `.` differ for characters outside the Basic Multilingual Plane.
- React Query loading and error states are out. `isLoading` is passed through, and a failed request is the same as no data.
- Presentational components are out, together with the React Query service wrappers, the dashboard, the epub extractor, remote-file fetching, exponential-backoff timing and date formatting.

## Divergences between files

The files model what each one does, and they disagree with one another in places. The model keeps each behaviour and proves the disagreement.

- **Role names after the migration.** The Python enum still reads the legacy names super_admin, workspace_admin and normal. The migration writes system_admin, tenant_manager and user. After the upgrade, a former super admin therefore resolves to NORMAL (`RoleRename.UpgradedSuperAdminReadsAsNormal`). The web hooks compare the new names, while the web type declarations still list the legacy ones. The label helpers accept both (`AdminLabels.LabelsSurviveUpgrade`, `AdminLabels.LabelsSurviveDowngrade`).
- **Protection of other super admins.** The web client refuses to demote or ban another system admin (`AdminPermissions.ClientRefusesWhatServerAllows`). The server only protects the operator's own role and status (`UserService.OtherSuperAdminCanBeDemoted`).
- **Downgrade after upgrade.** A row that already held "user" before the upgrade comes back as "normal" (`RoleRename.PreexistingNewNameDoesNotRoundTrip`).
- **Adding to an empty workspace.** `add_member` accepts any role for a workspace with no members. "A workspace with members has an owner" is therefore not an invariant. What holds is that no operation takes a workspace from one or more owners to none (`MemberService.OwnerSurvivesAllOps`).
- **Available users.** `get_available_users` does not check that the workspace exists.
