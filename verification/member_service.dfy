/** Workspace membership management by a super admin
    (`CustomAdminMemberService`, api/custom/services/custom_admin_member_service.py).
    Each service call is one atomic step from a database state to an outcome
    and the next state. */
module MemberService {
  import opened Base
  import opened Store

  /** The failures of the mutating calls, in the source's wording below. */
  datatype MemberError =
    | InvalidRole(role: string)
    | WorkspaceNotFound
    | UserNotFound
    | AlreadyMember
    | NotAMember
    | LastOwnerRoleChange
    | LastOwnerRemoval

  /** The error string of the `(False, message)` result. */
  function Message(e: MemberError): string {
    match e
    case InvalidRole(role) => "Invalid role: " + role
    case WorkspaceNotFound => "Workspace not found"
    case UserNotFound => "User not found"
    case AlreadyMember => "User is already a member of this workspace"
    case NotAMember => "User is not a member of this workspace"
    case LastOwnerRoleChange => "Cannot change role: workspace must have at least one owner"
    case LastOwnerRemoval => "Cannot remove the last owner of a workspace"
  }

  /** `(True, "")` or `(False, Message(error))`. */
  datatype Outcome = Success | Failure(error: MemberError)

  /** The result of one call and the state after it. */
  datatype MemberStep = MemberStep(outcome: Outcome, db: Db)

  /** `add_member`: validate the role before any lookup, then require a
      normal workspace, an existing user and no existing join; on success
      insert one join with `current = False`. It is the newest join, so it
      goes first. */
  function AddMember(db: Db, workspaceId: Id, userId: Id, role: string): (r: MemberStep)
    ensures r.outcome.Failure? ==> r.db == db
    ensures ParseWorkspaceRole(role).None? ==> r.outcome == Failure(InvalidRole(role))
    ensures ParseWorkspaceRole(role).Some? && FindNormalTenant(db.tenants, workspaceId).None?
            ==> r.outcome == Failure(WorkspaceNotFound)
    ensures ParseWorkspaceRole(role).Some? && FindNormalTenant(db.tenants, workspaceId).Some?
            && FindAccount(db.accounts, userId).None?
            ==> r.outcome == Failure(UserNotFound)
    ensures ParseWorkspaceRole(role).Some? && FindNormalTenant(db.tenants, workspaceId).Some?
            && FindAccount(db.accounts, userId).Some? && IsMember(db.joins, workspaceId, userId)
            ==> r.outcome == Failure(AlreadyMember)
    ensures r.outcome == Success <==>
              ParseWorkspaceRole(role).Some? && FindNormalTenant(db.tenants, workspaceId).Some?
              && FindAccount(db.accounts, userId).Some? && !IsMember(db.joins, workspaceId, userId)
    ensures r.outcome == Success ==>
              ParseWorkspaceRole(role).Some?
              && r.db == db.(joins := [Join(workspaceId, userId, ParseWorkspaceRole(role).value, false)]
                                      + db.joins)
  {
    match ParseWorkspaceRole(role)
    case None => MemberStep(Failure(InvalidRole(role)), db)
    case Some(workspaceRole) =>
      if FindNormalTenant(db.tenants, workspaceId).None? then MemberStep(Failure(WorkspaceNotFound), db)
      else if FindAccount(db.accounts, userId).None? then MemberStep(Failure(UserNotFound), db)
      else match JoinIndex(db.joins, workspaceId, userId)
        case Some(i) =>
          assert db.joins[i] in db.joins;
          MemberStep(Failure(AlreadyMember), db)
        case None =>
          MemberStep(Success, db.(joins := [Join(workspaceId, userId, workspaceRole, false)] + db.joins))
  }

  /** `update_member_role`: validate the role, find the join, refuse to turn
      the tenant's last owner into a non-owner, then change that one join's
      role. */
  function UpdateMemberRole(db: Db, workspaceId: Id, userId: Id, newRole: string): (r: MemberStep)
    ensures r.outcome.Failure? ==> r.db == db
    ensures ParseWorkspaceRole(newRole).None? ==> r.outcome == Failure(InvalidRole(newRole))
    ensures ParseWorkspaceRole(newRole).Some? && !IsMember(db.joins, workspaceId, userId)
            ==> r.outcome == Failure(NotAMember)
    ensures r.outcome == Failure(LastOwnerRoleChange) <==>
              ParseWorkspaceRole(newRole).Some? && JoinIndex(db.joins, workspaceId, userId).Some?
              && db.joins[JoinIndex(db.joins, workspaceId, userId).value].role == Owner
              && newRole != "owner" && OwnerCount(db.joins, workspaceId) <= 1
    ensures r.outcome == Success <==>
              ParseWorkspaceRole(newRole).Some? && IsMember(db.joins, workspaceId, userId)
              && r.outcome != Failure(LastOwnerRoleChange)
    ensures r.outcome == Success ==>
              ParseWorkspaceRole(newRole).Some? && JoinIndex(db.joins, workspaceId, userId).Some?
              && var i := JoinIndex(db.joins, workspaceId, userId).value;
                 r.db == db.(joins := db.joins[i := db.joins[i].(role := ParseWorkspaceRole(newRole).value)])
  {
    match ParseWorkspaceRole(newRole)
    case None => MemberStep(Failure(InvalidRole(newRole)), db)
    case Some(role) =>
      match JoinIndex(db.joins, workspaceId, userId)
      case None => MemberStep(Failure(NotAMember), db)
      case Some(i) =>
        assert db.joins[i] in db.joins;
        if db.joins[i].role == Owner && role != Owner && OwnerCount(db.joins, workspaceId) <= 1 then
          MemberStep(Failure(LastOwnerRoleChange), db)
        else
          MemberStep(Success, db.(joins := db.joins[i := db.joins[i].(role := role)]))
  }

  /** `remove_member`: find the join, refuse to remove the tenant's last
      owner, then delete that one join. */
  function RemoveMember(db: Db, workspaceId: Id, userId: Id): (r: MemberStep)
    ensures r.outcome.Failure? ==> r.db == db
    ensures !IsMember(db.joins, workspaceId, userId) ==> r.outcome == Failure(NotAMember)
    ensures r.outcome == Failure(LastOwnerRemoval) <==>
              JoinIndex(db.joins, workspaceId, userId).Some?
              && db.joins[JoinIndex(db.joins, workspaceId, userId).value].role == Owner
              && OwnerCount(db.joins, workspaceId) <= 1
    ensures r.outcome == Success <==>
              IsMember(db.joins, workspaceId, userId) && r.outcome != Failure(LastOwnerRemoval)
    ensures r.outcome == Success ==>
              JoinIndex(db.joins, workspaceId, userId).Some?
              && r.db == db.(joins := RemoveAt(db.joins, JoinIndex(db.joins, workspaceId, userId).value))
  {
    match JoinIndex(db.joins, workspaceId, userId)
    case None => MemberStep(Failure(NotAMember), db)
    case Some(i) =>
      assert db.joins[i] in db.joins;
      if db.joins[i].role == Owner && OwnerCount(db.joins, workspaceId) <= 1 then
        MemberStep(Failure(LastOwnerRemoval), db)
      else
        MemberStep(Success, db.(joins := RemoveAt(db.joins, i)))
  }

  /** The three mutating calls, as data. */
  datatype MemberOp =
    | Add(workspaceId: Id, userId: Id, role: string)
    | ChangeRole(workspaceId: Id, userId: Id, newRole: string)
    | Remove(workspaceId: Id, userId: Id)

  /** Perform one call. */
  function Apply(db: Db, op: MemberOp): MemberStep {
    match op
    case Add(w, u, role) => AddMember(db, w, u, role)
    case ChangeRole(w, u, role) => UpdateMemberRole(db, w, u, role)
    case Remove(w, u) => RemoveMember(db, w, u)
  }

  /** Perform a sequence of calls, each on the state the previous one left. */
  function ApplyAll(db: Db, ops: seq<MemberOp>): Db
    decreases |ops|
  {
    if |ops| == 0 then db else ApplyAll(Apply(db, ops[0]).db, ops[1..])
  }

  /** Adding a member never lowers any tenant's owner count. */
  lemma AddMemberKeepsOwners(db: Db, workspaceId: Id, userId: Id, role: string, t: Id)
    ensures OwnerCount(AddMember(db, workspaceId, userId, role).db.joins, t) >= OwnerCount(db.joins, t)
  {
    var r := AddMember(db, workspaceId, userId, role);
    if r.outcome == Success {
      assert r.db.joins[1..] == db.joins;
    }
  }

  /** A role change never takes a tenant from at least one owner to none. */
  lemma UpdateMemberRoleKeepsAnOwner(db: Db, workspaceId: Id, userId: Id, newRole: string, t: Id)
    requires OwnerCount(db.joins, t) >= 1
    ensures OwnerCount(UpdateMemberRole(db, workspaceId, userId, newRole).db.joins, t) >= 1
  {
    var r := UpdateMemberRole(db, workspaceId, userId, newRole);
    if r.outcome == Success {
      var i := JoinIndex(db.joins, workspaceId, userId).value;
      var role := ParseWorkspaceRole(newRole).value;
      CountUpdate(db.joins, i, db.joins[i].(role := role), IsOwnerOf(t));
    }
  }

  /** A removal never takes a tenant from at least one owner to none. */
  lemma RemoveMemberKeepsAnOwner(db: Db, workspaceId: Id, userId: Id, t: Id)
    requires OwnerCount(db.joins, t) >= 1
    ensures OwnerCount(RemoveMember(db, workspaceId, userId).db.joins, t) >= 1
  {
    var r := RemoveMember(db, workspaceId, userId);
    if r.outcome == Success {
      var i := JoinIndex(db.joins, workspaceId, userId).value;
      CountRemove(db.joins, i, IsOwnerOf(t));
    }
  }

  /** The last-owner invariant: no sequence of add, role-change and remove
      calls takes any tenant from at least one owner to none. */
  lemma {:induction false} OwnerSurvivesAllOps(db: Db, ops: seq<MemberOp>, t: Id)
    requires OwnerCount(db.joins, t) >= 1
    ensures OwnerCount(ApplyAll(db, ops).joins, t) >= 1
    decreases |ops|
  {
    if |ops| > 0 {
      var next := Apply(db, ops[0]).db;
      match ops[0] {
        case Add(w, u, role) => AddMemberKeepsOwners(db, w, u, role, t);
        case ChangeRole(w, u, role) => UpdateMemberRoleKeepsAnOwner(db, w, u, role, t);
        case Remove(w, u) => RemoveMemberKeepsAnOwner(db, w, u, t);
      }
      OwnerSurvivesAllOps(next, ops[1..], t);
    }
  }

  /** A second `add_member` of the same pair is rejected and adds nothing. */
  lemma AddTwiceIsRejected(db: Db, workspaceId: Id, userId: Id, role: string)
    requires AddMember(db, workspaceId, userId, role).outcome == Success
    ensures var once := AddMember(db, workspaceId, userId, role).db;
            var twice := AddMember(once, workspaceId, userId, role);
            twice.outcome == Failure(AlreadyMember) && twice.db == once
            && |once.joins| == |db.joins| + 1
  {
    var once := AddMember(db, workspaceId, userId, role).db;
    assert once.joins[0] in once.joins;
  }

  /** The last-owner guard on a concrete tenant: with a single owner A,
      neither removing A nor demoting A succeeds; once B is added as a
      second owner, demoting A succeeds and B is the only owner left. */
  lemma LastOwnerScenario(t: Id, a: Id, b: Id)
    requires a != b
    ensures var db := Db([Account(a, "A", "a@x", Active, None), Account(b, "B", "b@x", Active, None)],
                         [Tenant(t, "T", TenantNormal)],
                         [Join(t, a, Owner, true)]);
            RemoveMember(db, t, a).outcome == Failure(LastOwnerRemoval)
            && UpdateMemberRole(db, t, a, "editor").outcome == Failure(LastOwnerRoleChange)
            && var withB := AddMember(db, t, b, "owner");
               withB.outcome == Success
               && UpdateMemberRole(withB.db, t, a, "editor").outcome == Success
               && OwnerCount(UpdateMemberRole(withB.db, t, a, "editor").db.joins, t) == 1
  {
    var db := Db([Account(a, "A", "a@x", Active, None), Account(b, "B", "b@x", Active, None)],
                 [Tenant(t, "T", TenantNormal)],
                 [Join(t, a, Owner, true)]);
    assert db.joins[1..] == [];
    assert IsOwnerOf(t)(db.joins[0]);
    assert CountWhere(db.joins, IsOwnerOf(t)) == 1 + CountWhere(db.joins[1..], IsOwnerOf(t));
    assert OwnerCount(db.joins, t) == 1;
    assert !IsMember(db.joins, t, b);
    var withB := AddMember(db, t, b, "owner");
    assert withB.db.joins == [Join(t, b, Owner, false), Join(t, a, Owner, true)];
    assert withB.db.joins[1..] == db.joins;
    assert OwnerCount(withB.db.joins, t) == 2;
    assert JoinIndex(withB.db.joins, t, a) == Some(1);
    var after := UpdateMemberRole(withB.db, t, a, "editor");
    assert after.db.joins == [Join(t, b, Owner, false), Join(t, a, Editor, true)];
    assert after.db.joins[1..] == [Join(t, a, Editor, true)];
    assert after.db.joins[1..][1..] == [];
    assert !IsOwnerOf(t)(Join(t, a, Editor, true));
    assert CountWhere(after.db.joins[1..], IsOwnerOf(t)) == 0;
  }

  /** One row of the member listing. */
  datatype MemberView = MemberView(id: Id, name: string, email: string, status: string,
                                   role: WorkspaceRole)

  /** The rows of the member query: each join of the workspace paired with
      its account, filtered by the search, in join order. */
  function MemberRows(accounts: seq<Account>, joins: seq<Join>, workspaceId: Id, search: string,
                      matches: (string, string) -> bool): (r: seq<MemberView>)
    ensures |r| <= |joins|
  {
    if |joins| == 0 then []
    else
      var rest := MemberRows(accounts, joins[1..], workspaceId, search, matches);
      var j := joins[0];
      match FindAccount(accounts, j.accountId)
      case Some(a) =>
        if j.tenantId == workspaceId && AccountMatches(a, search, matches) then
          [MemberView(a.id, a.name, a.email, a.status, j.role)] + rest
        else rest
      case None => rest
  }

  /** Each row of the member query is a join of the workspace whose account
      exists and matches the search, and shows that account and the join's
      role. */
  lemma {:induction false} MemberRowsSound(accounts: seq<Account>, joins: seq<Join>, workspaceId: Id,
                                           search: string, matches: (string, string) -> bool)
    ensures var r := MemberRows(accounts, joins, workspaceId, search, matches);
            forall v :: v in r ==>
              (Join(workspaceId, v.id, v.role, false) in joins || Join(workspaceId, v.id, v.role, true) in joins)
              && exists a :: FindAccount(accounts, v.id) == Some(a) && AccountMatches(a, search, matches)
                             && a.name == v.name && a.email == v.email && a.status == v.status
  {
    if |joins| > 0 {
      MemberRowsSound(accounts, joins[1..], workspaceId, search, matches);
      var j := joins[0];
      assert forall x :: x in joins[1..] ==> x in joins;
      match FindAccount(accounts, j.accountId)
      case Some(a) =>
        if j.tenantId == workspaceId && AccountMatches(a, search, matches) {
          assert j == Join(workspaceId, a.id, j.role, j.current);
        }
      case None =>
    }
  }

  /** The joins the member query keeps: of the workspace, with an account
      row that matches the search. */
  function IsListedJoin(accounts: seq<Account>, workspaceId: Id, search: string,
                        matches: (string, string) -> bool): Join -> bool {
    (j: Join) => j.tenantId == workspaceId && FindAccount(accounts, j.accountId).Some?
                 && AccountMatches(FindAccount(accounts, j.accountId).value, search, matches)
  }

  /** The row the query shows for a join and its account. */
  function JoinView(a: Account, j: Join): MemberView {
    MemberView(a.id, a.name, a.email, a.status, j.role)
  }

  /** Whatever the search, the rows are exactly the kept joins, in join
      order, one row each, showing the join's account and role. */
  lemma {:induction false} MemberRowsComplete(accounts: seq<Account>, joins: seq<Join>, workspaceId: Id,
                                              search: string, matches: (string, string) -> bool)
    ensures |MemberRows(accounts, joins, workspaceId, search, matches)|
            == CountWhere(joins, IsListedJoin(accounts, workspaceId, search, matches))
    ensures forall k :: 0 <= k < |MemberRows(accounts, joins, workspaceId, search, matches)| ==>
              FindAccount(accounts, Filter(joins, IsListedJoin(accounts, workspaceId, search, matches))[k].accountId).Some?
              && MemberRows(accounts, joins, workspaceId, search, matches)[k]
                 == JoinView(FindAccount(accounts, Filter(joins, IsListedJoin(accounts, workspaceId, search, matches))[k].accountId).value,
                             Filter(joins, IsListedJoin(accounts, workspaceId, search, matches))[k])
  {
    if |joins| > 0 {
      MemberRowsComplete(accounts, joins[1..], workspaceId, search, matches);
      var p := IsListedJoin(accounts, workspaceId, search, matches);
      var rest := MemberRows(accounts, joins[1..], workspaceId, search, matches);
      var kept := Filter(joins[1..], p);
      assert Filter(joins, p) == (if p(joins[0]) then [joins[0]] else []) + kept;
      if p(joins[0]) {
        var a := FindAccount(accounts, joins[0].accountId).value;
        assert MemberRows(accounts, joins, workspaceId, search, matches) == [JoinView(a, joins[0])] + rest;
      } else {
        assert MemberRows(accounts, joins, workspaceId, search, matches) == rest;
      }
    }
  }

  /** Every join of the workspace whose account exists and matches the
      search shows up as a row with that account and the join's role. */
  lemma MemberRowsListEveryMatch(accounts: seq<Account>, joins: seq<Join>, workspaceId: Id,
                                 search: string, matches: (string, string) -> bool, j: Join, a: Account)
    requires j in joins && j.tenantId == workspaceId
    requires FindAccount(accounts, j.accountId) == Some(a) && AccountMatches(a, search, matches)
    ensures JoinView(a, j) in MemberRows(accounts, joins, workspaceId, search, matches)
  {
    var p := IsListedJoin(accounts, workspaceId, search, matches);
    var kept := Filter(joins, p);
    assert p(j);
    var k :| 0 <= k < |kept| && kept[k] == j;
    MemberRowsComplete(accounts, joins, workspaceId, search, matches);
    assert MemberRows(accounts, joins, workspaceId, search, matches)[k] == JoinView(a, j);
  }

  /** The result of `get_workspace_members`. */
  datatype MembersPage = MembersPage(items: seq<MemberView>, total: nat, workspace: Option<Tenant>)

  /** `get_workspace_members`: nothing for a missing or archived workspace;
      otherwise the total number of matching members and one page of them. */
  function GetWorkspaceMembers(db: Db, workspaceId: Id, page: int, limit: nat, search: string,
                               matches: (string, string) -> bool): (r: MembersPage)
    requires page >= 1
    ensures FindNormalTenant(db.tenants, workspaceId).None? ==> r == MembersPage([], 0, None)
    ensures r.workspace.Some? ==> r.workspace.value.id == workspaceId
                                  && r.workspace.value.status == TenantNormal
    ensures |r.items| <= limit
    ensures var rows := MemberRows(db.accounts, db.joins, workspaceId, search, matches);
            r.workspace.Some? ==>
              r.total == |rows|
              && |r.items| == (if Offset(page, limit) >= |rows| then 0
                               else if |rows| - Offset(page, limit) < limit then |rows| - Offset(page, limit)
                               else limit)
              && forall i :: 0 <= i < |r.items| ==>
                   Offset(page, limit) + i < |rows| && r.items[i] == rows[Offset(page, limit) + i]
  {
    match FindNormalTenant(db.tenants, workspaceId)
    case None => MembersPage([], 0, None)
    case Some(workspace) =>
      var rows := MemberRows(db.accounts, db.joins, workspaceId, search, matches);
      MembersPage(Page(rows, page, limit), |rows|, Some(workspace))
  }

  /** Without a search term, the member query has one row per join of the
      workspace whose account exists. */
  lemma {:induction false} MemberRowsCountJoins(accounts: seq<Account>, joins: seq<Join>, workspaceId: Id,
                                                matches: (string, string) -> bool)
    requires forall j :: j in joins ==> FindAccount(accounts, j.accountId).Some?
    ensures |MemberRows(accounts, joins, workspaceId, "", matches)| == MemberCount(joins, workspaceId)
  {
    if |joins| > 0 {
      assert joins[0] in joins;
      assert forall j :: j in joins[1..] ==> j in joins;
      MemberRowsCountJoins(accounts, joins[1..], workspaceId, matches);
    }
  }

  /** For any search, the total of a NORMAL workspace counts exactly its
      joins whose account exists and matches the search. */
  lemma MembersTotalCountsMatches(db: Db, workspaceId: Id, page: int, limit: nat, search: string,
                                  matches: (string, string) -> bool)
    requires page >= 1
    requires FindNormalTenant(db.tenants, workspaceId).Some?
    ensures GetWorkspaceMembers(db, workspaceId, page, limit, search, matches).total
            == CountWhere(db.joins, IsListedJoin(db.accounts, workspaceId, search, matches))
  {
    MemberRowsComplete(db.accounts, db.joins, workspaceId, search, matches);
  }

  /** In a well-formed database, an unsearched listing of a normal
      workspace reports its full member count. */
  lemma MembersTotalIsMemberCount(db: Db, workspaceId: Id, page: int, limit: nat,
                                  matches: (string, string) -> bool)
    requires WellFormed(db) && page >= 1
    requires FindNormalTenant(db.tenants, workspaceId).Some?
    ensures GetWorkspaceMembers(db, workspaceId, page, limit, "", matches).total
            == MemberCount(db.joins, workspaceId)
  {
    MemberRowsCountJoins(db.accounts, db.joins, workspaceId, matches);
  }

  /** The member listing is ordered by join time, newest first: right after
      a successful `add_member`, the new member heads page one of every
      listing whose search it matches, and the total grows by one. */
  lemma NewMemberListedFirst(db: Db, workspaceId: Id, userId: Id, role: string, limit: nat,
                             search: string, matches: (string, string) -> bool, a: Account)
    requires AddMember(db, workspaceId, userId, role).outcome == Success
    requires FindAccount(db.accounts, userId) == Some(a) && AccountMatches(a, search, matches)
    requires limit >= 1
    ensures var after := GetWorkspaceMembers(AddMember(db, workspaceId, userId, role).db, workspaceId,
                                             1, limit, search, matches);
            var before := GetWorkspaceMembers(db, workspaceId, 1, limit, search, matches);
            |after.items| >= 1
            && after.items[0] == MemberView(userId, a.name, a.email, a.status, ParseWorkspaceRole(role).value)
            && after.total == before.total + 1
  {
    var joins := AddMember(db, workspaceId, userId, role).db.joins;
    assert joins[1..] == db.joins;
  }

  /** The filter of `get_available_users`: active, not joined to the
      workspace, and matching the search. */
  function IsAvailable(joins: seq<Join>, workspaceId: Id, search: string,
                       matches: (string, string) -> bool): Account -> bool
  {
    (a: Account) => a.status == Active && !IsMember(joins, workspaceId, a.id)
                    && AccountMatches(a, search, matches)
  }

  /** `get_available_users`: at most `limit` active accounts that have no
      join in the workspace. The workspace itself is not looked up. */
  function GetAvailableUsers(db: Db, workspaceId: Id, search: string, limit: nat,
                             matches: (string, string) -> bool): (r: seq<Account>)
    ensures |r| <= limit
    ensures |r| == if limit < CountWhere(db.accounts, IsAvailable(db.joins, workspaceId, search, matches)) then limit
                   else CountWhere(db.accounts, IsAvailable(db.joins, workspaceId, search, matches))
    ensures forall a :: a in r ==>
              a in db.accounts && a.status == Active && !IsMember(db.joins, workspaceId, a.id)
              && AccountMatches(a, search, matches)
  {
    Take(Filter(db.accounts, IsAvailable(db.joins, workspaceId, search, matches)), limit)
  }

  /** With a limit no smaller than the account table, every active
      non-member that matches the search is offered. */
  lemma AvailableUsersComplete(db: Db, workspaceId: Id, search: string, limit: nat,
                               matches: (string, string) -> bool, a: Account)
    requires limit >= CountWhere(db.accounts, IsAvailable(db.joins, workspaceId, search, matches))
    requires a in db.accounts && a.status == Active && !IsMember(db.joins, workspaceId, a.id)
    requires AccountMatches(a, search, matches)
    ensures a in GetAvailableUsers(db, workspaceId, search, limit, matches)
  {
    assert IsAvailable(db.joins, workspaceId, search, matches)(a);
  }


  /** One entry of the workspace-role catalogue. */
  datatype RoleInfo = RoleInfo(value: WorkspaceRole, name: string, description: string)

  /** `get_workspace_roles`: the fixed catalogue, owner first. */
  function GetWorkspaceRoles(): (r: seq<RoleInfo>)
    ensures |r| == 5
    ensures r[0].value == Owner && r[1].value == Admin && r[2].value == Editor
            && r[3].value == NormalMember && r[4].value == DatasetOperator
    ensures forall role :: RoleRank(role) < |r| && r[RoleRank(role)].value == role
  {
    var roles := [
      RoleInfo(Owner, "Owner", "Full control of the workspace"),
      RoleInfo(Admin, "Admin", "Can manage members and settings"),
      RoleInfo(Editor, "Editor", "Can create and edit apps and datasets"),
      RoleInfo(NormalMember, "Normal", "Read-only access"),
      RoleInfo(DatasetOperator, "Dataset Operator", "Can manage datasets only")
    ];
    roles
  }

  /** The position of a role in the catalogue. */
  function RoleRank(role: WorkspaceRole): nat {
    match role
    case Owner => 0
    case Admin => 1
    case Editor => 2
    case NormalMember => 3
    case DatasetOperator => 4
  }

  /** The catalogue offers exactly the role strings the mutating calls
      accept. */
  lemma CatalogueMatchesValidation(s: string)
    ensures ParseWorkspaceRole(s).Some? <==>
              exists i :: 0 <= i < |GetWorkspaceRoles()| && RoleValue(GetWorkspaceRoles()[i].value) == s
  {
    var roles := GetWorkspaceRoles();
    if ParseWorkspaceRole(s).Some? {
      var i := RoleRank(ParseWorkspaceRole(s).value);
      assert RoleValue(roles[i].value) == s;
    }
  }

  /** One row of `get_all_workspaces`. */
  datatype WorkspaceSummary = WorkspaceSummary(tenant: Tenant, memberCount: nat)

  /** The filter of `get_all_workspaces`: normal tenants whose name matches
      the search. */
  function IsListedWorkspace(search: string, matches: (string, string) -> bool): Tenant -> bool {
    (t: Tenant) => t.status == TenantNormal && (search == "" || matches(t.name, search))
  }

  /** `get_all_workspaces`: one page of the matching normal workspaces, each
      with its number of joins, and the total before paging. */
  function GetAllWorkspaces(db: Db, page: int, limit: nat, search: string,
                            matches: (string, string) -> bool): (r: (seq<WorkspaceSummary>, nat))
    requires page >= 1
    ensures |r.0| <= limit
    ensures r.1 == CountWhere(db.tenants, IsListedWorkspace(search, matches))
    ensures forall w :: w in r.0 ==>
              w.tenant in db.tenants && w.tenant.status == TenantNormal
              && w.memberCount == MemberCount(db.joins, w.tenant.id)
  {
    var rows := Filter(db.tenants, IsListedWorkspace(search, matches));
    (Summaries(Page(rows, page, limit), db.joins), |rows|)
  }

  /** The page holds exactly the listed workspaces from the page's offset
      on, as many as fit, each with its member count. */
  lemma GetAllWorkspacesPage(db: Db, page: int, limit: nat, search: string, matches: (string, string) -> bool)
    requires page >= 1
    ensures |GetAllWorkspaces(db, page, limit, search, matches).0|
            == (if Offset(page, limit) >= |ListedWorkspaces(db, search, matches)| then 0
                else if |ListedWorkspaces(db, search, matches)| - Offset(page, limit) < limit
                then |ListedWorkspaces(db, search, matches)| - Offset(page, limit)
                else limit)
    ensures forall i :: 0 <= i < |GetAllWorkspaces(db, page, limit, search, matches).0| ==>
              Offset(page, limit) + i < |ListedWorkspaces(db, search, matches)|
              && GetAllWorkspaces(db, page, limit, search, matches).0[i]
                 == WorkspaceSummary(ListedWorkspaces(db, search, matches)[Offset(page, limit) + i],
                                     MemberCount(db.joins, ListedWorkspaces(db, search, matches)[Offset(page, limit) + i].id))
  {
    assert GetAllWorkspaces(db, page, limit, search, matches).0
           == Summaries(Page(ListedWorkspaces(db, search, matches), page, limit), db.joins);
    SummariesOfPage(ListedWorkspaces(db, search, matches), db.joins, page, limit);
  }

  /** The summaries of one page of tenants, position by position. */
  lemma SummariesOfPage(rows: seq<Tenant>, joins: seq<Join>, page: int, limit: nat)
    requires page >= 1
    ensures forall i :: 0 <= i < |Summaries(Page(rows, page, limit), joins)| ==>
              Offset(page, limit) + i < |rows|
              && Summaries(Page(rows, page, limit), joins)[i]
                 == WorkspaceSummary(rows[Offset(page, limit) + i], MemberCount(joins, rows[Offset(page, limit) + i].id))
  {
    var onPage := Page(rows, page, limit);
    var items := Summaries(onPage, joins);
    forall i | 0 <= i < |items|
      ensures Offset(page, limit) + i < |rows|
              && items[i] == WorkspaceSummary(rows[Offset(page, limit) + i], MemberCount(joins, rows[Offset(page, limit) + i].id))
    {
      assert onPage[i] == rows[Offset(page, limit) + i];
    }
  }

  /** The workspaces the listing selects, before paging. */
  function ListedWorkspaces(db: Db, search: string, matches: (string, string) -> bool): seq<Tenant> {
    Filter(db.tenants, IsListedWorkspace(search, matches))
  }


  /** Each tenant with its number of joins. */
  function Summaries(tenants: seq<Tenant>, joins: seq<Join>): (r: seq<WorkspaceSummary>)
    ensures |r| == |tenants|
    ensures forall i :: 0 <= i < |r| ==> r[i] == WorkspaceSummary(tenants[i], MemberCount(joins, tenants[i].id))
    ensures forall w :: w in r ==> w.tenant in tenants
    ensures forall w :: w in r ==> w.memberCount == MemberCount(joins, w.tenant.id)
  {
    if |tenants| == 0 then []
    else [WorkspaceSummary(tenants[0], MemberCount(joins, tenants[0].id))] + Summaries(tenants[1..], joins)
  }
}
