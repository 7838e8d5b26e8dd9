/** The three relations the permission subsystem reads and writes: accounts,
    tenants (workspaces) and the tenant-account joins. Each table is a
    sequence of rows, newest first: the order of the listings' `ORDER BY
    created_at DESC`. A `.first()` query takes the first matching row, and a
    listing keeps the rows in this order. */
module Store {
  import opened Base

  type Id = string

  /** An account row. `systemRole` is the raw stored string; `None` is a
      NULL column (or a row predating the column). */
  datatype Account = Account(id: Id, name: string, email: string, status: string,
                             systemRole: Option<string>)

  /** The `AccountStatus` values the subsystem writes. */
  const Active: string := "active"
  const Banned: string := "banned"

  datatype TenantStatus = TenantNormal | TenantArchived

  /** A tenant (workspace) row. */
  datatype Tenant = Tenant(id: Id, name: string, status: TenantStatus)

  /** The five workspace roles of `TenantAccountRole`. */
  datatype WorkspaceRole = Owner | Admin | Editor | NormalMember | DatasetOperator

  /** The string each workspace role is stored as. */
  function RoleValue(r: WorkspaceRole): string {
    match r
    case Owner => "owner"
    case Admin => "admin"
    case Editor => "editor"
    case NormalMember => "normal"
    case DatasetOperator => "dataset_operator"
  }

  /** `TenantAccountRole.is_valid_role(s)` followed by `TenantAccountRole(s)`:
      the role whose value is exactly `s`, if any. */
  function ParseWorkspaceRole(s: string): (r: Option<WorkspaceRole>)
    ensures r.Some? ==> RoleValue(r.value) == s
    ensures forall role :: RoleValue(role) == s ==> r == Some(role)
  {
    if s == "owner" then Some(Owner)
    else if s == "admin" then Some(Admin)
    else if s == "editor" then Some(Editor)
    else if s == "normal" then Some(NormalMember)
    else if s == "dataset_operator" then Some(DatasetOperator)
    else None
  }

  /** A tenant-account join: membership of one account in one tenant. */
  datatype Join = Join(tenantId: Id, accountId: Id, role: WorkspaceRole, current: bool)

  /** The database state. A row created later sits before every older row
      of its table. */
  datatype Db = Db(accounts: seq<Account>, tenants: seq<Tenant>, joins: seq<Join>)

  /** The position of the first account row with this id. */
  function AccountIndex(accounts: seq<Account>, id: Id): (r: Option<nat>)
    ensures r.Some? ==> r.value < |accounts| && accounts[r.value].id == id
    ensures r.Some? ==> forall k :: 0 <= k < r.value ==> accounts[k].id != id
    ensures r.None? <==> forall k :: 0 <= k < |accounts| ==> accounts[k].id != id
  {
    if |accounts| == 0 then None
    else if accounts[0].id == id then Some(0)
    else match AccountIndex(accounts[1..], id)
      case None => None
      case Some(k) => Some(k + 1)
  }

  /** `query(Account).filter(Account.id == id).first()`. */
  function FindAccount(accounts: seq<Account>, id: Id): (r: Option<Account>)
    ensures r.Some? ==> r.value in accounts && r.value.id == id
    ensures r.None? <==> forall a :: a in accounts ==> a.id != id
  {
    match AccountIndex(accounts, id)
    case None => None
    case Some(k) => Some(accounts[k])
  }

  /** The position of the first tenant row with this id. */
  function TenantIndex(tenants: seq<Tenant>, id: Id): (r: Option<nat>)
    ensures r.Some? ==> r.value < |tenants| && tenants[r.value].id == id
    ensures r.None? <==> forall k :: 0 <= k < |tenants| ==> tenants[k].id != id
  {
    if |tenants| == 0 then None
    else if tenants[0].id == id then Some(0)
    else match TenantIndex(tenants[1..], id)
      case None => None
      case Some(k) => Some(k + 1)
  }

  /** `query(Tenant).filter(Tenant.id == id).first()`. */
  function FindTenant(tenants: seq<Tenant>, id: Id): (r: Option<Tenant>)
    ensures r.Some? ==> r.value in tenants && r.value.id == id
    ensures r.None? <==> forall t :: t in tenants ==> t.id != id
  {
    match TenantIndex(tenants, id)
    case None => None
    case Some(k) => Some(tenants[k])
  }

  /** `query(Tenant).filter(Tenant.id == id, Tenant.status == NORMAL).first()`. */
  function FindNormalTenant(tenants: seq<Tenant>, id: Id): (r: Option<Tenant>)
    ensures r.Some? ==> r.value in tenants && r.value.id == id && r.value.status == TenantNormal
    ensures r.None? <==> forall t :: t in tenants ==> !(t.id == id && t.status == TenantNormal)
  {
    if |tenants| == 0 then None
    else if tenants[0].id == id && tenants[0].status == TenantNormal then Some(tenants[0])
    else
      var r := FindNormalTenant(tenants[1..], id);
      assert forall t :: t in tenants ==> t == tenants[0] || t in tenants[1..];
      r
  }

  /** The join row of `accountId` in `tenantId`, if any. */
  predicate IsJoinOf(j: Join, tenantId: Id, accountId: Id) {
    j.tenantId == tenantId && j.accountId == accountId
  }

  /** The position of the first join row for the pair. */
  function JoinIndex(joins: seq<Join>, tenantId: Id, accountId: Id): (r: Option<nat>)
    ensures r.Some? ==> r.value < |joins| && IsJoinOf(joins[r.value], tenantId, accountId)
    ensures r.Some? ==> forall k :: 0 <= k < r.value ==> !IsJoinOf(joins[k], tenantId, accountId)
    ensures r.None? <==> forall k :: 0 <= k < |joins| ==> !IsJoinOf(joins[k], tenantId, accountId)
  {
    if |joins| == 0 then None
    else if IsJoinOf(joins[0], tenantId, accountId) then Some(0)
    else match JoinIndex(joins[1..], tenantId, accountId)
      case None => None
      case Some(k) => Some(k + 1)
  }

  /** Some join row exists for the pair. */
  predicate IsMember(joins: seq<Join>, tenantId: Id, accountId: Id) {
    exists j :: j in joins && IsJoinOf(j, tenantId, accountId)
  }

  /** The selector of owner joins of one tenant. */
  function IsOwnerOf(tenantId: Id): Join -> bool {
    (j: Join) => j.tenantId == tenantId && j.role == Owner
  }

  /** The number of owner joins of a tenant. */
  function OwnerCount(joins: seq<Join>, tenantId: Id): nat {
    CountWhere(joins, IsOwnerOf(tenantId))
  }

  /** The selector of join rows of one tenant. */
  function IsJoinInTenant(tenantId: Id): Join -> bool {
    (j: Join) => j.tenantId == tenantId
  }

  /** The number of join rows of a tenant. */
  function MemberCount(joins: seq<Join>, tenantId: Id): nat {
    CountWhere(joins, IsJoinInTenant(tenantId))
  }

  /** `s` without its element at `i` (the SQL `DELETE` of one row). */
  function RemoveAt<T>(s: seq<T>, i: nat): (r: seq<T>)
    requires i < |s|
    ensures |r| == |s| - 1
    ensures forall k :: 0 <= k < i ==> r[k] == s[k]
    ensures forall k :: i <= k < |r| ==> r[k] == s[k + 1]
  {
    s[..i] + s[i + 1..]
  }

  /** Whether the stored system role is exactly `super_admin`: SQL
      `system_role == 'super_admin'`. */
  function IsStoredSuperAdmin(): Account -> bool {
    (a: Account) => a.systemRole == Some("super_admin")
  }

  /** The number of accounts whose stored role is `super_admin`. */
  function SuperAdminCount(accounts: seq<Account>): nat {
    CountWhere(accounts, IsStoredSuperAdmin())
  }

  /** Account ids are unique. */
  predicate UniqueAccountIds(accounts: seq<Account>) {
    forall i, k :: 0 <= i < k < |accounts| ==> accounts[i].id != accounts[k].id
  }

  /** Tenant ids are unique. */
  predicate UniqueTenantIds(tenants: seq<Tenant>) {
    forall i, k :: 0 <= i < k < |tenants| ==> tenants[i].id != tenants[k].id
  }

  /** At most one join per (tenant, account) pair. */
  predicate UniqueJoins(joins: seq<Join>) {
    forall i, k :: 0 <= i < k < |joins| ==>
      !IsJoinOf(joins[k], joins[i].tenantId, joins[i].accountId)
  }

  /** Every join names an existing tenant and an existing account. */
  predicate JoinsReferToRows(db: Db) {
    forall j :: j in db.joins ==>
      FindTenant(db.tenants, j.tenantId).Some? && FindAccount(db.accounts, j.accountId).Some?
  }

  /** The keys and foreign keys the schema enforces. */
  predicate WellFormed(db: Db) {
    UniqueAccountIds(db.accounts) && UniqueTenantIds(db.tenants) && UniqueJoins(db.joins)
    && JoinsReferToRows(db)
  }

  /** The name-or-email search of the listings: `name ILIKE %term%` or
      `email ILIKE %term%`, with the pattern match itself left opaque as
      `matches(text, term)`. An empty term applies no filter. */
  predicate AccountMatches(a: Account, search: string, matches: (string, string) -> bool) {
    search == "" || matches(a.name, search) || matches(a.email, search)
  }

  /** Overwriting the first row with an id by a row with the same id keeps
      it the first row with that id. */
  lemma AccountIndexAfterUpdate(accounts: seq<Account>, i: nat, a: Account)
    requires i < |accounts| && AccountIndex(accounts, accounts[i].id) == Some(i)
    requires a.id == accounts[i].id
    ensures AccountIndex(accounts[i := a], a.id) == Some(i)
  {
  }

  /** The first row with the id takes a new value; nothing else changes. */
  function SetAccount(db: Db, i: nat, a: Account): (r: Db)
    requires i < |db.accounts| && a.id == db.accounts[i].id
    requires AccountIndex(db.accounts, a.id) == Some(i)
    ensures r.tenants == db.tenants && r.joins == db.joins && |r.accounts| == |db.accounts|
    ensures FindAccount(r.accounts, a.id) == Some(a)
    ensures forall k :: 0 <= k < |db.accounts| && k != i ==> r.accounts[k] == db.accounts[k]
    ensures r == db.(accounts := db.accounts[i := a])
  {
    AccountIndexAfterUpdate(db.accounts, i, a);
    db.(accounts := db.accounts[i := a])
  }
}
