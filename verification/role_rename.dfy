/** The migration that renames the stored system-role values
    (super_admin to system_admin, workspace_admin to tenant_manager, normal
    to user) and its downgrade. Each `UPDATE ... WHERE system_role = x` is
    one pass over the account table. */
module RoleRename {
  import opened Base
  import opened Store
  import opened SystemRoles
  import opened PermissionService

  /** `UPDATE accounts SET system_role = to WHERE system_role = from`:
      NULL rows and other values are untouched. */
  function RenamePass(accounts: seq<Account>, from: string, to: string): (r: seq<Account>)
    ensures |r| == |accounts|
    ensures forall i :: 0 <= i < |r| ==>
              r[i] == (if accounts[i].systemRole == Some(from) then accounts[i].(systemRole := Some(to))
                       else accounts[i])
  {
    if |accounts| == 0 then []
    else
      var a := accounts[0];
      [if a.systemRole == Some(from) then a.(systemRole := Some(to)) else a]
      + RenamePass(accounts[1..], from, to)
  }

  /** The upgrade's three statements, in order. No statement renames a
      value an earlier one produced, so together they act as one per-row
      map, and nothing but the role column changes. */
  function Upgrade(accounts: seq<Account>): (r: seq<Account>)
    ensures |r| == |accounts|
    ensures forall i :: 0 <= i < |accounts| ==>
              r[i] == accounts[i].(systemRole := UpgradeValue(accounts[i].systemRole))
  {
    RenamePass(RenamePass(RenamePass(accounts, "super_admin", "system_admin"),
                          "workspace_admin", "tenant_manager"),
               "normal", "user")
  }

  /** The downgrade's three statements, in order; they act as the inverse
      per-row map. */
  function Downgrade(accounts: seq<Account>): (r: seq<Account>)
    ensures |r| == |accounts|
    ensures forall i :: 0 <= i < |accounts| ==>
              r[i] == accounts[i].(systemRole := DowngradeValue(accounts[i].systemRole))
  {
    RenamePass(RenamePass(RenamePass(accounts, "system_admin", "super_admin"),
                          "tenant_manager", "workspace_admin"),
               "user", "normal")
  }

  /** The new name of one stored value; anything else, NULL included, is
      kept. */
  function UpgradeValue(v: Option<string>): Option<string> {
    if v == Some("super_admin") then Some("system_admin")
    else if v == Some("workspace_admin") then Some("tenant_manager")
    else if v == Some("normal") then Some("user")
    else v
  }

  /** The legacy name of one stored value. */
  function DowngradeValue(v: Option<string>): Option<string> {
    if v == Some("system_admin") then Some("super_admin")
    else if v == Some("tenant_manager") then Some("workspace_admin")
    else if v == Some("user") then Some("normal")
    else v
  }

  /** No row holds one of the new names. */
  predicate HoldsNoNewName(accounts: seq<Account>) {
    forall i :: 0 <= i < |accounts| ==>
      accounts[i].systemRole !in {Some("system_admin"), Some("tenant_manager"), Some("user")}
  }

  /** No row holds one of the legacy names. */
  predicate HoldsNoLegacyName(accounts: seq<Account>) {
    forall i :: 0 <= i < |accounts| ==>
      accounts[i].systemRole !in {Some("super_admin"), Some("workspace_admin"), Some("normal")}
  }

  /** Downgrading after upgrading restores the table, provided no row held
      a new name beforehand (such a row would come back with a legacy
      name). */
  lemma DowngradeUndoesUpgrade(accounts: seq<Account>)
    requires HoldsNoNewName(accounts)
    ensures Downgrade(Upgrade(accounts)) == accounts
  {
  }

  /** Upgrading after downgrading restores the table, provided no row held
      a legacy name beforehand. */
  lemma UpgradeUndoesDowngrade(accounts: seq<Account>)
    requires HoldsNoLegacyName(accounts)
    ensures Upgrade(Downgrade(accounts)) == accounts
  {
  }

  /** The upgrade leaves no legacy name behind, so running it twice is the
      same as running it once. */
  lemma UpgradeIdempotent(accounts: seq<Account>)
    ensures HoldsNoLegacyName(Upgrade(accounts))
    ensures Upgrade(Upgrade(accounts)) == Upgrade(accounts)
  {
  }

  /** A row that round-trips the wrong way: a value already named `user`
      before the upgrade comes back as `normal`. */
  lemma PreexistingNewNameDoesNotRoundTrip(a: Account)
    requires a.systemRole == Some("user")
    ensures Downgrade(Upgrade([a])) == [a.(systemRole := Some("normal"))]
  {
  }

  /** The permission checks read the legacy names only: once upgraded, a
      super admin's row reads as `Normal` and passes no super-admin check. */
  lemma UpgradedSuperAdminReadsAsNormal(a: Account)
    requires a.systemRole == Some("super_admin")
    ensures IsSuperAdminAccount(true, a)
    ensures GetSystemRole(true, Upgrade([a])[0]) == Normal
    ensures !IsSuperAdminAccount(true, Upgrade([a])[0])
  {
    assert !IsValidRole(Some("system_admin"));
  }

  /** The column's server default before and after the upgrade. */
  const LegacyDefault: string := "normal"
  const NewDefault: string := "user"

  /** The account table as the migration sees it: its rows and the role
      column's server default, which a row inserted without a role takes. */
  datatype AccountTable = AccountTable(rows: seq<Account>, serverDefault: string)

  /** An `INSERT` that names no role: the new row takes the server default
      and the existing rows are kept. */
  function InsertWithDefault(t: AccountTable, a: Account): (r: AccountTable)
    ensures r.serverDefault == t.serverDefault
    ensures |r.rows| == |t.rows| + 1 && r.rows[..|t.rows|] == t.rows
    ensures r.rows[|t.rows|].systemRole == Some(t.serverDefault)
    ensures r.rows[|t.rows|].(systemRole := a.systemRole) == a
  {
    AccountTable(t.rows + [a.(systemRole := Some(t.serverDefault))], t.serverDefault)
  }

  /** The whole upgrade: the three renames and the new server default. */
  function UpgradeTable(t: AccountTable): (r: AccountTable)
    ensures r.serverDefault == NewDefault
    ensures |r.rows| == |t.rows|
    ensures forall i :: 0 <= i < |t.rows| ==>
              r.rows[i] == t.rows[i].(systemRole := UpgradeValue(t.rows[i].systemRole))
  {
    AccountTable(Upgrade(t.rows), NewDefault)
  }

  /** The whole downgrade: the old server default and the reverse renames. */
  function DowngradeTable(t: AccountTable): (r: AccountTable)
    ensures r.serverDefault == LegacyDefault
    ensures |r.rows| == |t.rows|
    ensures forall i :: 0 <= i < |t.rows| ==>
              r.rows[i] == t.rows[i].(systemRole := DowngradeValue(t.rows[i].systemRole))
  {
    AccountTable(Downgrade(t.rows), LegacyDefault)
  }

  /** The server default moves in step with the rename: on a table still
      defaulting to the legacy name, a row inserted without a role before
      the upgrade ends up exactly as one inserted after it, and the same
      holds for the downgrade of a table defaulting to the new name. */
  lemma DefaultFollowsRename(t: AccountTable, a: Account)
    ensures t.serverDefault == LegacyDefault ==>
              UpgradeTable(InsertWithDefault(t, a)) == InsertWithDefault(UpgradeTable(t), a)
    ensures t.serverDefault == NewDefault ==>
              DowngradeTable(InsertWithDefault(t, a)) == InsertWithDefault(DowngradeTable(t), a)
  {
    if t.serverDefault == LegacyDefault {
      DefaultFollowsUpgrade(t, a);
    }
    if t.serverDefault == NewDefault {
      DefaultFollowsDowngrade(t, a);
    }
  }

  /** Under the legacy default, inserting and then upgrading gives the
      upgraded table with the row inserted under the new default. */
  lemma DefaultFollowsUpgrade(t: AccountTable, a: Account)
    requires t.serverDefault == LegacyDefault
    ensures UpgradeTable(InsertWithDefault(t, a)) == InsertWithDefault(UpgradeTable(t), a)
  {
    var n := |t.rows|;
    var x := UpgradeTable(InsertWithDefault(t, a));
    var y := InsertWithDefault(UpgradeTable(t), a);
    assert x.rows[n] == y.rows[n];
    forall i | 0 <= i < n ensures x.rows[i] == y.rows[i] {
      assert InsertWithDefault(t, a).rows[i] == t.rows[i];
      assert y.rows[i] == UpgradeTable(t).rows[i];
    }
    assert x.rows == y.rows;
  }

  /** Under the new default, inserting and then downgrading gives the
      downgraded table with the row inserted under the legacy default. */
  lemma DefaultFollowsDowngrade(t: AccountTable, a: Account)
    requires t.serverDefault == NewDefault
    ensures DowngradeTable(InsertWithDefault(t, a)) == InsertWithDefault(DowngradeTable(t), a)
  {
    var n := |t.rows|;
    var x := DowngradeTable(InsertWithDefault(t, a));
    var y := InsertWithDefault(DowngradeTable(t), a);
    assert x.rows[n] == y.rows[n];
    forall i | 0 <= i < n ensures x.rows[i] == y.rows[i] {
      assert InsertWithDefault(t, a).rows[i] == t.rows[i];
      assert y.rows[i] == DowngradeTable(t).rows[i];
    }
    assert x.rows == y.rows;
  }

}
