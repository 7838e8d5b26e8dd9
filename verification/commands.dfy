/** The command-line tools that grant, list and revoke the super-admin
    role (api/custom/commands.py). The account lookup by e-mail is the
    parameter `lookup`, applied to the normalised address; the printed
    lines are reduced to an outcome value. */
module SuperAdminCommands {
  import opened Base
  import opened Text
  import opened Store

  /** What a command reports. */
  datatype CommandOutcome =
    | FeatureDisabled
    | ConfirmRequired
    | AccountNotFound(email: string)
    | AlreadySuperAdmin(email: string)
    | NotSuperAdmin(email: string, currentRole: string)
    | LastSuperAdmin
    | RoleChanged(email: string, previousRole: string, newRole: string)

  datatype CommandStep = CommandStep(outcome: CommandOutcome, db: Db)

  /** The address the lookup sees: stripped and lower-cased. */
  function NormalizeEmail(email: string): (n: string)
    ensures forall i :: 0 <= i < |n| ==> !('A' <= n[i] <= 'Z')
    ensures |n| == 0 || (!IsPySpace(n[0]) && !IsPySpace(n[|n| - 1]))
  {
    var s := Strip(email);
    var n := Lower(s);
    if |n| == 0 then n
    else
      LowerKeepsPySpace(s[0]);
      LowerKeepsPySpace(s[|s| - 1]);
      n
  }

  /** The normalised address is the lower-cased middle of the input: what
      lies before and after it is whitespace only. */
  lemma NormalizeEmailIsLoweredMiddle(email: string)
    ensures exists i, j :: 0 <= i <= j <= |email| && IsPyBlank(email[..i]) && IsPyBlank(email[j..])
                           && NormalizeEmail(email) == Lower(email[i..j])
  {
    TrimIsMiddle(email, IsPySpace);
  }

  /** Normalising an already normalised address changes nothing. */
  lemma NormalizeEmailIdempotent(email: string)
    ensures NormalizeEmail(NormalizeEmail(email)) == NormalizeEmail(email)
  {
    var n := NormalizeEmail(email);
    TrimOfTrimmed(n, IsPySpace);
    assert Strip(n) == n;
    LowerIdempotent(Strip(email));
  }

  /** Lower-casing neither creates nor removes whitespace. */
  lemma LowerKeepsPySpace(c: char)
    ensures IsPySpace(AsciiLowerChar(c)) == IsPySpace(c)
  {
  }

  /** The role a command reports: the stored one, or "normal" for NULL or
      empty. */
  function CurrentRole(a: Account): string {
    if a.systemRole.Some? && a.systemRole.value != "" then a.systemRole.value else "normal"
  }

  /** The account the lookup finds for the address, by its first row. An
      id with no row is reported as not found, and an id with a row is
      always found. */
  function Resolve(db: Db, email: string, lookup: string -> Option<Id>): (r: Option<nat>)
    ensures r.Some? ==> r.value < |db.accounts|
                        && lookup(NormalizeEmail(email)) == Some(db.accounts[r.value].id)
                        && AccountIndex(db.accounts, db.accounts[r.value].id) == r
    ensures r.None? <==>
              lookup(NormalizeEmail(email)).None?
              || forall k :: 0 <= k < |db.accounts| ==> db.accounts[k].id != lookup(NormalizeEmail(email)).value
  {
    match lookup(NormalizeEmail(email))
    case None => None
    case Some(id) => AccountIndex(db.accounts, id)
  }

  /** `custom-set-super-admin`. */
  function SetSuperAdmin(enabled: bool, db: Db, email: string, lookup: string -> Option<Id>)
    : (r: CommandStep)
    ensures !enabled ==> r == CommandStep(FeatureDisabled, db)
    ensures enabled && Resolve(db, email, lookup).None? ==> r == CommandStep(AccountNotFound(email), db)
    ensures !r.outcome.RoleChanged? ==> r.db == db
    ensures r.outcome.RoleChanged? <==>
              enabled && Resolve(db, email, lookup).Some?
              && db.accounts[Resolve(db, email, lookup).value].systemRole != Some("super_admin")
    ensures r.outcome.RoleChanged? ==>
              var i := Resolve(db, email, lookup).value;
              r.db == db.(accounts := db.accounts[i := db.accounts[i].(systemRole := Some("super_admin"))])
              && SuperAdminCount(r.db.accounts) == SuperAdminCount(db.accounts) + 1
              && r.outcome.newRole == "super_admin"
  {
    if !enabled then CommandStep(FeatureDisabled, db)
    else match Resolve(db, email, lookup)
      case None => CommandStep(AccountNotFound(email), db)
      case Some(i) =>
        var a := db.accounts[i];
        var current := CurrentRole(a);
        if current == "super_admin" then CommandStep(AlreadySuperAdmin(email), db)
        else
          var updated := a.(systemRole := Some("super_admin"));
          CountUpdate(db.accounts, i, updated, IsStoredSuperAdmin());
          CommandStep(RoleChanged(email, current, "super_admin"), SetAccount(db, i, updated))
  }

  /** `custom-list-super-admins`: the accounts whose stored role is
      super_admin, in table order; `None` while the feature is off. */
  function ListSuperAdmins(enabled: bool, db: Db): (r: Option<seq<Account>>)
    ensures r.None? <==> !enabled
    ensures r.Some? ==> |r.value| == SuperAdminCount(db.accounts)
    ensures r.Some? ==> forall a :: a in r.value <==> a in db.accounts && a.systemRole == Some("super_admin")
  {
    if !enabled then None else Some(Filter(db.accounts, IsStoredSuperAdmin()))
  }

  /** `custom-remove-super-admin`: refused while the feature is off, without
      `--confirm`, for an unknown address, for an account that is not a
      super admin, and for the last super admin. */
  function RemoveSuperAdmin(enabled: bool, db: Db, email: string, confirm: bool,
                            lookup: string -> Option<Id>): (r: CommandStep)
    ensures !enabled ==> r == CommandStep(FeatureDisabled, db)
    ensures enabled && !confirm ==> r == CommandStep(ConfirmRequired, db)
    ensures !r.outcome.RoleChanged? ==> r.db == db
    ensures r.outcome.RoleChanged? <==>
              enabled && confirm && Resolve(db, email, lookup).Some?
              && db.accounts[Resolve(db, email, lookup).value].systemRole == Some("super_admin")
              && SuperAdminCount(db.accounts) > 1
    ensures r.outcome.RoleChanged? ==>
              var i := Resolve(db, email, lookup).value;
              r.db == db.(accounts := db.accounts[i := db.accounts[i].(systemRole := Some("normal"))])
              && SuperAdminCount(r.db.accounts) == SuperAdminCount(db.accounts) - 1
              && r.outcome.newRole == "normal"
    ensures SuperAdminCount(db.accounts) >= 1 ==> SuperAdminCount(r.db.accounts) >= 1
  {
    if !enabled then CommandStep(FeatureDisabled, db)
    else if !confirm then CommandStep(ConfirmRequired, db)
    else match Resolve(db, email, lookup)
      case None => CommandStep(AccountNotFound(email), db)
      case Some(i) =>
        var a := db.accounts[i];
        var current := CurrentRole(a);
        if current != "super_admin" then CommandStep(NotSuperAdmin(email, current), db)
        else if SuperAdminCount(db.accounts) <= 1 then CommandStep(LastSuperAdmin, db)
        else
          var updated := a.(systemRole := Some("normal"));
          CountUpdate(db.accounts, i, updated, IsStoredSuperAdmin());
          CommandStep(RoleChanged(email, "super_admin", "normal"), SetAccount(db, i, updated))
  }

  /** Granting and then revoking through the same address restores the
      number of super admins, provided another super admin exists. */
  lemma SetThenRemoveRestoresCount(db: Db, email: string, lookup: string -> Option<Id>)
    requires SetSuperAdmin(true, db, email, lookup).outcome.RoleChanged?
    requires SuperAdminCount(db.accounts) >= 1
    ensures var granted := SetSuperAdmin(true, db, email, lookup).db;
            var removed := RemoveSuperAdmin(true, granted, email, true, lookup);
            removed.outcome.RoleChanged?
            && SuperAdminCount(removed.db.accounts) == SuperAdminCount(db.accounts)
  {
    var i := Resolve(db, email, lookup).value;
    var granted := SetSuperAdmin(true, db, email, lookup).db;
    assert granted.accounts[i].id == db.accounts[i].id;
    AccountIndexAfterUpdate(db.accounts, i, granted.accounts[i]);
    assert Resolve(granted, email, lookup) == Some(i);
  }
}
