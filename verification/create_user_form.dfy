/** The create-user dialog of the admin pages
    (web/app/components/custom/admin/users/create-user-modal.tsx): its two
    regular expressions, the validity test, the submit and close handlers,
    and the field errors. A regular expression is stated as the set of
    strings it accepts, and a single left-to-right scan is proved to decide
    it. */
module CreateUserForm {
  import opened Base
  import opened Text

  /** Characters of the class `[^\s@]`. */
  predicate EmailChar(c: char) {
    !IsJsSpace(c) && c != '@'
  }

  /** A way of reading `s` as `EMAIL_REGEX`,
      `^[^\s@]+@[^\s@][^\s.@]*\.[^\s@]+$`: the `@` sits at `a` and the
      literal dot at `q`. */
  predicate EmailSplit(s: string, a: int, q: int) {
    1 <= a && a + 2 <= q && q + 1 < |s|
    && (forall k :: 0 <= k < a ==> EmailChar(s[k]))
    && s[a] == '@'
    && EmailChar(s[a + 1])
    && (forall k :: a + 2 <= k < q ==> EmailChar(s[k]) && s[k] != '.')
    && s[q] == '.'
    && (forall k :: q + 1 <= k < |s| ==> EmailChar(s[k]))
  }

  /** The strings `EMAIL_REGEX` accepts. */
  predicate EmailRegex(s: string) {
    exists a, q :: 0 <= a < |s| && 0 <= q < |s| && EmailSplit(s, a, q)
  }

  /** What any accepted reading implies: no whitespace anywhere, one `@`,
      and no dot between the character after the `@` and `q`. */
  lemma SplitFacts(s: string, a: int, q: int)
    requires EmailSplit(s, a, q)
    ensures forall k :: 0 <= k < |s| ==> !IsJsSpace(s[k])
    ensures forall k :: 0 <= k < |s| && s[k] == '@' ==> k == a
  {
    forall k | 0 <= k < |s| ensures !IsJsSpace(s[k]) && (s[k] == '@' ==> k == a) {
      if k < a {
      } else if k == a || k == a + 1 {
      } else if k < q {
      } else if k == q {
      } else {
      }
    }
  }

  /** A whitespace character anywhere rules the string out. */
  lemma SpaceRejects(s: string, i: int)
    requires 0 <= i < |s| && IsJsSpace(s[i])
    ensures !EmailRegex(s)
  {
    forall a, q | 0 <= a < |s| && 0 <= q < |s| && EmailSplit(s, a, q) ensures false {
      SplitFacts(s, a, q);
    }
  }

  /** A second `@` rules the string out. */
  lemma TwoAtsReject(s: string, i: int, j: int)
    requires 0 <= i < j < |s| && s[i] == '@' && s[j] == '@'
    ensures !EmailRegex(s)
  {
    forall a, q | 0 <= a < |s| && 0 <= q < |s| && EmailSplit(s, a, q) ensures false {
      SplitFacts(s, a, q);
    }
  }

  /** `EMAIL_REGEX.test(s)`: one pass that remembers the `@` and the first
      dot at least two places after it. */
  method EmailMatches(s: string) returns (ok: bool)
    ensures ok <==> EmailRegex(s)
  {
    var at: Option<nat> := None;
    var dot: Option<nat> := None;
    var i := 0;
    while i < |s|
      invariant 0 <= i <= |s|
      invariant forall k :: 0 <= k < i ==> !IsJsSpace(s[k])
      invariant at.None? ==> forall k :: 0 <= k < i ==> s[k] != '@'
      invariant at.Some? ==> at.value < i && s[at.value] == '@'
                             && forall k :: 0 <= k < i && k != at.value ==> s[k] != '@'
      invariant dot.Some? ==> at.Some? && at.value + 2 <= dot.value < i && s[dot.value] == '.'
                              && forall k :: at.value + 2 <= k < dot.value ==> s[k] != '.'
      invariant dot.None? && at.Some? ==> forall k :: at.value + 2 <= k < i ==> s[k] != '.'
    {
      if IsJsSpace(s[i]) {
        SpaceRejects(s, i);
        return false;
      }
      if s[i] == '@' {
        if at.Some? {
          TwoAtsReject(s, at.value, i);
          return false;
        }
        at := Some(i);
      } else if s[i] == '.' && at.Some? && dot.None? && i >= at.value + 2 {
        dot := Some(i);
      }
      i := i + 1;
    }
    if EmailRegex(s) {
      var a, q :| 0 <= a < |s| && 0 <= q < |s| && EmailSplit(s, a, q);
      SplitFacts(s, a, q);
      assert at == Some(a);
      assert dot == Some(q);
    }
    ok := at.Some? && at.value >= 1 && dot.Some? && dot.value + 1 < |s|;
    if ok {
      assert EmailSplit(s, at.value, dot.value);
    }
  }

  /** ASCII letters, which `[a-z]` matches under the `i` flag. */
  predicate AsciiLetter(c: char) {
    'a' <= c <= 'z' || 'A' <= c <= 'Z'
  }

  predicate AsciiDigit(c: char) {
    '0' <= c <= '9'
  }

  /** The strings `PASSWORD_REGEX`, `^(?=.*[a-z])(?=.*\d).{8,}$` with the
      `i` flag, accepts: each look-ahead finds its character before any line
      terminator, and the whole string is at least eight characters, none a
      line terminator. */
  predicate PasswordRegex(s: string) {
    (exists i :: 0 <= i < |s| && AsciiLetter(s[i]) && forall k :: 0 <= k < i ==> !IsJsLineTerminator(s[k]))
    && (exists i :: 0 <= i < |s| && AsciiDigit(s[i]) && forall k :: 0 <= k < i ==> !IsJsLineTerminator(s[k]))
    && |s| >= 8
    && forall k :: 0 <= k < |s| ==> !IsJsLineTerminator(s[k])
  }

  /** `PASSWORD_REGEX.test(s)`: one pass recording whether a letter and a
      digit were seen, failing at the first line terminator. */
  method PasswordMatches(s: string) returns (ok: bool)
    ensures ok <==> PasswordRegex(s)
  {
    var letter := false;
    var digit := false;
    var i := 0;
    while i < |s|
      invariant 0 <= i <= |s|
      invariant forall k :: 0 <= k < i ==> !IsJsLineTerminator(s[k])
      invariant letter <==> exists k :: 0 <= k < i && AsciiLetter(s[k])
      invariant digit <==> exists k :: 0 <= k < i && AsciiDigit(s[k])
    {
      if IsJsLineTerminator(s[i]) {
        return false;
      }
      letter := letter || AsciiLetter(s[i]);
      digit := digit || AsciiDigit(s[i]);
      i := i + 1;
    }
    ok := letter && digit && |s| >= 8;
  }

  /** Which fields have been left at least once. */
  datatype Touched = Touched(name: bool, email: bool, password: bool)

  /** The dialog's state. The role is the raw value of the selection. */
  datatype Form = Form(name: string, email: string, password: string, role: string, touched: Touched)

  /** The state the dialog opens in: empty fields, role "user", nothing
      touched. */
  const InitialForm: Form := Form("", "", "", "user", Touched(false, false, false))

  /** `isValid`: a name that is not blank, a matching email and a matching
      password. */
  predicate IsValid(f: Form)
    ensures IsValid(f) ==> !IsBlankWith(f.name, IsJsSpace) && Trim(f.email) == f.email && |f.password| >= 8
  {
    TrimEmptyIffBlank(f.name, IsJsSpace);
    if |Trim(f.name)| > 0 && EmailRegex(f.email) && PasswordRegex(f.password) then
      EmailIsTrimmed(f.email);
      true
    else false
  }

  /** What `handleSubmit` hands to `onSubmit`. */
  datatype Submission = Submission(name: string, email: string, password: string, systemRole: string)

  /** An accepted email has no whitespace, so trimming leaves it as it
      is. */
  lemma EmailIsTrimmed(s: string)
    requires EmailRegex(s)
    ensures Trim(s) == s
  {
    var a, q :| 0 <= a < |s| && 0 <= q < |s| && EmailSplit(s, a, q);
    SplitFacts(s, a, q);
    TrimOfTrimmed(s, IsJsSpace);
  }

  /** `handleSubmit`: nothing for an invalid form; otherwise the trimmed name,
      the email exactly as typed, the password untouched and the selected
      role. */
  function HandleSubmit(f: Form): (r: Option<Submission>)
    ensures r.Some? <==> IsValid(f)
    ensures r.Some? ==> r.value.email == f.email && r.value.password == f.password
                        && r.value.systemRole == f.role
    ensures r.Some? ==> r.value.name == Trim(f.name) && IsTrimmedWith(r.value.name, IsJsSpace)
  {
    if !IsValid(f) then None
    else
      TrimNonBlank(f.name, IsJsSpace);
      Some(Submission(Trim(f.name), Trim(f.email), f.password, f.role))
  }

  /** `handleClose`: back to the opening state (the `onClose` callback is
      the caller's). A closed dialog cannot submit. */
  function HandleClose(f: Form): (r: Form)
    ensures r.name == "" && r.email == "" && r.password == ""
    ensures r.role == "user" && !r.touched.name && !r.touched.email && !r.touched.password
    ensures HandleSubmit(r).None?
  {
    assert Trim("") == "";
    InitialForm
  }

  /** The messages under the fields; "" when none is shown. */
  datatype FieldErrors = FieldErrors(name: string, email: string, password: string)

  /** `errors`: a field shows its message once it has been left and while
      its own check fails. */
  function Errors(f: Form, t: string -> string): (r: FieldErrors)
    ensures r.name == if f.touched.name && IsBlankWith(f.name, IsJsSpace) then t("admin.userName") else ""
    ensures r.email != "" ==> f.touched.email && !EmailRegex(f.email)
    ensures f.touched.email && !EmailRegex(f.email) ==> r.email == t("admin.invalidEmail")
    ensures r.password == if f.touched.password && !PasswordRegex(f.password)
                          then t("admin.passwordRequirement") else ""
  {
    TrimEmptyIffBlank(f.name, IsJsSpace);
    FieldErrors(
      if f.touched.name && Trim(f.name) == "" then t("admin.userName") else "",
      if f.touched.email && !EmailRegex(f.email) then t("admin.invalidEmail") else "",
      if f.touched.password && (|f.password| < 8 || !PasswordRegex(f.password))
      then t("admin.passwordRequirement") else "")
  }

  /** A valid form shows no field error, however it was touched; an
      untouched form shows none either. */
  lemma ValidFormShowsNoErrors(f: Form, t: string -> string)
    ensures IsValid(f) ==> Errors(f, t) == FieldErrors("", "", "")
    ensures f.touched == Touched(false, false, false) ==> Errors(f, t) == FieldErrors("", "", "")
  {
  }
}
