/** Who is signed in and with what role: `isAdmin`, `getUsernameFromEmail`
    and the module-level session variables `currentUser`,
    `currentUserName` and `currentUserRole` of script.js. */
module Identity {
  import opened Wrappers
  import Text

  /** The one address that is given the admin role. */
  const AdminEmail: string := "shreyansh.is21@bmsce.ac.in"

  /** Display name used when the signed-in account has no email. */
  const DefaultUsername: string := "user"

  datatype Role = Admin | User

  /** `isAdmin(email)`: strict equality with the admin address; a missing
      email is never the admin. */
  predicate IsAdmin(email: Option<string>)
    ensures IsAdmin(email) ==> email.Some? && email.value == AdminEmail
  {
    email == Some(AdminEmail)
  }

  /** The role chosen on sign-in. */
  function RoleOf(email: Option<string>): (r: Role)
    ensures r == Admin <==> email == Some(AdminEmail)
    ensures r == User <==> !IsAdmin(email)
  {
    if IsAdmin(email) then Admin else User
  }

  /** Exactly one email address maps to the admin role. */
  lemma {:induction false} AdminIsUnique(a: Option<string>, b: Option<string>)
    requires RoleOf(a) == Admin && RoleOf(b) == Admin
    ensures a == b && a.Some?
  {
    assert a == Some(AdminEmail) && b == Some(AdminEmail);
  }

  /** `getUsernameFromEmail(email)`: `"user"` for a missing or empty email,
      otherwise the text before the first `.` (the whole email when it has
      no `.`). */
  function UsernameFromEmail(email: Option<string>): (r: string)
    ensures email.None? || email == Some([]) ==> r == DefaultUsername
    ensures email.Some? && email.value != [] ==>
              && '.' !in r
              && Text.StartsWith(email.value, r)
              && (r == email.value || email.value[|r|] == '.')
  {
    if email.None? || email.value == [] then DefaultUsername
    else
      Text.SplitFirst(email.value, '.');
      Text.Split(email.value, '.')[0]
  }

  /** When the first `.` of a non-empty email is at index `k`, the username
      is the first `k` characters. */
  lemma UsernameBeforeDot(email: string, k: nat)
    requires k < |email| && email[k] == '.'
    requires forall j :: 0 <= j < k ==> email[j] != '.'
    ensures UsernameFromEmail(Some(email)) == email[..k]
  {
  }

  /** The admin is always shown under the name `shreyansh`. */
  lemma AdminUsername(email: Option<string>)
    requires IsAdmin(email)
    ensures UsernameFromEmail(email) == "shreyansh"
  {
    UsernameBeforeDot(AdminEmail, 9);
  }

  /** The signed-in account, as far as the dashboard looks at it. */
  datatype Account = Account(email: Option<string>)

  /** The session state that script.js keeps in three module-level
      variables: set together on sign-in and cleared together on sign-out. */
  class Session {
    var currentUser: Option<Account>
    var currentUserName: Option<string>
    var currentUserRole: Option<Role>

    /** The three variables are all set or all cleared, and when set the
        name and role are the ones derived from the account's email. */
    ghost predicate Valid()
      reads this
    {
      match currentUser
      case None => currentUserName.None? && currentUserRole.None?
      case Some(account) =>
        && currentUserName == Some(UsernameFromEmail(account.email))
        && currentUserRole == Some(RoleOf(account.email))
    }

    /** The page starts with nobody signed in. */
    constructor ()
      ensures Valid() && !SignedIn()
      ensures currentUserName.None? && currentUserRole.None?
    {
      currentUser, currentUserName, currentUserRole := None, None, None;
    }

    predicate SignedIn()
      reads this
    {
      currentUser.Some?
    }

    /** The auth-state listener's branch for a signed-in user. */
    method SignIn(account: Account)
      modifies this
      ensures Valid() && SignedIn()
      ensures currentUser == Some(account)
      ensures currentUserName == Some(UsernameFromEmail(account.email))
      ensures currentUserRole == Some(if IsAdmin(account.email) then Admin else User)
    {
      currentUser := Some(account);
      currentUserName := Some(UsernameFromEmail(account.email));
      currentUserRole := Some(RoleOf(account.email));
    }

    /** The auth-state listener's branch for a signed-out user. */
    method SignOut()
      modifies this
      ensures Valid() && !SignedIn()
      ensures currentUserName.None? && currentUserRole.None?
    {
      currentUser, currentUserName, currentUserRole := None, None, None;
    }

    /** Whether the admin dashboard is the one shown. */
    function IsAdminSession(): (r: bool)
      reads this
      requires Valid()
      ensures r <==> currentUser.Some? && currentUser.value.email == Some(AdminEmail)
    {
      currentUserRole == Some(Admin)
    }
  }
}
