/** The administrator login decision. The salted password-hash comparison
    is a library routine, so it is a parameter: `checkHash(stored, given)`
    says whether the plain password `given` matches the stored hash. */
module Login {
  import opened Records
  import opened Queries

  /** What the login route does with a request. */
  datatype LoginResult =
    | ShowForm       // no valid submission: the login form is rendered again
    | UnknownEmail   // no user has the email: flash a message, back to the form
    | WrongPassword  // the password does not match: flash a message, back to the form
    | LoggedIn       // the caller becomes the administrator

  const UnknownEmailMessage := "The email is not correct, check if it has any typo please."
  const WrongPasswordMessage := "Sorry, The password is wrong, try again please."

  /** The flashed message of a rejected login; each rejection has its own. */
  function FlashMessage(r: LoginResult): (m: Option<string>)
    ensures m.Some? <==> r == UnknownEmail || r == WrongPassword
    ensures r == UnknownEmail ==> m == Some(UnknownEmailMessage)
    ensures r == WrongPassword ==> m == Some(WrongPasswordMessage)
  {
    match r
    case UnknownEmail => Some(UnknownEmailMessage)
    case WrongPassword => Some(WrongPasswordMessage)
    case _ => None
  }

  /** The decision on a login request against the users table. */
  function Decide(users: map<nat, User>, bound: nat, submitted: bool, email: string, password: string,
                  checkHash: (string, string) -> bool): (r: LoginResult)
    ensures r == ShowForm <==> !submitted
    ensures r == UnknownEmail <==> submitted && forall id :: id in users && id < bound ==> users[id].email != email
    ensures r == LoggedIn ==>
      exists id :: id in users && users[id].email == email && checkHash(users[id].password, password)
    ensures r == WrongPassword ==>
      exists id :: id in users && users[id].email == email && !checkHash(users[id].password, password)
  {
    if !submitted then ShowForm
    else
      match UserByEmail(users, bound, email)
      case None => UnknownEmail
      case Some(id) => if checkHash(users[id].password, password) then LoggedIn else WrongPassword
  }

  /** With unique emails and every user below `bound`, a submitted login
      succeeds exactly when the user with that email exists and the password
      matches its hash. */
  lemma LoginExactlyWhenPasswordMatches(users: map<nat, User>, bound: nat, email: string, password: string,
                                        checkHash: (string, string) -> bool)
    requires EmailsUnique(users)
    requires forall id :: id in users ==> id < bound
    ensures Decide(users, bound, true, email, password, checkHash) == LoggedIn <==>
      exists id :: id in users && users[id].email == email && checkHash(users[id].password, password)
  {
    if exists id :: id in users && users[id].email == email && checkHash(users[id].password, password) {
      var id :| id in users && users[id].email == email && checkHash(users[id].password, password);
      EmailLookupFindsOwner(users, bound, id);
    }
  }
}
