/** Authentication and the session gate (app.py `login`, `login_required` and the
    `role != "instructor"` checks). The Flask session is a value: the keys the application
    writes, each present or absent. Password verification (werkzeug's
    `check_password_hash`) is the parameter `verify(hash, password)`. */
module Access {
  import opened Text
  import opened Seqs
  import opened Schema

  /** The session keys `user_id`, `full_name` and `role`. */
  datatype Session = Session(userId: Option<nat>, fullName: Option<string>, role: Option<string>)

  const Anonymous := Session(None, None, None)

  /** A gate either lets the request through, for the signed-in user, or ends it. */
  datatype Gate = Admit(userId: nat) | Deny(outcome: Outcome)

  /** `login_required`: a session without `user_id` is sent to the login page. */
  function RequireLogin(s: Session): (g: Gate)
    ensures g.Admit? <==> s.userId.Some?
    ensures g.Admit? ==> g.userId == s.userId.value
    ensures g.Deny? ==> g.outcome == RedirectLogin
  {
    match s.userId
    case None => Deny(RedirectLogin)
    case Some(id) => Admit(id)
  }

  /** `login_required` followed by `if session.get("role") != "instructor"`. */
  function RequireInstructor(s: Session): (g: Gate)
    ensures g == Deny(RedirectLogin) <==> s.userId.None?
    ensures g == Deny(AccessDenied) <==> s.userId.Some? && s.role != Some("instructor")
    ensures g.Admit? <==> s.userId.Some? && s.role == Some("instructor")
    ensures g.Admit? ==> g.userId == s.userId.value
  {
    match RequireLogin(s)
    case Deny(o) => Deny(o)
    case Admit(id) => if s.role != Some("instructor") then Deny(AccessDenied) else Admit(id)
  }

  /** The session a successful login leaves behind for `u`. */
  function SessionFor(u: User): (r: Session)
    ensures RequireLogin(r) == Admit(u.id)
    ensures RequireInstructor(r).Admit? <==> u.role == "instructor"
    ensures RequireInstructor(r).Deny? ==> RequireInstructor(r).outcome == AccessDenied
  {
    Session(Some(u.id), Some(u.fullName), Some(u.role))
  }

  datatype LoginResult = LoggedIn(session: Session) | InvalidCredentials

  /** The POST branch of `login`: the username is stripped and looked up, and the password
      checked against the stored hash. Whatever went wrong, the result is the one value
      `InvalidCredentials` ("Invalid username or password."), and the session is left alone. */
  function Login(users: seq<User>, username: Option<string>, password: Option<string>,
                 verify: (string, string) -> bool): (r: LoginResult)
    ensures r.LoggedIn? ==>
      exists i :: 0 <= i < |users| && users[i].username == Strip(FormValueOrEmpty(username))
                  && verify(users[i].password, FormValueOrEmpty(password))
                  && r.session == SessionFor(users[i])
    ensures (forall i :: 0 <= i < |users| ==> users[i].username != Strip(FormValueOrEmpty(username)))
            ==> r == InvalidCredentials
    ensures UsersOk(users) ==>
      (r.LoggedIn? <==> exists i :: 0 <= i < |users| && users[i].username == Strip(FormValueOrEmpty(username))
                                    && verify(users[i].password, FormValueOrEmpty(password)))
  {
    var name := Strip(FormValueOrEmpty(username));
    match FindUserByName(users, name)
    case None => InvalidCredentials
    case Some(k) =>
      if verify(users[k].password, FormValueOrEmpty(password)) then LoggedIn(SessionFor(users[k]))
      else InvalidCredentials
  }

  /** The signed-in user's session cookie, as `login` writes it key by key. */
  class SessionState {
    var userId: Option<nat>
    var fullName: Option<string>
    var role: Option<string>

    function Current(): Session
      reads this
    {
      Session(userId, fullName, role)
    }

    /** A fresh browser: no keys. */
    constructor ()
      ensures Current() == Anonymous
    {
      userId, fullName, role := None, None, None;
    }

    /** The POST branch of `login` against the session: on success the three keys are
        overwritten with the user's; on failure nothing is written. */
    method SignIn(users: seq<User>, username: Option<string>, password: Option<string>,
                  verify: (string, string) -> bool) returns (r: LoginResult)
      modifies this
      ensures r == Login(users, username, password, verify)
      ensures r.LoggedIn? ==> Current() == r.session
      ensures r.InvalidCredentials? ==> Current() == old(Current())
    {
      var name := Strip(FormValueOrEmpty(username));
      var found := FindUserByName(users, name);
      if found.None? || !verify(users[found.value].password, FormValueOrEmpty(password)) {
        return InvalidCredentials;
      }
      var user := users[found.value];
      userId := Some(user.id);
      fullName := Some(user.fullName);
      role := Some(user.role);
      r := LoggedIn(SessionFor(user));
    }
  }

  /** `request.form.get(key, "")`. */
  function FormValueOrEmpty(field: Option<string>): string {
    match field
    case None => ""
    case Some(v) => v
  }

  /** The failure does not tell an unknown username from a wrong password: both give the
      same result, and it carries no session. */
  lemma {:induction false} LoginFailureIsUniform(users: seq<User>, known: string, unknown: string,
                                                 password: string, verify: (string, string) -> bool)
    requires UsersOk(users)
    requires forall i :: 0 <= i < |users| ==> users[i].username != Strip(unknown)
    requires forall i :: 0 <= i < |users| && users[i].username == Strip(known)
                         ==> !verify(users[i].password, password)
    ensures Login(users, Some(unknown), Some(password), verify)
         == Login(users, Some(known), Some(password), verify)
         == InvalidCredentials
  {
  }

  /** A user whose row says "student" is signed in with that role, and every instructor-only
      handler then turns the session away with "Access denied". */
  lemma StudentIsDeniedInstructorPages(users: seq<User>, username: Option<string>,
                                       password: Option<string>, verify: (string, string) -> bool)
    requires UsersOk(users)
    requires Login(users, username, password, verify).LoggedIn?
    requires forall i :: 0 <= i < |users| && users[i].username == Strip(FormValueOrEmpty(username))
                         ==> users[i].role == "student"
    ensures RequireInstructor(Login(users, username, password, verify).session) == Deny(AccessDenied)
  {
  }
}
