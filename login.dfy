/** The login page (js/login.js): the role list, with a role named in the
    page URL preselected and locked; the submit handler's required fields;
    and what a reply leaves behind: the stored credentials and the page the
    user is sent to, or the failure text. */
module Login {
  import opened Dom

  const RoleRequired := "Please select your role."
  const UsernameRequired := "Username is required."
  const PasswordRequired := "Password is required."
  const RolesUnavailable := "Unable to load roles. Please refresh."
  const LoginSucceeded := "Login successful!"

  const RolePlaceholder := OptionEl("", "Select Role", true)

  /** A role named in the URL is taken only when it is one of the roles the
      server listed. */
  predicate RoleAccepted(roleFromUrl: Option<string>, roles: seq<string>) {
    roleFromUrl.Some? && roleFromUrl.value != "" && roleFromUrl.value in roles
  }

  /** The roles request: on success the placeholder and one capitalised
      option per role, with the URL's role selected and the list disabled
      when that role is accepted and nothing chosen otherwise; on failure
      the list is left alone and the role error says why. */
  method LoadRoles(sel: Select, roles: Option<seq<string>>, roleFromUrl: Option<string>)
    returns (r: Select, locked: bool, roleError: Message)
    ensures roles.None? ==> r == sel && !locked && roleError == Shown(RolesUnavailable)
    ensures roles.Some? ==> r.options == [RolePlaceholder] + Labelled(roles.value, Capitalize) && roleError == Hidden
    ensures roles.Some? ==> (locked <==> RoleAccepted(roleFromUrl, roles.value))
    ensures roles.Some? ==> r.Value() == (if locked then roleFromUrl.value else "")
  {
    if roles.None? {
      return sel, false, Shown(RolesUnavailable);
    }
    var start := Parsed(RolePlaceholder, true);
    var opts := Labelled(roles.value, Capitalize);
    r := AppendOptions(start, opts);
    AppendAllShape(start, opts);
    roleError := Hidden;
    locked := false;
    if roleFromUrl.Some? && roleFromUrl.value != "" && roleFromUrl.value in roles.value {
      var k :| 0 <= k < |roles.value| && roles.value[k] == roleFromUrl.value;
      assert r.options[k + 1].value == roleFromUrl.value;
      r := SetValue(r, roleFromUrl.value);
      locked := true;
    }
  }

  /** The body of `POST /api/users/login`. */
  datatype LoginRequest = LoginRequest(username: string, password: string, role: string)

  /** The members of the login reply the page reads. */
  datatype LoginReply = LoginReply(ok: bool, token: JsValue, username: JsValue, role: JsValue, error: JsValue, message: JsValue)

  /** What a reply leads to: the credentials stored and the page opened, or
      the text of the failure. */
  datatype LoginOutcome = LoggedIn(token: string, username: string, next: string) | LoginFailed(text: string)

  /** The reason a refused login gives: the server's `error`, else its
      `message`, else "Login failed". */
  function FailureReason(reply: LoginReply): (reason: string)
    ensures Truthy(reply.error) ==> reason == Text(reply.error)
    ensures !Truthy(reply.error) && Truthy(reply.message) ==> reason == Text(reply.message)
    ensures !Truthy(reply.error) && !Truthy(reply.message) ==> reason == "Login failed"
  {
    if Truthy(reply.error) then Text(reply.error)
    else if Truthy(reply.message) then Text(reply.message)
    else "Login failed"
  }

  /** An ok reply stores the token and the user name as their text and
      opens the coach dashboard exactly when the reply's role is "coach",
      the trainee profile otherwise; any other reply fails with its
      reason. */
  function Outcome(reply: LoginReply): (o: LoginOutcome)
    ensures o.LoggedIn? <==> reply.ok
    ensures o.LoggedIn? ==> o.token == Text(reply.token) && o.username == Text(reply.username)
    ensures o.LoggedIn? ==> (o.next == "coachdashboard.html" <==> reply.role == JsString("coach"))
    ensures o.LoggedIn? ==> (o.next == "traineeprofile.html" <==> reply.role != JsString("coach"))
    ensures o.LoginFailed? ==> o.text == "Login failed: " + FailureReason(reply)
  {
    if !reply.ok then LoginFailed("Login failed: " + FailureReason(reply))
    else LoggedIn(Text(reply.token), Text(reply.username),
                  if reply.role == JsString("coach") then "coachdashboard.html" else "traineeprofile.html")
  }

  /** The error texts of the login form. */
  class LoginForm {
    var roleError: Message
    var usernameError: Message
    var passwordError: Message
    /** The form-wide feedback line. */
    var feedback: Message

    constructor ()
      ensures roleError == Hidden && usernameError == Hidden && passwordError == Hidden && feedback == Hidden
    {
      roleError, usernameError, passwordError, feedback := Hidden, Hidden, Hidden, Hidden;
    }

    /** `clearErrors`: the three field errors and the feedback line are
        emptied and hidden. */
    method ClearErrors()
      modifies this
      ensures roleError == Hidden && usernameError == Hidden && passwordError == Hidden && feedback == Hidden
    {
      roleError := Hidden;
      usernameError := Hidden;
      passwordError := Hidden;
      feedback := Hidden;
    }

    /** The submit handler: the errors are cleared, then role, trimmed user
        name and trimmed password are each required with a message of its
        own; the request is built only when all three are there. */
    method Submit(roleValue: string, usernameValue: string, passwordValue: string)
      returns (request: Option<LoginRequest>)
      modifies this
      ensures roleError == (if roleValue == "" then Shown(RoleRequired) else Hidden)
      ensures usernameError == (if Trim(usernameValue) == "" then Shown(UsernameRequired) else Hidden)
      ensures passwordError == (if Trim(passwordValue) == "" then Shown(PasswordRequired) else Hidden)
      ensures feedback == Hidden
      ensures request.Some? <==> roleError == Hidden && usernameError == Hidden && passwordError == Hidden
      ensures request.Some? ==> request.value == LoginRequest(Trim(usernameValue), Trim(passwordValue), roleValue)
    {
      ClearErrors();
      var username := Trim(usernameValue);
      var password := Trim(passwordValue);
      var hasError := false;
      if roleValue == "" {
        roleError := Shown(RoleRequired);
        hasError := true;
      }
      if username == "" {
        usernameError := Shown(UsernameRequired);
        hasError := true;
      }
      if password == "" {
        passwordError := Shown(PasswordRequired);
        hasError := true;
      }
      if hasError {
        return None;
      }
      request := Some(LoginRequest(username, password, roleValue));
    }

    /** The reply to a sent request: the feedback line reports success or
        the failure text; the field errors stay as they were. */
    method ShowReply(reply: LoginReply) returns (o: LoginOutcome)
      modifies this
      ensures o == Outcome(reply)
      ensures feedback == (if reply.ok then Shown(LoginSucceeded) else Shown(o.text))
      ensures roleError == old(roleError) && usernameError == old(usernameError) && passwordError == old(passwordError)
    {
      o := Outcome(reply);
      if o.LoggedIn? {
        feedback := Shown(LoginSucceeded);
      } else {
        feedback := Shown(o.text);
      }
    }
  }
}
