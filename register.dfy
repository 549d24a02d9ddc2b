/** The registration page (js/register.js): the role list loaded from the
    server, the coach-code field shown only for coaches, the submit
    handler's field checks, and where a server error is shown. */
module Register {
  import opened Dom

  const RoleRequired := "Please select a role."
  const UsernameRequired := "Username is required."
  const PasswordRequired := "Password is required."
  const PasswordTooShort := "Password must be at least 6 characters."
  const ConfirmRequired := "Please confirm your password."
  const PasswordsDiffer := "Passwords do not match."
  const CoachCodeInvalid := "Invalid coach code."
  const RolesUnavailable := "Unable to load roles. Please refresh."
  const UsernameTaken := "Username already exists for this role. Please choose another."

  /** The only code a coach may register with. */
  const CoachCode := "123"
  const MinPasswordLength := 6

  // ---------------------------------------------------------------------
  // The role list
  // ---------------------------------------------------------------------

  const RolePlaceholder := OptionEl("", "Select Role", true)

  /** The roles request: on success the list becomes the disabled, selected
      placeholder followed by one option per role, valued by the role and
      labelled with it capitalised, and no role is chosen; on failure the
      list is left alone and the role error says why. */
  method LoadRoles(sel: Select, roles: Option<seq<string>>) returns (r: Select, roleError: Message)
    ensures roles.None? ==> r == sel && roleError == Shown(RolesUnavailable)
    ensures roles.Some? ==> r.options == [RolePlaceholder] + Labelled(roles.value, Capitalize)
    ensures roles.Some? ==> r.Value() == "" && roleError == Hidden
  {
    if roles.None? {
      return sel, Shown(RolesUnavailable);
    }
    var start := Parsed(RolePlaceholder, true);
    r := AppendOptions(start, Labelled(roles.value, Capitalize));
    AppendAllShape(start, Labelled(roles.value, Capitalize));
    roleError := Hidden;
  }

  /** The `display` of the coach-code field after the role changes. */
  function CoachCodeDisplay(role: string): (display: string)
    ensures display == "block" || display == "none"
    ensures display == "block" <==> role == "coach"
  {
    if role == "coach" then "block" else "none"
  }

  // ---------------------------------------------------------------------
  // Submission
  // ---------------------------------------------------------------------

  /** The five field-error elements after a submit. */
  datatype RegisterErrors = RegisterErrors(role: Message, username: Message, password: Message, confirm: Message, coachCode: Message)

  const NoErrors := RegisterErrors(Hidden, Hidden, Hidden, Hidden, Hidden)

  /** The body of `POST /api/users/register`. */
  datatype RegisterRequest = RegisterRequest(username: string, password: string, role: string, secretCode: string)

  /** What the page accepts, stated on the trimmed fields: a role, a user
      name, a password of at least six characters, its confirmation equal
      to it, and for a coach the coach code. */
  predicate Acceptable(role: string, username: string, password: string, confirm: string, code: string) {
    role != "" && username != "" && |password| >= MinPasswordLength && confirm == password &&
    (role == "coach" ==> code == CoachCode)
  }

  /** The submit handler: every field is trimmed and checked, each failing
      check shows its own message, and the request is built only when none
      failed. */
  method Submit(roleValue: string, usernameValue: string, passwordValue: string, confirmValue: string, codeValue: string)
    returns (errors: RegisterErrors, request: Option<RegisterRequest>)
    ensures errors.role == (if Trim(roleValue) == "" then Shown(RoleRequired) else Hidden)
    ensures errors.username == (if Trim(usernameValue) == "" then Shown(UsernameRequired) else Hidden)
    ensures errors.password ==
      (if Trim(passwordValue) == "" then Shown(PasswordRequired)
       else if |Trim(passwordValue)| < MinPasswordLength then Shown(PasswordTooShort)
       else Hidden)
    ensures errors.confirm ==
      (if Trim(confirmValue) == "" then Shown(ConfirmRequired)
       else if Trim(confirmValue) != Trim(passwordValue) then Shown(PasswordsDiffer)
       else Hidden)
    ensures errors.coachCode ==
      (if Trim(roleValue) == "coach" && Trim(codeValue) != CoachCode then Shown(CoachCodeInvalid) else Hidden)
    ensures request.Some? <==> errors == NoErrors
    ensures request.Some? <==>
      Acceptable(Trim(roleValue), Trim(usernameValue), Trim(passwordValue), Trim(confirmValue), Trim(codeValue))
    ensures request.Some? ==>
      request.value == RegisterRequest(Trim(usernameValue), Trim(passwordValue), Trim(roleValue), Trim(codeValue))
  {
    errors := NoErrors;
    var role := Trim(roleValue);
    var username := Trim(usernameValue);
    var password := Trim(passwordValue);
    var confirm := Trim(confirmValue);
    var code := Trim(codeValue);
    var hasError := false;
    if role == "" {
      errors := errors.(role := Shown(RoleRequired));
      hasError := true;
    }
    if username == "" {
      errors := errors.(username := Shown(UsernameRequired));
      hasError := true;
    }
    if password == "" {
      errors := errors.(password := Shown(PasswordRequired));
      hasError := true;
    } else if |password| < MinPasswordLength {
      errors := errors.(password := Shown(PasswordTooShort));
      hasError := true;
    }
    if confirm == "" {
      errors := errors.(confirm := Shown(ConfirmRequired));
      hasError := true;
    } else if password != confirm {
      errors := errors.(confirm := Shown(PasswordsDiffer));
      hasError := true;
    }
    if role == "coach" && code != CoachCode {
      errors := errors.(coachCode := Shown(CoachCodeInvalid));
      hasError := true;
    }
    if hasError {
      return errors, None;
    }
    request := Some(RegisterRequest(username, password, role, code));
  }

  // ---------------------------------------------------------------------
  // A refused registration
  // ---------------------------------------------------------------------

  /** Where the server's refusal is shown: under the user name, or in the
      page message. */
  datatype Refusal = UsernameError(text: string) | PageMessage(text: string)

  /** A reply that is not ok: an error mentioning "username" in any letter
      case is reported as a taken name under the user name field; any other
      refusal goes to the page message with the server's error, or
      "Unknown error" when it sent none. */
  function RouteError(error: Option<string>): (r: Refusal)
    ensures r.UsernameError? <==> error.Some? && Contains(Lower(error.value), "username")
    ensures r.UsernameError? ==> r.text == UsernameTaken
    ensures r.PageMessage? && (error.None? || error.value == "") ==> r.text == "Registration failed: Unknown error"
    ensures r.PageMessage? && error.Some? && error.value != "" ==> r.text == "Registration failed: " + error.value
  {
    if error.Some? && Contains(Lower(error.value), "username") then UsernameError(UsernameTaken)
    else PageMessage("Registration failed: " + OrElse(error, "Unknown error"))
  }

  lemma LowerOccurs(s: string, part: string, i: int)
    requires OccursAt(s, part, i)
    ensures OccursAt(Lower(s), Lower(part), i)
  {
    assert Lower(s)[i..i + |part|] == Lower(part) by {
      forall k | 0 <= k < |part|
        ensures Lower(s)[i..i + |part|][k] == Lower(part)[k]
      {
        assert s[i + k] == s[i..i + |part|][k];
      }
    }
  }

  /** The match ignores letter case: an error holding "Username",
      "USERNAME" or any other spelling of the word is a taken name. */
  lemma RouteIgnoresCase(error: string, word: string)
    requires Contains(error, word) && Lower(word) == "username"
    ensures RouteError(Some(error)) == UsernameError(UsernameTaken)
  {
    var i :| 0 <= i <= |error| && OccursAt(error, word, i);
    LowerOccurs(error, word, i);
    assert OccursAt(Lower(error), "username", i);
  }
}
