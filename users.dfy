/** The user management form: validation of username, password and roles,
    the role checkboxes, and the prefill when an existing user is edited.
    The requests are not modelled. */
module Users {
  import opened Js
  import ParticipantList

  /** A user as listed by the backend. */
  datatype User = User(id: string, username: string, roles: seq<string>)

  /** The errors validation records, by field name: the username always
      required, the password only when creating, at least one role. */
  function ValidationErrors(username: string, password: string, roles: seq<string>, editing: bool, t: string -> string)
    : (errors: map<string, string>)
    ensures "username" in errors <==> username == ""
    ensures "password" in errors <==> !editing && password == ""
    ensures "roles" in errors <==> roles == []
    ensures forall k :: k in errors ==> k in {"username", "password", "roles"}
    ensures "username" in errors ==> errors["username"] == t("usernameRequired")
    ensures "password" in errors ==> errors["password"] == t("passwordRequired")
    ensures "roles" in errors ==> errors["roles"] == t("rolesRequired")
  {
    var e0: map<string, string> := map[];
    var e1 := if username == "" then e0["username" := t("usernameRequired")] else e0;
    var e2 := if !editing && password == "" then e1["password" := t("passwordRequired")] else e1;
    if roles == [] then e2["roles" := t("rolesRequired")] else e2
  }

  /** The form is valid exactly when no error is recorded. */
  lemma ValidIffNoErrors(username: string, password: string, roles: seq<string>, editing: bool, t: string -> string)
    ensures ValidationErrors(username, password, roles, editing, t) == map[] <==>
      username != "" && (editing || password != "") && roles != []
  {
    var errors := ValidationErrors(username, password, roles, editing, t);
    if username == "" {
      assert "username" in errors;
    } else if !editing && password == "" {
      assert "password" in errors;
    } else if roles == [] {
      assert "roles" in errors;
    } else {
      assert forall k :: k !in errors;
    }
  }

  /** A role checkbox: checking appends the role, unchecking removes every
      copy of it. */
  function ToggleRole(roles: seq<string>, role: string, checked: bool): (r: seq<string>)
    ensures checked ==> r == roles + [role]
    ensures !checked ==> role !in r && forall x :: x != role ==> (x in r <==> x in roles)
    ensures !checked ==> multiset(r) == multiset(roles)[role := 0]
  {
    if checked then roles + [role]
    else
      ParticipantList.RemoveIdMultiset(roles, role);
      ParticipantList.RemoveId(roles, role)
  }

  /** Checking a role that was not held and unchecking it again gives back
      the roles as they were. */
  lemma CheckThenUncheck(roles: seq<string>, role: string)
    requires role !in roles
    ensures ToggleRole(ToggleRole(roles, role, true), role, false) == roles
  {
    ParticipantList.ToggleTwice(roles, role);
  }

  /** The two text inputs. */
  datatype TextField = Username | Password

  function FieldName(f: TextField): string {
    match f
    case Username => "username"
    case Password => "password"
  }

  class UserForm {
    var username: string
    var password: string
    var roles: seq<string>
    var errors: map<string, string>
    var editUser: Option<User>
    var isModalOpen: bool

    constructor ()
      ensures username == "" && password == "" && roles == []
      ensures errors == map[] && editUser.None? && !isModalOpen
    {
      username, password, roles := "", "", [];
      errors, editUser, isModalOpen := map[], None, false;
    }

    /** `validateForm`: the errors are built field by field and replace the
        old ones; the form is valid exactly when none was recorded. */
    method Validate(t: string -> string) returns (valid: bool)
      modifies this`errors
      ensures errors == ValidationErrors(username, password, roles, editUser.Some?, t)
      ensures valid <==> errors == map[]
      ensures valid <==> username != "" && (editUser.Some? || password != "") && roles != []
    {
      var newErrors: map<string, string> := map[];
      if username == "" {
        newErrors := newErrors["username" := t("usernameRequired")];
      }
      if editUser.None? && password == "" {
        newErrors := newErrors["password" := t("passwordRequired")];
      }
      if roles == [] {
        newErrors := newErrors["roles" := t("rolesRequired")];
      }
      errors := newErrors;
      valid := |newErrors.Keys| == 0;
      ValidIffNoErrors(username, password, roles, editUser.Some?, t);
    }

    /** A text input changed: its value is set and its error emptied. */
    method ChangeText(field: TextField, value: string)
      modifies this`username, this`password, this`errors
      ensures field == Username ==> username == value && password == old(password)
      ensures field == Password ==> password == value && username == old(username)
      ensures errors == old(errors)[FieldName(field) := ""]
    {
      if field == Username {
        username := value;
      } else {
        password := value;
      }
      errors := errors[FieldName(field) := ""];
    }

    /** A role checkbox changed: the roles are toggled and the roles error
        emptied; the other fields' errors stay. */
    method ChangeRole(role: string, checked: bool)
      modifies this`roles, this`errors
      ensures roles == ToggleRole(old(roles), role, checked)
      ensures errors == old(errors)["roles" := ""]
      ensures forall k :: k in old(errors) && k != "roles" ==> k in errors && errors[k] == old(errors)[k]
    {
      roles := ToggleRole(roles, role, checked);
      errors := errors["roles" := ""];
    }

    /** `handleEdit`: the form takes the user's name and roles, the password
        is blanked, and the dialog opens. */
    method Edit(user: User)
      modifies this`editUser, this`username, this`password, this`roles, this`isModalOpen
      ensures editUser == Some(user) && isModalOpen
      ensures username == user.username && password == "" && roles == user.roles
    {
      editUser := Some(user);
      username, password, roles := user.username, "", user.roles;
      isModalOpen := true;
    }
  }

  /** Editing never asks for a password: a prefilled form is valid exactly
      when the user has a name and a role. */
  lemma EditedUserNeedsNoPassword(user: User, t: string -> string)
    ensures "password" !in ValidationErrors(user.username, "", user.roles, true, t)
    ensures ValidationErrors(user.username, "", user.roles, true, t) == map[] <==>
      user.username != "" && user.roles != []
  {
    ValidIffNoErrors(user.username, "", user.roles, true, t);
  }
}
