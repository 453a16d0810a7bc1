/** The participant form: per-field validation, with the email checked
    against `^[^\s@]+@[^\s@]+\.[^\s@]+$`; per-field error clearing on change;
    the prefill for an edited participant. The requests are not modelled. */
module ParticipantForm {
  import opened Js
  import opened Guests

  // ----- the email pattern -----

  /** A character `[^\s@]` matches. */
  predicate Plain(c: char) {
    !IsSpace(c) && c != '@'
  }

  predicate AllPlain(s: string) {
    forall i :: 0 <= i < |s| ==> Plain(s[i])
  }

  /** The pattern matches the whole of `s`: a non-empty local part, `@`, a
      non-empty run, `.`, and a non-empty run, none of the three holding
      whitespace or `@`. `i` is the `@`, `j` the `.` the pattern settles on. */
  predicate MatchesEmailPattern(s: string) {
    exists i, j :: 0 < i && i + 1 < j && j + 1 < |s| && s[i] == '@' && s[j] == '.' &&
      AllPlain(s[..i]) && AllPlain(s[i + 1..j]) && AllPlain(s[j + 1..])
  }

  /** The shape the pattern amounts to: no whitespace, exactly one `@`, not
      first, and a `.` after it that is neither the domain's first nor its
      last character. */
  predicate EmailShape(s: string) {
    (forall p :: 0 <= p < |s| ==> !IsSpace(s[p])) &&
    exists k :: 0 < k < |s| && s[k] == '@' &&
      (forall p :: 0 <= p < |s| && s[p] == '@' ==> p == k) &&
      exists m :: k + 1 < m < |s| - 1 && s[m] == '.'
  }

  /** A string the pattern accepts has that shape. */
  lemma PatternGivesShape(s: string)
    requires MatchesEmailPattern(s)
    ensures EmailShape(s)
  {
    var i, j :| 0 < i && i + 1 < j && j + 1 < |s| && s[i] == '@' && s[j] == '.' &&
      AllPlain(s[..i]) && AllPlain(s[i + 1..j]) && AllPlain(s[j + 1..]);
    var local, mid, tld := s[..i], s[i + 1..j], s[j + 1..];
    forall p | 0 <= p < |s|
      ensures !IsSpace(s[p]) && (s[p] == '@' ==> p == i)
    {
      if p < i {
        assert local[p] == s[p];
      } else if i < p < j {
        assert mid[p - i - 1] == s[p];
      } else if j < p {
        assert tld[p - j - 1] == s[p];
      }
    }
    assert i + 1 < j < |s| - 1;
  }

  /** A string of that shape is accepted by the pattern. */
  lemma ShapeGivesPattern(s: string)
    requires EmailShape(s)
    ensures MatchesEmailPattern(s)
  {
    var k :| 0 < k < |s| && s[k] == '@' &&
      (forall p :: 0 <= p < |s| && s[p] == '@' ==> p == k) &&
      exists m :: k + 1 < m < |s| - 1 && s[m] == '.';
    var m :| k + 1 < m < |s| - 1 && s[m] == '.';
    var local, mid, tld := s[..k], s[k + 1..m], s[m + 1..];
    assert AllPlain(local) by {
      forall q | 0 <= q < |local| ensures Plain(local[q]) {
        assert local[q] == s[q];
      }
    }
    assert AllPlain(mid) by {
      forall q | 0 <= q < |mid| ensures Plain(mid[q]) {
        assert mid[q] == s[k + 1 + q];
      }
    }
    assert AllPlain(tld) by {
      forall q | 0 <= q < |tld| ensures Plain(tld[q]) {
        assert tld[q] == s[m + 1 + q];
      }
    }
  }

  /** The pattern accepts exactly the strings of that shape. */
  lemma EmailPatternIsShape(s: string)
    ensures MatchesEmailPattern(s) <==> EmailShape(s)
  {
    if MatchesEmailPattern(s) {
      PatternGivesShape(s);
    }
    if EmailShape(s) {
      ShapeGivesPattern(s);
    }
  }

  /** The empty string is refused, so `!email || !pattern` is just
      `!pattern`. */
  lemma EmptyEmailRefused()
    ensures !MatchesEmailPattern("")
  {
  }

  // ----- the form -----

  /** The form's fields; the inviter is `''` when none is chosen. */
  datatype FormData = FormData(
    firstName: string,
    lastName: string,
    email: string,
    guestType: string,
    selectedInviterId: string)

  /** The form's own spelling of the plus-one type, and its default type. */
  const PlusOneOption := "PlusOne"
  const EmptyForm := FormData("", "", "", "Regular", "")

  /** The errors validation records, by field name. */
  function ValidationErrors(f: FormData, t: string -> string): (errors: map<string, string>)
    ensures "firstName" in errors <==> f.firstName == ""
    ensures "lastName" in errors <==> f.lastName == ""
    ensures "email" in errors <==> !MatchesEmailPattern(f.email)
    ensures "selectedInviterId" in errors <==> f.guestType == PlusOneOption && f.selectedInviterId == ""
    ensures forall k :: k in errors ==> k in {"firstName", "lastName", "email", "selectedInviterId"}
    ensures "firstName" in errors ==> errors["firstName"] == t("firstNameRequired")
    ensures "lastName" in errors ==> errors["lastName"] == t("lastNameRequired")
    ensures "email" in errors ==> errors["email"] == t("emailInvalid")
    ensures "selectedInviterId" in errors ==> errors["selectedInviterId"] == t("inviterRequired")
  {
    var e0: map<string, string> := map[];
    var e1 := if f.firstName == "" then e0["firstName" := t("firstNameRequired")] else e0;
    var e2 := if f.lastName == "" then e1["lastName" := t("lastNameRequired")] else e1;
    var e3 := if f.email == "" || !MatchesEmailPattern(f.email) then e2["email" := t("emailInvalid")] else e2;
    if f.guestType == PlusOneOption && f.selectedInviterId == "" then e3["selectedInviterId" := t("inviterRequired")]
    else e3
  }

  /** The form is valid exactly when both names are given, the email has the
      accepted shape, and a plus-one has an inviter. */
  lemma ValidIffNoErrors(f: FormData, t: string -> string)
    ensures ValidationErrors(f, t) == map[] <==>
      f.firstName != "" && f.lastName != "" && EmailShape(f.email) &&
      (f.guestType == PlusOneOption ==> f.selectedInviterId != "")
  {
    var errors := ValidationErrors(f, t);
    EmailPatternIsShape(f.email);
    if f.firstName == "" {
      assert "firstName" in errors;
    } else if f.lastName == "" {
      assert "lastName" in errors;
    } else if !MatchesEmailPattern(f.email) {
      assert "email" in errors;
    } else if f.guestType == PlusOneOption && f.selectedInviterId == "" {
      assert "selectedInviterId" in errors;
    } else {
      assert forall k :: k !in errors;
    }
  }

  /** The form's inputs. */
  datatype Field = FirstName | LastName | Email | GuestType | SelectedInviterId

  function FieldName(field: Field): string {
    match field
    case FirstName => "firstName"
    case LastName => "lastName"
    case Email => "email"
    case GuestType => "guestType"
    case SelectedInviterId => "selectedInviterId"
  }

  /** `{ ...formData, [name]: value }`. */
  function SetField(f: FormData, field: Field, value: string): (g: FormData)
    ensures field == FirstName ==> g == f.(firstName := value)
    ensures field == LastName ==> g == f.(lastName := value)
    ensures field == Email ==> g == f.(email := value)
    ensures field == GuestType ==> g == f.(guestType := value)
    ensures field == SelectedInviterId ==> g == f.(selectedInviterId := value)
  {
    match field
    case FirstName => f.(firstName := value)
    case LastName => f.(lastName := value)
    case Email => f.(email := value)
    case GuestType => f.(guestType := value)
    case SelectedInviterId => f.(selectedInviterId := value)
  }

  class Form {
    var data: FormData
    var errors: map<string, string>

    constructor ()
      ensures data == EmptyForm && errors == map[]
    {
      data, errors := EmptyForm, map[];
    }

    /** The edit effect: the participant's values, the inviter `''` when it
        has none. */
    method LoadEdit(p: Guest)
      modifies this`data
      ensures data.firstName == p.firstName && data.lastName == p.lastName && data.email == p.email
      ensures data.guestType == p.guestType
      ensures data.selectedInviterId == Or(p.selectedInviterId, "")
    {
      data := FormData(p.firstName, p.lastName, p.email, p.guestType, p.selectedInviterId.GetOr(""));
    }

    /** `validateForm`: the errors are built field by field and replace the
        old ones; the form is valid exactly when none was recorded. */
    method Validate(t: string -> string) returns (valid: bool)
      modifies this`errors
      ensures errors == ValidationErrors(data, t)
      ensures valid <==> errors == map[]
      ensures valid <==>
        data.firstName != "" && data.lastName != "" && EmailShape(data.email) &&
        (data.guestType == PlusOneOption ==> data.selectedInviterId != "")
    {
      var newErrors: map<string, string> := map[];
      if data.firstName == "" {
        newErrors := newErrors["firstName" := t("firstNameRequired")];
      }
      if data.lastName == "" {
        newErrors := newErrors["lastName" := t("lastNameRequired")];
      }
      if data.email == "" || !MatchesEmailPattern(data.email) {
        newErrors := newErrors["email" := t("emailInvalid")];
      }
      if data.guestType == PlusOneOption && data.selectedInviterId == "" {
        newErrors := newErrors["selectedInviterId" := t("inviterRequired")];
      }
      errors := newErrors;
      valid := |newErrors.Keys| == 0;
      ValidIffNoErrors(data, t);
    }

    /** `handleChange`: the field takes the value, its error is emptied, and
        every other field and error stays. */
    method Change(field: Field, value: string)
      modifies this`data, this`errors
      ensures data == SetField(old(data), field, value)
      ensures errors == old(errors)[FieldName(field) := ""]
      ensures forall k :: k in old(errors) && k != FieldName(field) ==> k in errors && errors[k] == old(errors)[k]
    {
      data := SetField(data, field, value);
      errors := errors[FieldName(field) := ""];
    }
  }
}
