/** The other settings of the admin screen: the volunteer list editor and the
    per-type plus-one caps. The backend replies are inputs; a request that
    would be sent is returned. */
module AdminSettings {
  import opened Js

  // ----- failed requests -----

  /** How an `axios` request failed: with a reply, without one, or before it
      was sent. */
  datatype HttpFailure =
    | ResponseError(status: int, serverMessage: Option<string>)
    | NoResponse
    | RequestSetupError

  /** The message chosen in the `catch` of the settings requests: 401 and 500
      have their own texts, a request without reply is a network error, and
      anything else keeps the handler's own fallback. */
  function FailureMessage(fallback: string, e: HttpFailure, t: string -> string): (m: string)
    ensures e.ResponseError? && e.status == 401 ==> m == t("unauthorizedError")
    ensures e.ResponseError? && e.status == 500 ==> m == Or(e.serverMessage, t("serverError"))
    ensures e.ResponseError? && e.status != 401 && e.status != 500 ==> m == fallback
    ensures e.NoResponse? ==> m == t("networkError")
    ensures e.RequestSetupError? ==> m == fallback
  {
    match e
    case ResponseError(status, serverMessage) =>
      if status == 401 then t("unauthorizedError")
      else if status == 500 then Or(serverMessage, t("serverError"))
      else fallback
    case NoResponse => t("networkError")
    case RequestSetupError => fallback
  }

  // ----- volunteers -----

  /** One volunteer entry; a missing name is the empty string. */
  datatype Volunteer = Volunteer(id: Option<string>, name: string)

  /** The entry the editor adds: `{ id: null, name: '' }`. */
  const BlankVolunteer := Volunteer(None, "")

  /** `!v.name || v.name.trim() === ''`. */
  predicate Blank(v: Volunteer) {
    Trim(v.name) == ""
  }

  /** `volunteers.some(v => Blank(v))`. */
  predicate HasEmptyField(vs: seq<Volunteer>) {
    exists i :: 0 <= i < |vs| && Blank(vs[i])
  }

  /** No two entries are blank. */
  predicate AtMostOneBlank(vs: seq<Volunteer>) {
    forall i, j :: 0 <= i < j < |vs| ==> !(Blank(vs[i]) && Blank(vs[j]))
  }

  /** The list after `handleAddVolunteer`: a blank entry is appended unless one
      is already blank. */
  function AfterAdd(vs: seq<Volunteer>): seq<Volunteer> {
    if HasEmptyField(vs) then vs else vs + [BlankVolunteer]
  }

  /** Adding never produces a second blank entry, and once an entry has been
      added the next add is refused. */
  lemma {:induction false} AddKeepsOneBlank(vs: seq<Volunteer>)
    ensures AtMostOneBlank(vs) ==> AtMostOneBlank(AfterAdd(vs))
    ensures !HasEmptyField(vs) ==> AfterAdd(vs) == vs + [BlankVolunteer] && AtMostOneBlank(AfterAdd(vs))
    ensures AfterAdd(AfterAdd(vs)) == AfterAdd(vs)
  {
    var r := AfterAdd(vs);
    if !HasEmptyField(vs) {
      assert Blank(r[|vs|]) by {
        assert Trim("") == "";
      }
      assert HasEmptyField(r);
    }
  }

  /** `volunteers.filter((_, i) => i !== index)`. */
  function Without(vs: seq<Volunteer>, index: nat): (r: seq<Volunteer>)
    ensures index < |vs| ==> r == vs[..index] + vs[index + 1..]
    ensures index >= |vs| ==> r == vs
  {
    if vs == [] then []
    else if index == 0 then vs[1..]
    else
      assert index - 1 < |vs[1..]| ==> vs[1..][..index - 1] == vs[1..index];
      [vs[0]] + Without(vs[1..], index - 1)
  }

  /** The names posted by the save: `volunteers.map(v => ({ name: v.name.trim() }))`. */
  function SavedNames(vs: seq<Volunteer>): (names: seq<string>)
    ensures |names| == |vs|
  {
    seq(|vs|, i requires 0 <= i < |vs| => Trim(vs[i].name))
  }

  /** A save that passes the blank check posts names that are neither empty
      nor padded, one per entry, in the editor's order. */
  lemma {:induction false} SavedNamesClean(vs: seq<Volunteer>)
    requires !HasEmptyField(vs)
    ensures |SavedNames(vs)| == |vs|
    ensures forall i :: 0 <= i < |vs| ==> SavedNames(vs)[i] != "" && Trim(SavedNames(vs)[i]) == SavedNames(vs)[i]
  {
    forall i | 0 <= i < |vs|
      ensures SavedNames(vs)[i] != "" && Trim(SavedNames(vs)[i]) == SavedNames(vs)[i]
    {
      assert !Blank(vs[i]);
      TrimIdempotent(vs[i].name);
    }
  }

  /** The reply to the save request: on success the list is reloaded (`None`
      when the reload fails). */
  datatype SaveReply =
    | Saved(reloaded: Option<seq<Volunteer>>)
    | SaveFailed(failure: HttpFailure)

  class VolunteerEditor {
    var volunteers: seq<Volunteer>
    var isModalOpen: bool
    var error: string
    var isErrorModalOpen: bool
    /** The messages shown with `alert`, oldest first. */
    var alerts: seq<string>

    constructor ()
      ensures volunteers == [] && !isModalOpen && error == "" && !isErrorModalOpen && alerts == []
    {
      volunteers, isModalOpen, error, isErrorModalOpen, alerts := [], false, "", false, [];
    }

    /** `handleVolunteerSettingsClick`: the editor opens on the stored list, or
        on one blank entry when the list is empty or cannot be fetched. */
    method Open(hasToken: bool, loaded: Option<seq<Volunteer>>, t: string -> string)
      modifies this
      ensures !hasToken ==>
        (error == t("error") + ": " + t("noAuthToken") && isErrorModalOpen &&
         volunteers == old(volunteers) && isModalOpen == old(isModalOpen) && alerts == old(alerts))
      ensures hasToken ==>
        (isModalOpen && volunteers != [] &&
         (loaded.Some? && loaded.value != [] ==> volunteers == loaded.value) &&
         (loaded.None? || loaded.value == [] ==> volunteers == [BlankVolunteer]) &&
         error == old(error) && isErrorModalOpen == old(isErrorModalOpen) && alerts == old(alerts))
    {
      if !hasToken {
        error := t("error") + ": " + t("noAuthToken");
        isErrorModalOpen := true;
        return;
      }
      if loaded.Some? && |loaded.value| > 0 {
        volunteers := loaded.value;
      } else {
        volunteers := [BlankVolunteer];
      }
      isModalOpen := true;
    }

    /** `handleVolunteerChange(index, value)`: only that entry's name changes. */
    method Change(index: nat, value: string)
      requires index < |volunteers|
      modifies this`volunteers
      ensures |volunteers| == |old(volunteers)|
      ensures volunteers[index] == old(volunteers)[index].(name := value)
      ensures forall k :: 0 <= k < |volunteers| && k != index ==> volunteers[k] == old(volunteers)[k]
    {
      volunteers := volunteers[index := volunteers[index].(name := value)];
    }

    /** `handleAddVolunteer`. */
    method Add(t: string -> string)
      modifies this`volunteers, this`alerts
      ensures volunteers == AfterAdd(old(volunteers))
      ensures HasEmptyField(old(volunteers)) ==>
        alerts == old(alerts) + [Or(Some(t("fillEmptyVolunteerField")), "Lütfen boş alanları doldurun")]
      ensures !HasEmptyField(old(volunteers)) ==> alerts == old(alerts)
    {
      if HasEmptyField(volunteers) {
        alerts := alerts + [Or(Some(t("fillEmptyVolunteerField")), "Lütfen boş alanları doldurun")];
        return;
      }
      volunteers := volunteers + [BlankVolunteer];
    }

    /** `handleDeleteVolunteer(index)`. */
    method Delete(index: nat)
      modifies this`volunteers
      ensures volunteers == Without(old(volunteers), index)
    {
      volunteers := Without(volunteers, index);
    }

    /** `handleVolunteerSettingsSave`: returns the names posted, if any. */
    method Save(hasToken: bool, reply: SaveReply, t: string -> string) returns (posted: Option<seq<string>>)
      modifies this
      ensures HasEmptyField(old(volunteers)) ==>
        (posted.None? && volunteers == old(volunteers) && isModalOpen == old(isModalOpen) &&
         error == old(error) && isErrorModalOpen == old(isErrorModalOpen) &&
         alerts == old(alerts) + [Or(Some(t("fillAllVolunteerFields")), "Lütfen tüm alanları doldurun")])
      ensures !HasEmptyField(old(volunteers)) && !hasToken ==>
        (posted.None? && volunteers == old(volunteers) && isModalOpen == old(isModalOpen) &&
         error == t("error") + ": " + t("noAuthToken") && isErrorModalOpen && alerts == old(alerts))
      ensures !HasEmptyField(old(volunteers)) && hasToken ==> posted == Some(SavedNames(old(volunteers)))
      ensures !HasEmptyField(old(volunteers)) && hasToken && reply.Saved? ==>
        (!isModalOpen && error == "" && isErrorModalOpen == old(isErrorModalOpen) &&
         volunteers == reply.reloaded.GetOr([]) &&
         alerts == old(alerts) + [Or(Some(t("volunteerSettingsSaved")), "Volunteer ayarları başarıyla kaydedildi")])
      ensures !HasEmptyField(old(volunteers)) && hasToken && reply.SaveFailed? ==>
        (error == t("error") + ": " +
                  FailureMessage(Or(Some(t("volunteerSettingsSaveFailed")), "Volunteer ayarları kaydedilemedi"),
                                 reply.failure, t) &&
         isErrorModalOpen && volunteers == old(volunteers) && isModalOpen == old(isModalOpen) &&
         alerts == old(alerts))
    {
      if HasEmptyField(volunteers) {
        alerts := alerts + [Or(Some(t("fillAllVolunteerFields")), "Lütfen tüm alanları doldurun")];
        return None;
      }
      if !hasToken {
        error := t("error") + ": " + t("noAuthToken");
        isErrorModalOpen := true;
        return None;
      }
      posted := Some(SavedNames(volunteers));
      match reply
      case Saved(reloaded) =>
        isModalOpen := false;
        alerts := alerts + [Or(Some(t("volunteerSettingsSaved")), "Volunteer ayarları başarıyla kaydedildi")];
        volunteers := reloaded.GetOr([]);
        error := "";
      case SaveFailed(failure) =>
        var fallback := Or(Some(t("volunteerSettingsSaveFailed")), "Volunteer ayarları kaydedilemedi");
        error := t("error") + ": " + FailureMessage(fallback, failure, t);
        isErrorModalOpen := true;
    }
  }

  // ----- plus-one caps per guest type -----

  /** `parseInt(value) || 0`: a number that fails to parse, or parses to zero,
      is stored as 0. */
  function SettingValue(value: string): (n: int)
    ensures ParseInt(value).None? ==> n == 0
  {
    var v := ParseInt(value);
    if v.Some? && v.value != 0 then v.value else 0
  }

  /** A cap typed as a decimal number is stored as that number; text that does
      not start with a digit is stored as 0. */
  lemma {:induction false} SettingValueOfDecimal(n: nat, s: string)
    requires s == [] || (!IsDigit(s[0]) && s[0] != '-' && s[0] != '+' && !IsSpace(s[0]))
    ensures SettingValue(NatToDecimal(n)) == n
    ensures SettingValue("-" + NatToDecimal(n)) == -(n as int)
    ensures SettingValue(s) == 0
  {
    assert SettingValue(NatToDecimal(n)) == n by {
      ParseIntOfDecimal(n);
    }
    assert SettingValue("-" + NatToDecimal(n)) == -(n as int) by {
      ParseIntOfNegativeDecimal(n);
    }
    assert SettingValue(s) == 0 by {
      NoDigitIsNaN(s);
    }
  }

  class GuestTypeSettings {
    /** The plus-one cap of each guest type. */
    var settings: map<string, int>

    /** The caps in force before the backend's settings arrive. */
    constructor ()
      ensures settings == map["REGULAR" := 0, "VIP" := 5, "EMPLOYEE" := 5, "PLUSONE" := 0]
    {
      settings := map["REGULAR" := 0, "VIP" := 5, "EMPLOYEE" := 5, "PLUSONE" := 0];
    }

    /** `handleGuestTypeSettingChange(guestType, value)`: only that type's cap changes. */
    method Change(guestType: string, value: string)
      modifies this
      ensures settings == old(settings)[guestType := SettingValue(value)]
    {
      settings := settings[guestType := SettingValue(value)];
    }
  }
}
