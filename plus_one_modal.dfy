/** The plus-one management dialog of an inviting guest: the cap taken from
    the guest-type settings, the add button's gating, and the three-field
    guard in front of the add and update requests. The requests themselves
    are not modelled; a guard that passes yields the payload it would send. */
module PlusOneModal {
  import opened Js
  import opened Guests

  /** `maxPlusOnes`: the guest type's entry in the settings when the
      settings, the guest and the entry all exist, else 0. */
  function MaxPlusOnes(settings: Option<map<string, int>>, guest: Option<Guest>): (m: int)
    ensures settings.None? || guest.None? ==> m == 0
    ensures settings.Some? && guest.Some? && guest.value.guestType !in settings.value ==> m == 0
    ensures settings.Some? && guest.Some? && guest.value.guestType in settings.value ==>
      m == settings.value[guest.value.guestType]
  {
    if settings.Some? && guest.Some? && guest.value.guestType in settings.value then
      settings.value[guest.value.guestType]
    else 0
  }

  /** `plusOneLimitReached`. */
  predicate LimitReached(plusOneCount: nat, maxPlusOnes: int) {
    plusOneCount >= maxPlusOnes
  }

  /** The add button's `disabled`: while loading, or at the limit. */
  predicate AddButtonDisabled(loading: bool, plusOneCount: nat, maxPlusOnes: int) {
    loading || LimitReached(plusOneCount, maxPlusOnes)
  }

  /** A guest whose type has no entry, or who is missing, can never be given
      a plus-one here: the button is disabled whatever the count. */
  lemma NoEntryNoAdd(settings: Option<map<string, int>>, guest: Option<Guest>, loading: bool, plusOneCount: nat)
    requires settings.None? || guest.None? || guest.value.guestType !in settings.value
    ensures AddButtonDisabled(loading, plusOneCount, MaxPlusOnes(settings, guest))
  {
  }

  /** The button is enabled exactly below the cap when nothing is loading,
      so an add it allows never takes the count past the cap. */
  lemma AddStaysWithinCap(loading: bool, plusOneCount: nat, maxPlusOnes: int)
    ensures !AddButtonDisabled(loading, plusOneCount, maxPlusOnes) <==> !loading && plusOneCount < maxPlusOnes
    ensures !AddButtonDisabled(loading, plusOneCount, maxPlusOnes) ==> plusOneCount + 1 <= maxPlusOnes
  {
  }

  /** The three fields of a plus-one. */
  datatype PlusOneData = PlusOneData(firstName: string, lastName: string, email: string)

  const EmptyPlusOne := PlusOneData("", "", "")

  /** None of the three fields is empty. */
  predicate Complete(d: PlusOneData) {
    d.firstName != "" && d.lastName != "" && d.email != ""
  }

  /** A submit: refused with an alert before any request, or sent. */
  datatype Submit = Refused(alert: string) | Sent(payload: PlusOneData)

  /** `handleAddPlusOne`'s guard. */
  function AddRequest(d: PlusOneData, t: string -> string): (s: Submit)
    ensures s.Sent? <==> Complete(d)
    ensures s.Sent? ==> s.payload == d
    ensures s.Refused? ==> s.alert == t("empty_fields")
  {
    if d.firstName == "" || d.lastName == "" || d.email == "" then Refused(t("empty_fields"))
    else Sent(d)
  }

  /** The plus-one being edited: its QR identifier and its fields. */
  datatype EditingPlusOne = EditingPlusOne(qrId: string, data: PlusOneData)

  /** `handleUpdatePlusOne`'s guard; the payload is the three fields only. */
  function UpdateRequest(editing: EditingPlusOne, t: string -> string): (s: Submit)
    ensures s.Sent? <==> Complete(editing.data)
    ensures s.Sent? ==> s.payload == editing.data
    ensures s.Refused? ==> s.alert == t("empty_fields")
  {
    var d := editing.data;
    if d.firstName == "" || d.lastName == "" || d.email == "" then Refused(t("empty_fields"))
    else Sent(PlusOneData(d.firstName, d.lastName, d.email))
  }

  /** The add form: whether it is shown, and what has been typed. */
  datatype AddForm = AddForm(showAddForm: bool, newPlusOne: PlusOneData)

  /** The cancel button: the form is hidden and the three fields emptied. */
  function CancelAdd(f: AddForm): (g: AddForm)
    ensures !g.showAddForm
    ensures g.newPlusOne.firstName == "" && g.newPlusOne.lastName == "" && g.newPlusOne.email == ""
  {
    AddForm(false, EmptyPlusOne)
  }

  /** After a cancel, submitting the add form would be refused: nothing
      typed before the cancel survives it. */
  lemma CancelThenAddRefused(f: AddForm, t: string -> string)
    ensures AddRequest(CancelAdd(f).newPlusOne, t) == Refused(t("empty_fields"))
  {
  }

  /** Adding and updating apply the same guard. */
  lemma SameGuard(qrId: string, d: PlusOneData, t: string -> string)
    ensures AddRequest(d, t) == UpdateRequest(EditingPlusOne(qrId, d), t)
  {
  }
}
