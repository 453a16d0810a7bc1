/** The event settings screen: the add and edit forms' guards, the row
    selection, the inviter picker and its fetch condition, the plus-one
    management button, and the name shown for an edited guest's plus-one.
    Requests and their replies after confirmation are not modelled. */
module EventSettings {
  import opened Js
  import opened Guests
  import ParticipantList
  import PlusOneModal

  /** The add or edit form's contents; `id` is empty in the add form. */
  datatype GuestForm = GuestForm(
    id: string,
    firstName: string,
    lastName: string,
    email: string,
    guestType: string,
    selectedInviterId: Option<string>,
    plusOneQrId: Option<string>)

  /** The add form as first shown and after a successful add. */
  const EmptyNewGuest := GuestForm("", "", "", "", REGULAR, None, None)

  /** `!x` for a string that may be null. */
  predicate Blank(x: Option<string>) {
    x.None? || x.value == ""
  }

  /** The translation key of the alert refusing the form, if any: a missing
      field first, then a plus-one without an inviter. */
  function FormRefusal(f: GuestForm): (key: Option<string>)
    ensures key == Some("empty_fields") <==>
      f.firstName == "" || f.lastName == "" || f.email == "" || f.guestType == ""
    ensures key == Some("inviter_required") <==>
      f.firstName != "" && f.lastName != "" && f.email != "" && f.guestType != "" &&
      f.guestType == PLUSONE && Blank(f.selectedInviterId)
    ensures key.None? <==>
      f.firstName != "" && f.lastName != "" && f.email != "" && f.guestType != "" &&
      (f.guestType == PLUSONE ==> !Blank(f.selectedInviterId))
  {
    if f.firstName == "" || f.lastName == "" || f.email == "" || f.guestType == "" then Some("empty_fields")
    else if f.guestType == PLUSONE && Blank(f.selectedInviterId) then Some("inviter_required")
    else None
  }

  /** One option of the inviter picker. */
  datatype InviterOption = InviterOption(value: string, text: string)

  /** `guestTypeSettings[type] || 0`. */
  function Cap(settings: map<string, int>, guestType: string): int {
    if guestType in settings then settings[guestType] else 0
  }

  /** `first last (count/cap)`. */
  function InviterLabel(inviter: Guest, settings: map<string, int>): string {
    FullName(inviter) + " (" + NatToDecimal(PlusOneCount(inviter)) + "/" +
      IntToDecimal(Cap(settings, inviter.guestType)) + ")"
  }

  /** `inviterOptions`: one option per inviter, in order, valued by its id. */
  function InviterOptions(inviters: seq<Guest>, settings: map<string, int>): (opts: seq<InviterOption>)
    ensures |opts| == |inviters|
    ensures forall i :: 0 <= i < |opts| ==>
      opts[i].value == inviters[i].id && opts[i].text == InviterLabel(inviters[i], settings)
  {
    if inviters == [] then []
    else
      [InviterOption(inviters[0].id, InviterLabel(inviters[0], settings))] + InviterOptions(inviters[1..], settings)
  }

  /** A label reads back as the inviter's name, its plus-one count and the
      type's cap (0 for a type the settings do not list). A negative cap,
      which `parseInt(value) || 0` stores for a typed negative number, is
      shown with a minus sign before its digits. */
  lemma InviterLabelReadsBack(inviter: Guest, settings: map<string, int>) returns (count: string, cap: string)
    ensures InviterLabel(inviter, settings) == FullName(inviter) + " (" + count + "/" + cap + ")"
    ensures AllRadixDigits(count, 10) && RadixValue(count, 10) == PlusOneCount(inviter)
    ensures ParseInt(cap) == Some(Cap(settings, inviter.guestType))
    ensures Cap(settings, inviter.guestType) >= 0 ==>
      AllRadixDigits(cap, 10) && RadixValue(cap, 10) == Cap(settings, inviter.guestType)
    ensures Cap(settings, inviter.guestType) < 0 ==>
      |cap| > 1 && cap[0] == '-' && AllRadixDigits(cap[1..], 10) &&
      RadixValue(cap[1..], 10) == -Cap(settings, inviter.guestType)
    ensures inviter.guestType !in settings ==> cap == "0"
  {
    count := NatToDecimal(PlusOneCount(inviter));
    cap := IntToDecimal(Cap(settings, inviter.guestType));
    DecimalRoundTrip(PlusOneCount(inviter));
    IntToDecimalReadsBack(Cap(settings, inviter.guestType));
    if Cap(settings, inviter.guestType) >= 0 {
      DecimalRoundTrip(Cap(settings, inviter.guestType));
    } else {
      NegativeDecimalDigits(Cap(settings, inviter.guestType));
    }
  }

  /** The plus-one management button's `disabled`: while exporting, or when
      the type's entry is exactly 0. */
  predicate PlusOneButtonDisabled(isExporting: bool, settings: map<string, int>, guestType: string) {
    isExporting || (guestType in settings && settings[guestType] == 0)
  }

  /** A type the settings do not list leaves the button enabled, yet the
      dialog it opens treats that type's cap as 0, so its add button is
      disabled. */
  lemma UnlistedTypeOpensFullDialog(settings: map<string, int>, guest: Guest, loading: bool, plusOneCount: nat)
    requires guest.guestType !in settings
    ensures !PlusOneButtonDisabled(false, settings, guest.guestType)
    ensures PlusOneModal.AddButtonDisabled(loading, plusOneCount, PlusOneModal.MaxPlusOnes(Some(settings), Some(guest)))
  {
    PlusOneModal.NoEntryNoAdd(Some(settings), Some(guest), loading, plusOneCount);
  }

  // ----- the plus-one name -----

  /** The first guest of `gs` satisfying `p`, as `Array.prototype.find`. */
  function Find(gs: seq<Guest>, p: Guest -> bool): (r: Option<Guest>)
    ensures r.None? <==> forall i :: 0 <= i < |gs| ==> !p(gs[i])
    ensures r.Some? ==>
      exists i :: 0 <= i < |gs| && gs[i] == r.value && p(gs[i]) && forall j :: 0 <= j < i ==> !p(gs[j])
  {
    if gs == [] then None
    else if p(gs[0]) then Some(gs[0])
    else
      var r := Find(gs[1..], p);
      if r.Some? then
        var i :| 0 <= i < |gs[1..]| && gs[1..][i] == r.value && p(gs[1..][i]) &&
          forall j :: 0 <= j < i ==> !p(gs[1..][j]);
        assert gs[i + 1] == r.value;
        assert forall j :: 0 <= j < i + 1 ==> !p(gs[j]) by {
          forall j | 0 <= j < i + 1 ensures !p(gs[j]) {
            if j > 0 {
              assert gs[j] == gs[1..][j - 1];
            }
          }
        }
        r
      else
        assert forall i :: 0 <= i < |gs| ==> !p(gs[i]) by {
          forall i | 0 <= i < |gs| ensures !p(gs[i]) {
            if i > 0 {
              assert gs[i] == gs[1..][i - 1];
            }
          }
        }
        r
  }

  /** The answer to the request for every guest. */
  datatype GuestsReply = GuestsLoaded(guests: seq<Guest>) | GuestsFailed

  /** A plus-one of that QR identifier. */
  predicate IsPlusOneWith(qrId: string, g: Guest) {
    g.qrId == qrId && g.guestType == PLUSONE
  }

  /** Any guest of that QR identifier. */
  predicate HasQrId(qrId: string, g: Guest) {
    g.qrId == qrId
  }

  /** `getPlusOneName`: empty for a missing identifier or `NA`; otherwise
      the first plus-one with that identifier, else the first guest with it,
      else the `unknownGuest` text, which a failed request also gives. */
  function PlusOneName(plusOneQrId: Option<string>, reply: GuestsReply, t: string -> string): (name: string)
    ensures Blank(plusOneQrId) || plusOneQrId.value == "NA" ==> name == ""
    ensures !Blank(plusOneQrId) && plusOneQrId.value != "NA" ==>
      var q := plusOneQrId.value;
      (reply.GuestsFailed? ==> name == t("unknownGuest")) &&
      (reply.GuestsLoaded? ==>
        var gs := reply.guests;
        ((exists i :: 0 <= i < |gs| && IsPlusOneWith(q, gs[i])) ==>
          exists i :: 0 <= i < |gs| && IsPlusOneWith(q, gs[i]) && name == FullName(gs[i])) &&
        ((forall i :: 0 <= i < |gs| ==> !IsPlusOneWith(q, gs[i])) && (exists i :: 0 <= i < |gs| && gs[i].qrId == q) ==>
          exists i :: 0 <= i < |gs| && gs[i].qrId == q && name == FullName(gs[i])) &&
        ((forall i :: 0 <= i < |gs| ==> gs[i].qrId != q) ==> name == t("unknownGuest")))
  {
    if Blank(plusOneQrId) || plusOneQrId.value == "NA" then ""
    else
      var q := plusOneQrId.value;
      match reply
      case GuestsFailed => t("unknownGuest")
      case GuestsLoaded(gs) =>
        var plusOne := Find(gs, g => IsPlusOneWith(q, g));
        if plusOne.Some? then FullName(plusOne.value)
        else
          var any := Find(gs, g => HasQrId(q, g));
          if any.Some? then FullName(any.value) else t("unknownGuest")
  }

  /** The reply to the inviter search. */
  datatype InvitersReply = InvitersLoaded(inviters: Option<seq<Guest>>) | InvitersFailed(message: Option<string>)

  /** The screen's state. */
  class Screen {
    var newGuest: GuestForm
    var editGuest: Option<GuestForm>
    var addGuestModalOpen: bool
    var editGuestModalOpen: bool
    var modalOpen: bool
    var modalMessage: string
    var selectedGuests: seq<string>
    var inviters: seq<Guest>
    var inviterSearchTerm: string
    var guestTypeSettings: map<string, int>
    var alerts: seq<string>

    /** The screen as first rendered, with the default caps. */
    constructor ()
      ensures newGuest == EmptyNewGuest && editGuest.None?
      ensures !addGuestModalOpen && !editGuestModalOpen && !modalOpen && modalMessage == ""
      ensures selectedGuests == [] && inviters == [] && inviterSearchTerm == "" && alerts == []
      ensures guestTypeSettings == map[REGULAR := 0, VIP := 5, EMPLOYEE := 5, PLUSONE := 0]
    {
      newGuest, editGuest := EmptyNewGuest, None;
      addGuestModalOpen, editGuestModalOpen, modalOpen, modalMessage := false, false, false, "";
      selectedGuests, inviters, inviterSearchTerm, alerts := [], [], "", [];
      guestTypeSettings := map[REGULAR := 0, VIP := 5, EMPLOYEE := 5, PLUSONE := 0];
    }

    /** `handleAddGuest`: a refused form raises its alert and leaves the
        confirmation closed; otherwise the confirmation opens with the
        plus-one or the ordinary message. */
    method AddGuest(t: string -> string)
      modifies this`alerts, this`modalMessage, this`modalOpen
      ensures FormRefusal(newGuest).Some? ==>
        alerts == old(alerts) + [t(FormRefusal(newGuest).value)] &&
        modalOpen == old(modalOpen) && modalMessage == old(modalMessage)
      ensures FormRefusal(newGuest).None? ==>
        modalOpen && alerts == old(alerts) &&
        modalMessage == (if newGuest.guestType == PLUSONE then t("confirmAddPlusOne") else t("confirmAddGuest"))
    {
      var refusal := FormRefusal(newGuest);
      if refusal.Some? {
        alerts := alerts + [t(refusal.value)];
        return;
      }
      modalMessage := if newGuest.guestType == PLUSONE then t("confirmAddPlusOne") else t("confirmAddGuest");
      modalOpen := true;
    }

    /** `handleUpdateGuest`, while the edit form holds a guest. */
    method UpdateGuest(t: string -> string)
      requires editGuest.Some?
      modifies this`alerts, this`modalMessage, this`modalOpen
      ensures FormRefusal(editGuest.value).Some? ==>
        alerts == old(alerts) + [t(FormRefusal(editGuest.value).value)] &&
        modalOpen == old(modalOpen) && modalMessage == old(modalMessage)
      ensures FormRefusal(editGuest.value).None? ==>
        modalOpen && alerts == old(alerts) && modalMessage == t("confirmUpdateGuest")
    {
      var refusal := FormRefusal(editGuest.value);
      if refusal.Some? {
        alerts := alerts + [t(refusal.value)];
        return;
      }
      modalMessage := t("confirmUpdateGuest");
      modalOpen := true;
    }

    /** `handleEdit`: the edit form takes the guest's fields, its inviter
        only for a plus-one, and its plus-one identifier or null. */
    method Edit(g: Guest)
      modifies this`editGuest, this`editGuestModalOpen
      ensures editGuestModalOpen && editGuest.Some?
      ensures var f := editGuest.value;
        f.id == g.id && f.firstName == g.firstName && f.lastName == g.lastName &&
        f.email == g.email && f.guestType == g.guestType
      ensures g.guestType == PLUSONE ==> editGuest.value.selectedInviterId == g.selectedInviterId
      ensures g.guestType != PLUSONE ==> editGuest.value.selectedInviterId.None?
      ensures editGuest.value.plusOneQrId == (if Blank(g.plusOneQrId) then None else g.plusOneQrId)
    {
      editGuest := Some(GuestForm(g.id, g.firstName, g.lastName, g.email, g.guestType,
        if g.guestType == PLUSONE then g.selectedInviterId else None,
        if Blank(g.plusOneQrId) then None else g.plusOneQrId));
      editGuestModalOpen := true;
    }

    /** `handleRowClick`: the selection toggle shared with the participant
        list. */
    method RowClick(id: string)
      modifies this`selectedGuests
      ensures selectedGuests == ParticipantList.Toggle(old(selectedGuests), id)
      ensures id in selectedGuests <==> id !in old(selectedGuests)
    {
      selectedGuests := ParticipantList.Toggle(selectedGuests, id);
    }

    /** `handleBulkDelete`: nothing for an empty selection, otherwise the
        confirmation opens with the bulk-delete message. */
    method BulkDelete(t: string -> string)
      modifies this`modalMessage, this`modalOpen
      ensures selectedGuests == [] ==> modalOpen == old(modalOpen) && modalMessage == old(modalMessage)
      ensures selectedGuests != [] ==> modalOpen && modalMessage == t("confirmBulkDeleteWithPlusOne")
    {
      if |selectedGuests| == 0 {
        return;
      }
      modalMessage := t("confirmBulkDeleteWithPlusOne");
      modalOpen := true;
    }

    /** The add form is open on a plus-one, or the edit form is. */
    predicate ShouldFetchInviters()
      reads this
    {
      (addGuestModalOpen && newGuest.guestType == PLUSONE) ||
      (editGuestModalOpen && editGuest.Some? && editGuest.value.guestType == PLUSONE)
    }

    /** The inviter effect: a search with the current term while a plus-one
        form is open; otherwise the inviters and the term are cleared. */
    method InviterFetchEffect() returns (search: Option<string>)
      modifies this`inviters, this`inviterSearchTerm
      ensures search.Some? <==> ShouldFetchInviters()
      ensures search.Some? ==>
        search.value == inviterSearchTerm && inviters == old(inviters) && inviterSearchTerm == old(inviterSearchTerm)
      ensures search.None? ==> inviters == [] && inviterSearchTerm == ""
    {
      if ShouldFetchInviters() {
        search := Some(inviterSearchTerm);
      } else {
        search := None;
        inviters := [];
        inviterSearchTerm := "";
      }
    }

    /** The search's answer: the list (empty when absent), or an alert and
        an empty list. */
    method InvitersReceived(reply: InvitersReply, t: string -> string)
      modifies this`inviters, this`alerts
      ensures reply.InvitersLoaded? ==> inviters == reply.inviters.GetOr([]) && alerts == old(alerts)
      ensures reply.InvitersFailed? ==>
        inviters == [] && alerts == old(alerts) + [t("error") + ": " + Or(reply.message, t("fetchInvitersFailed"))]
    {
      match reply
      case InvitersLoaded(list) =>
        inviters := list.GetOr([]);
      case InvitersFailed(message) =>
        alerts := alerts + [t("error") + ": " + Or(message, t("fetchInvitersFailed"))];
        inviters := [];
    }
  }
}
