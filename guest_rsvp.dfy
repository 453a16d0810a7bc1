/** The guest's RSVP page: the answer to the invitation, the plus-one form
    shown to attending employees and VIPs under their cap, and the ticket
    buttons laid out three to a row. The backend replies and `t` are inputs. */
module GuestRsvp {
  import opened Js
  import opened Guests

  // ----- chunks -----

  /** The chunks of `a` of `size` elements each, the last one possibly
      shorter. */
  function Chunks<T>(a: seq<T>, size: nat): seq<seq<T>>
    requires size > 0
    decreases |a|
  {
    if a == [] then []
    else if |a| <= size then [a]
    else [a[..size]] + Chunks(a[size..], size)
  }

  /** The chunks joined back together. */
  function Flatten<T>(cs: seq<seq<T>>): seq<T> {
    if cs == [] then [] else cs[0] + Flatten(cs[1..])
  }

  /** `chunkArray(array, size)`: slices `[i, i + size)` for `i` stepping by
      `size` while below the length (`slice` clamps its end). */
  method ChunkArray<T>(a: seq<T>, size: nat) returns (result: seq<seq<T>>)
    requires size > 0
    ensures result == Chunks(a, size)
  {
    result := [];
    var i := 0;
    while i < |a|
      invariant 0 <= i
      invariant result + Chunks(a[if i < |a| then i else |a|..], size) == Chunks(a, size)
      decreases |a| - i
    {
      var end := if i + size < |a| then i + size else |a|;
      ChunksStep(a[i..], size);
      assert a[i..][..end - i] == a[i..end];
      assert a[i..][end - i..] == a[end..];
      result := result + [a[i..end]];
      i := i + size;
    }
  }

  /** One step of the chunking loop: the first chunk is the first `size`
      elements, or all of them. */
  lemma ChunksStep<T>(a: seq<T>, size: nat)
    requires size > 0 && a != []
    ensures var end := if size < |a| then size else |a|;
      Chunks(a, size) == [a[..end]] + Chunks(a[end..], size)
  {
    if |a| <= size {
      assert a[..|a|] == a;
      assert a[|a|..] == [];
    }
  }

  /** Joining the chunks gives back the array. */
  lemma {:induction false} ChunksFlatten<T>(a: seq<T>, size: nat)
    requires size > 0
    ensures Flatten(Chunks(a, size)) == a
    decreases |a|
  {
    if a != [] && |a| > size {
      ChunksFlatten(a[size..], size);
      assert a[..size] + a[size..] == a;
    }
  }

  /** There is no chunk for an empty array, and otherwise as many as the
      least count whose `size`-sized chunks cover the array: ceil(|a| / size). */
  lemma {:induction false} ChunksCount<T>(a: seq<T>, size: nat)
    requires size > 0
    ensures Chunks(a, size) == [] <==> a == []
    ensures (|Chunks(a, size)| - 1) * size < |a| <= |Chunks(a, size)| * size
    decreases |a|
  {
    if a != [] && |a| > size {
      var c := |Chunks(a[size..], size)|;
      ChunksCount(a[size..], size);
      assert |Chunks(a, size)| == c + 1;
      assert (c + 1) * size == c * size + size;
      assert (c - 1) * size == c * size - size;
    }
  }

  /** Every chunk but the last has `size` elements, and the last has between
      1 and `size`. */
  lemma {:induction false} ChunkLengths<T>(a: seq<T>, size: nat)
    requires size > 0
    ensures var cs := Chunks(a, size);
      (forall k :: 0 <= k < |cs| - 1 ==> |cs[k]| == size) &&
      (cs != [] ==> 1 <= |cs[|cs| - 1]| <= size)
    decreases |a|
  {
    if a != [] && |a| > size {
      var cs := Chunks(a, size);
      var rest := Chunks(a[size..], size);
      ChunkLengths(a[size..], size);
      assert cs == [a[..size]] + rest;
      assert rest != [];
      forall k | 0 <= k < |cs| - 1
        ensures |cs[k]| == size
      {
        if k > 0 {
          assert cs[k] == rest[k - 1];
        }
      }
      assert cs[|cs| - 1] == rest[|rest| - 1];
    }
  }

  // ----- the RSVP page -----

  /** `['EMPLOYEE', 'VIP'].includes(guest.guestType) && (!guest.guests ||
      guest.guests.length < maxGuests)`: the guest may still bring someone. */
  predicate UnderCapacity(g: Guest, maxGuests: int) {
    IsInviterType(g.guestType) && (g.guests.None? || |g.guests.value| < maxGuests)
  }

  /** The answer to the RSVP request. */
  datatype RsvpReply = RsvpSaved | RsvpFailed(message: Option<string>)

  /** The answer to the add-guest request. */
  datatype AddGuestReply =
    | GuestAdded(added: Guest)
    | AddGuestFailed(messageKey: Option<string>, message: Option<string>)

  /** The fallback shown when adding a guest fails without a message key. */
  const RetryOrContactText :=
    "Lütfen sayfayı yenileyip tekrar deneyiniz. Eğer hata devam ediyorsa canadaclub.ankara@international.gc.ca adresini kullanarak bizimle iletişime geçiniz."

  /** The message shown when adding a guest fails: the translated key, else
      the server's message; without a key, the translated retry-or-contact
      text, else its built-in wording, so it is never empty. */
  function AddGuestError(messageKey: Option<string>, message: Option<string>, t: string -> string): (m: string)
    ensures Truthy(messageKey) && t(messageKey.value) != "" ==> m == t(messageKey.value)
    ensures Truthy(messageKey) && t(messageKey.value) == "" ==> m == message.GetOr("")
    ensures !Truthy(messageKey) && t("retryOrContact") != "" ==> m == t("retryOrContact")
    ensures !Truthy(messageKey) && t("retryOrContact") == "" ==> m == RetryOrContactText
    ensures !Truthy(messageKey) ==> m != ""
  {
    if Truthy(messageKey) then Or(Some(t(messageKey.value)), message.GetOr(""))
    else Or(Some(t("retryOrContact")), RetryOrContactText)
  }

  /** The plus-one being typed. */
  datatype GuestData = GuestData(firstName: string, lastName: string, email: string)

  const EmptyGuestData := GuestData("", "", "")

  class Page {
    var qrId: string
    var guest: Option<Guest>
    var guests: seq<Guest>
    var rsvpEnabled: bool
    var maxGuests: int
    var error: string
    var showGuestForm: bool
    var showDeclineMessage: bool
    var guestData: GuestData
    var alerts: seq<string>
    var navigations: seq<string>

    /** The page after `fetchGuest` and `checkRsvpStatus` succeeded. */
    constructor (qr: string, loaded: Guest, maxGuestsReply: Option<int>, enabled: bool)
      ensures qrId == qr && guest == Some(loaded) && rsvpEnabled == enabled
      ensures maxGuests == maxGuestsReply.GetOr(0)
      ensures guests == (if loaded.guests.Some? then loaded.guests.value else [])
      ensures |guests| == PlusOneCount(loaded)
      ensures error == "" && !showGuestForm && !showDeclineMessage && guestData == EmptyGuestData
      ensures alerts == [] && navigations == []
    {
      qrId, guest, rsvpEnabled := qr, Some(loaded), enabled;
      maxGuests := maxGuestsReply.GetOr(0);
      guests := if loaded.guests.Some? && |loaded.guests.value| > 0 then loaded.guests.value else [];
      error, showGuestForm, showDeclineMessage, guestData := "", false, false, EmptyGuestData;
      alerts, navigations := [], [];
    }

    /** The add-guest button is shown. */
    predicate AddGuestButtonShown()
      reads this
    {
      rsvpEnabled && guest.Some? && IsInviterType(guest.value.guestType) && |guests| < maxGuests
    }

    /** The effect on `guest`, `rsvpEnabled` and `maxGuests`: for an attending
        guest while RSVP is open, the form is shown exactly when the guest is
        under capacity; otherwise it is left as it was. */
    method ShowGuestFormEffect()
      modifies this`showGuestForm
      ensures guest.Some? && guest.value.willAttend && rsvpEnabled ==>
        (showGuestForm <==> UnderCapacity(guest.value, maxGuests))
      ensures !(guest.Some? && guest.value.willAttend && rsvpEnabled) ==> showGuestForm == old(showGuestForm)
    {
      if guest.Some? && guest.value.willAttend && rsvpEnabled {
        showGuestForm := UnderCapacity(guest.value, maxGuests);
      }
    }

    /** `handleResponse(willAttend)`. */
    method Respond(willAttend: bool, reply: RsvpReply, t: string -> string)
      requires guest.Some?
      modifies this`guest, this`guests, this`showGuestForm, this`showDeclineMessage, this`error, this`alerts
      ensures reply.RsvpSaved? ==>
        guest == Some(old(guest).value.(willAttend := willAttend, responded := true)) &&
        error == old(error) && alerts == old(alerts)
      ensures reply.RsvpSaved? && !willAttend ==> showDeclineMessage && !showGuestForm && guests == []
      ensures reply.RsvpSaved? && willAttend ==>
        !showDeclineMessage && guests == old(guests) &&
        (showGuestForm <==> UnderCapacity(old(guest).value, maxGuests))
      ensures reply.RsvpFailed? ==>
        error == Or(reply.message, Or(Some(t("error")), "Bir hata oluştu, lütfen tekrar deneyin.")) &&
        alerts == old(alerts) + [error] && guest == old(guest) && guests == old(guests) &&
        showGuestForm == old(showGuestForm) && showDeclineMessage == old(showDeclineMessage)
    {
      match reply
      case RsvpSaved =>
        var g := guest.value;
        guest := Some(g.(willAttend := willAttend, responded := true));
        if !willAttend {
          showDeclineMessage := true;
          showGuestForm := false;
          guests := [];
        } else if UnderCapacity(g, maxGuests) {
          showGuestForm := true;
          showDeclineMessage := false;
        } else {
          showGuestForm := false;
          showDeclineMessage := false;
        }
      case RsvpFailed(message) =>
        error := Or(message, Or(Some(t("error")), "Bir hata oluştu, lütfen tekrar deneyin."));
        alerts := alerts + [error];
    }

    /** `handleGuestSubmit`: the new plus-one is appended to both lists, the
        form is emptied, and it stays open exactly while the count is still
        under the cap, which is when the add-guest button would show. */
    method SubmitGuest(reply: AddGuestReply, t: string -> string)
      requires guest.Some?
      modifies this`guest, this`guests, this`guestData, this`showGuestForm, this`error, this`alerts,
               this`navigations
      ensures reply.GuestAdded? ==>
        guests == old(guests) + [reply.added] &&
        guest == Some(old(guest).value.(guests := Some(
          (if old(guest).value.guests.Some? then old(guest).value.guests.value else []) + [reply.added]))) &&
        guestData == EmptyGuestData && error == "" &&
        (showGuestForm <==> |old(guests)| + 1 < maxGuests) &&
        (showGuestForm <==> |guests| < maxGuests) &&
        navigations == old(navigations) + ["/rsvp/" + qrId] && alerts == old(alerts)
      ensures reply.GuestAdded? && rsvpEnabled && IsInviterType(old(guest).value.guestType) ==>
        (showGuestForm <==> AddGuestButtonShown())
      ensures reply.AddGuestFailed? ==>
        error == AddGuestError(reply.messageKey, reply.message, t) && alerts == old(alerts) + [error] &&
        guest == old(guest) && guests == old(guests) && guestData == old(guestData) &&
        showGuestForm == old(showGuestForm) && navigations == old(navigations)
    {
      match reply
      case GuestAdded(added) =>
        var g := guest.value;
        var previous := if g.guests.Some? then g.guests.value else [];
        guest := Some(g.(guests := Some(previous + [added])));
        showGuestForm := |guests| + 1 < maxGuests;
        guests := guests + [added];
        guestData := EmptyGuestData;
        error := "";
        navigations := navigations + ["/rsvp/" + qrId];
      case AddGuestFailed(messageKey, message) =>
        error := AddGuestError(messageKey, message, t);
        alerts := alerts + [error];
    }
  }

  /** A guest who declined and then accepted keeps the plus-ones in the
      guest record but not in the page's list, which the decline emptied.
      Adding one more then opens the form from the emptied list, and the
      effect that the changed guest triggers closes it again from the
      record: with two kept plus-ones and a cap of 3, 0 + 1 < 3 opens it and
      3 < 3 closes it. */
  method StaleGuestsCloseForm(t: string -> string) returns (openedByHandler: bool, shownAfterEffect: bool)
    ensures openedByHandler && !shownAfterEffect
  {
    var plusOne := Guest("p", "p-qr", "Ada", "Bay", "ada@ex.org", PLUSONE, true, true, false, None, None, None, None);
    var vip := Guest("v", "v-qr", "Can", "Dal", "can@ex.org", VIP, false, false, false, None, None, None,
                     Some([plusOne, plusOne]));
    var page := new Page("v-qr", vip, Some(3), true);
    page.Respond(false, RsvpSaved, t);
    page.Respond(true, RsvpSaved, t);
    page.ShowGuestFormEffect();
    page.SubmitGuest(GuestAdded(plusOne), t);
    openedByHandler := page.showGuestForm;
    page.ShowGuestFormEffect();
    shownAfterEffect := page.showGuestForm;
  }
}
