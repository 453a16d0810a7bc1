/** The check-in station: a QR identifier, typed or scanned, is sent to the
    backend and the reply is classified as an admission (possibly of a guest
    already checked in) or a refusal, with one feedback sound per attempt.
    The backend reply, the camera's decode result and the translator `t` are
    inputs; sounds and posted identifiers are logged. */
module CheckIn {
  import opened Js
  import opened Guests

  /** The two feedback sounds. */
  datatype Sound = Approved | Rejected

  /** What the check-in request returned: a 2xx body, or an error with the
      body's `message` and `guest`, when there was one. */
  datatype CheckInReply =
    | Success(guest: Option<Guest>, alreadyCheckedIn: bool)
    | Failure(message: Option<string>, failedGuest: Option<Guest>)

  /** How one attempt ends. */
  datatype Outcome =
    | Admitted(participant: Guest, already: bool)
    | Refused(message: string)

  /** The sound an outcome plays. */
  function SoundOf(o: Outcome): Sound {
    if o.Admitted? then Approved else Rejected
  }

  /** The `catch` branch's message: the server's, else `guestNotFound`. */
  function FailureText(message: Option<string>, t: string -> string): string {
    Or(message, t("guestNotFound"))
  }

  /** `handleCheckIn` after the request: a reply that names a guest with an id
      admits it; so does the `alreadyCheckedIn` error when it carries such a
      guest; everything else is refused. */
  function Classify(reply: CheckInReply, t: string -> string): (o: Outcome)
    ensures o.Admitted? <==>
      (reply.Success? && HasId(reply.guest)) ||
      (reply.Failure? && FailureText(reply.message, t) == t("alreadyCheckedIn") && HasId(reply.failedGuest))
    ensures o.Admitted? && reply.Success? ==> o.participant == reply.guest.value && o.already == reply.alreadyCheckedIn
    ensures o.Admitted? && reply.Failure? ==> o.participant == reply.failedGuest.value && o.already
    ensures o.Refused? && reply.Success? ==> o.message == t("error") + ": " + t("guestNotFound")
    ensures o.Refused? && reply.Failure? ==> o.message == t("error") + ": " + FailureText(reply.message, t)
  {
    match reply
    case Success(guest, already) =>
      if HasId(guest) then Admitted(guest.value, already)
      else Refused(t("error") + ": " + t("guestNotFound"))
    case Failure(message, guest) =>
      var text := FailureText(message, t);
      if text == t("alreadyCheckedIn") && HasId(guest) then Admitted(guest.value, true)
      else Refused(t("error") + ": " + text)
  }

  /** An admitted participant always has an id, and a refusal always shows a
      non-empty error. */
  lemma {:induction false} OutcomeShown(reply: CheckInReply, t: string -> string)
    ensures Classify(reply, t).Admitted? ==> Classify(reply, t).participant.id != ""
    ensures Classify(reply, t).Refused? ==> Classify(reply, t).message != ""
  {
    var o := Classify(reply, t);
    if o.Refused? {
      assert o.message[|t("error")|] == ':';
    }
  }

  /** A reply without a usable guest is refused whatever its message says. */
  lemma {:induction false} NoGuestRefused(reply: CheckInReply, t: string -> string)
    requires reply.Success? ==> !HasId(reply.guest)
    requires reply.Failure? ==> !HasId(reply.failedGuest)
    ensures Classify(reply, t).Refused?
    ensures SoundOf(Classify(reply, t)) == Rejected
  {
  }

  /** What the camera's decode callback receives for one frame. */
  datatype DecodeEvent =
    | Decoded(text: string)
    | NothingFound
    | DecodeFailed(message: string)

  class Station {
    var scanning: bool
    var qrId: string
    var error: string
    var participant: Option<Guest>
    var isParticipantModalOpen: bool
    var alreadyCheckedIn: bool
    /** The last scanned identifier; a repeat of it is not sent again. Each
        scan sees the key left by the one before, since a scan is one step. */
    var lastScannedQrId: string
    /** The sounds played, oldest first. */
    var sounds: seq<Sound>
    /** The identifiers posted to the check-in endpoint, oldest first. */
    var requests: seq<string>

    constructor ()
      ensures !scanning && qrId == "" && error == "" && participant.None?
      ensures !isParticipantModalOpen && !alreadyCheckedIn && lastScannedQrId == ""
      ensures sounds == [] && requests == []
    {
      scanning, qrId, error, participant := false, "", "", None;
      isParticipantModalOpen, alreadyCheckedIn, lastScannedQrId := false, false, "";
      sounds, requests := [], [];
    }

    /** The screen shows outcome `o`. */
    predicate Shows(o: Outcome)
      reads this
    {
      match o
      case Admitted(g, already) =>
        participant == Some(g) && alreadyCheckedIn == already && isParticipantModalOpen && error == ""
      case Refused(message) =>
        participant.None? && !alreadyCheckedIn && !isParticipantModalOpen && error == message
    }

    /** `handleCheckIn(id)` with the backend's reply. */
    method CheckIn(id: string, reply: CheckInReply, t: string -> string)
      modifies this`error, this`participant, this`isParticipantModalOpen, this`alreadyCheckedIn,
               this`sounds, this`requests
      ensures id == "" ==>
        error == t("error") + ": " + t("qrIdEmpty") && sounds == old(sounds) + [Rejected] &&
        requests == old(requests) && participant == old(participant) &&
        isParticipantModalOpen == old(isParticipantModalOpen) && alreadyCheckedIn == old(alreadyCheckedIn)
      ensures id != "" ==>
        requests == old(requests) + [id] && Shows(Classify(reply, t)) &&
        sounds == old(sounds) + [SoundOf(Classify(reply, t))]
    {
      if id == "" {
        error := t("error") + ": " + t("qrIdEmpty");
        sounds := sounds + [Rejected];
        return;
      }
      requests := requests + [id];
      var o := Classify(reply, t);
      match o
      case Admitted(g, already) =>
        participant := Some(g);
        alreadyCheckedIn := already;
        isParticipantModalOpen := true;
        error := "";
        sounds := sounds + [Approved];
      case Refused(message) =>
        error := message;
        participant := None;
        isParticipantModalOpen := false;
        alreadyCheckedIn := false;
        sounds := sounds + [Rejected];
    }

    /** `setQrId` from the manual input. */
    method Type(value: string)
      modifies this`qrId
      ensures qrId == value
    {
      qrId := value;
    }

    /** `handleManualCheckIn`: the typed identifier is checked in; an empty
        one is refused without a request. */
    method ManualCheckIn(reply: CheckInReply, t: string -> string)
      modifies this`error, this`participant, this`isParticipantModalOpen, this`alreadyCheckedIn,
               this`sounds, this`requests
      ensures qrId == "" ==>
        error == t("error") + ": " + t("qrIdEmpty") && sounds == old(sounds) + [Rejected] &&
        requests == old(requests) && participant == old(participant) &&
        isParticipantModalOpen == old(isParticipantModalOpen) && alreadyCheckedIn == old(alreadyCheckedIn)
      ensures qrId != "" ==>
        requests == old(requests) + [qrId] && Shows(Classify(reply, t)) &&
        sounds == old(sounds) + [SoundOf(Classify(reply, t))]
    {
      if qrId != "" {
        CheckIn(qrId, reply, t);
      } else {
        error := t("error") + ": " + t("qrIdEmpty");
        sounds := sounds + [Rejected];
      }
    }

    /** The start/stop button. */
    method ToggleScanning()
      modifies this`scanning
      ensures scanning == !old(scanning)
    {
      scanning := !scanning;
    }

    /** Nothing the scanner callback can change has changed. */
    twostate predicate Untouched()
      reads this
    {
      qrId == old(qrId) && lastScannedQrId == old(lastScannedQrId) && error == old(error) &&
      participant == old(participant) && isParticipantModalOpen == old(isParticipantModalOpen) &&
      alreadyCheckedIn == old(alreadyCheckedIn) && sounds == old(sounds) && requests == old(requests)
    }

    /** The decode callback for one frame, with the reply a check-in would
        get. A decoded identifier equal to the last one is ignored; a new one
        becomes the last one and is checked in. A decode failure other than
        "nothing found" shows an error and plays the rejected sound. */
    method Scanned(event: DecodeEvent, reply: CheckInReply, t: string -> string)
      modifies this`qrId, this`lastScannedQrId, this`error, this`participant,
               this`isParticipantModalOpen, this`alreadyCheckedIn, this`sounds, this`requests
      ensures event.Decoded? && event.text == old(lastScannedQrId) ==> Untouched()
      ensures event.Decoded? && event.text != old(lastScannedQrId) ==>
        qrId == event.text && lastScannedQrId == event.text
      ensures event.Decoded? && event.text != old(lastScannedQrId) && event.text != "" ==>
        requests == old(requests) + [event.text] && Shows(Classify(reply, t)) &&
        sounds == old(sounds) + [SoundOf(Classify(reply, t))]
      ensures event.Decoded? && event.text != old(lastScannedQrId) && event.text == "" ==>
        error == t("error") + ": " + t("qrIdEmpty") && sounds == old(sounds) + [Rejected] &&
        requests == old(requests) && participant == old(participant) &&
        isParticipantModalOpen == old(isParticipantModalOpen) && alreadyCheckedIn == old(alreadyCheckedIn)
      ensures event.NothingFound? ==> Untouched()
      ensures event.DecodeFailed? ==>
        error == t("qrCodeReadError") + ": " + event.message && sounds == old(sounds) + [Rejected] &&
        qrId == old(qrId) && lastScannedQrId == old(lastScannedQrId) && requests == old(requests) &&
        participant == old(participant) && isParticipantModalOpen == old(isParticipantModalOpen) &&
        alreadyCheckedIn == old(alreadyCheckedIn)
    {
      match event
      case Decoded(text) =>
        if text != lastScannedQrId {
          qrId := text;
          lastScannedQrId := text;
          CheckIn(text, reply, t);
        }
      case NothingFound =>
      case DecodeFailed(message) =>
        error := t("qrCodeReadError") + ": " + message;
        sounds := sounds + [Rejected];
    }

    /** The camera could not be started. */
    method CameraFailed(message: string, t: string -> string)
      modifies this`error, this`scanning, this`sounds
      ensures error == t("cameraStartFailed") + ": " + message
      ensures !scanning && sounds == old(sounds) + [Rejected]
    {
      error := t("cameraStartFailed") + ": " + message;
      scanning := false;
      sounds := sounds + [Rejected];
    }

    /** `closeParticipantModal`: clears the shown participant and re-arms the
        scanner for any identifier, the last one included. */
    method CloseParticipantModal()
      modifies this`isParticipantModalOpen, this`participant, this`alreadyCheckedIn, this`error,
               this`lastScannedQrId
      ensures !isParticipantModalOpen && participant.None? && !alreadyCheckedIn && error == ""
      ensures lastScannedQrId == ""
    {
      isParticipantModalOpen := false;
      participant := None;
      alreadyCheckedIn := false;
      error := "";
      lastScannedQrId := "";
    }
  }
}
