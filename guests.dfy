/** The guest record as the backend returns it. Absent and falsy JavaScript
    values are modelled as follows: a missing `_id` is the empty string, a
    missing boolean is `false`, and `null`/missing references are `None`. */
module Guests {
  import opened Js

  /** An hour of the day as `Date.prototype.getHours` returns it. */
  type Hour = h: int | 0 <= h < 24

  /** A check-in timestamp together with its local hour (the time zone is an
      input, so the hour is supplied rather than computed). */
  datatype CheckInTime = CheckInTime(stamp: string, hour: Hour)

  datatype Guest = Guest(
    id: string,
    qrId: string,
    firstName: string,
    lastName: string,
    email: string,
    guestType: string,
    willAttend: bool,
    responded: bool,
    isCheckedIn: bool,
    checkInTime: Option<CheckInTime>,
    plusOneQrId: Option<string>,
    selectedInviterId: Option<string>,
    guests: Option<seq<Guest>>)

  const EMPLOYEE := "EMPLOYEE"
  const VIP := "VIP"
  const REGULAR := "REGULAR"
  const PLUSONE := "PLUSONE"

  /** `guest && guest._id`: the reply names a stored guest. */
  predicate HasId(g: Option<Guest>) {
    g.Some? && g.value.id != ""
  }

  /** `g.guests ? g.guests.length : 0`. */
  function PlusOneCount(g: Guest): nat {
    if g.guests.Some? then |g.guests.value| else 0
  }

  /** `['EMPLOYEE', 'VIP'].includes(type)`: the types that may invite plus-ones. */
  predicate IsInviterType(guestType: string) {
    guestType == EMPLOYEE || guestType == VIP
  }

  /** `firstName + ' ' + lastName`. */
  function FullName(g: Guest): string {
    g.firstName + " " + g.lastName
  }
}
