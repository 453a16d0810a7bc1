/** The navigation bar: the session countdown shown as `mm:ss`, reset by any
    user interaction and ending the session when it runs out; the menu
    filtered by the token's roles; the name of the current language. */
module Navbar {
  import opened Js
  import opened Session

  // ----- the countdown display -----

  /** JavaScript's `a % b` for a positive `b`: the remainder takes the sign
      of `a`. */
  function JsRem(a: int, b: int): (r: int)
    requires b > 0
    ensures a >= 0 ==> r == a % b
    ensures a < 0 ==> -b < r <= 0
  {
    if a >= 0 then a % b else -((-a) % b)
  }

  /** `formatTime(seconds)`: floored minutes and JavaScript remainder seconds,
      each padded with `0` to two characters, joined by `:`. */
  function FormatTime(seconds: int): string {
    PadStartZero(IntToDecimal(seconds / 60), 2) + ":" + PadStartZero(IntToDecimal(JsRem(seconds, 60)), 2)
  }

  /** A run of zeros in front of a number does not change its value. */
  lemma {:induction false} LeadingZeros(z: string, d: string)
    requires forall i :: 0 <= i < |z| ==> z[i] == '0'
    requires AllRadixDigits(d, 10)
    ensures AllRadixDigits(z + d, 10)
    ensures RadixValue(z + d, 10) == RadixValue(d, 10)
  {
    assert AllRadixDigits(z + d, 10) by {
      forall i | 0 <= i < |z + d|
        ensures DigitValue((z + d)[i], 10).Some?
      {
        if i < |z| {
          assert (z + d)[i] == '0';
        } else {
          assert (z + d)[i] == d[i - |z|];
        }
      }
    }
    if d == [] {
      assert z + d == z;
      if z != [] {
        assert z[..|z| - 1] + [] == z[..|z| - 1];
        LeadingZeros(z[..|z| - 1], []);
        assert DigitValue(z[|z| - 1], 10) == Some(0);
      }
    } else {
      assert (z + d)[..|z + d| - 1] == z + d[..|d| - 1];
      LeadingZeros(z, d[..|d| - 1]);
    }
  }

  /** The decimal rendering of a number below 100 has at most two digits. */
  lemma {:induction false} TwoDigits(n: nat)
    requires n < 100
    ensures |NatToDecimal(n)| <= 2
  {
    if n >= 10 {
      assert NatToDecimal(n) == NatToDecimal(n / 10) + [DigitChar(n % 10)];
    }
  }

  /** A padded rendering reads back as the number, and is at least as wide as
      the padding asks. */
  lemma {:induction false} PaddedValue(n: nat, width: nat)
    ensures AllRadixDigits(PadStartZero(NatToDecimal(n), width), 10)
    ensures RadixValue(PadStartZero(NatToDecimal(n), width), 10) == n
    ensures |PadStartZero(NatToDecimal(n), width)| >= width
  {
    var d := NatToDecimal(n);
    DecimalRoundTrip(n);
    if |d| < width {
      var z := seq(width - |d|, _ => '0');
      assert PadStartZero(d, width) == z + d;
      LeadingZeros(z, d);
    }
  }

  /** For a count that is not negative both parts are plain padded decimals. */
  lemma FormatTimeOfNat(seconds: nat)
    ensures FormatTime(seconds) ==
      PadStartZero(NatToDecimal(seconds / 60), 2) + ":" + PadStartZero(NatToDecimal(seconds % 60), 2)
  {
  }

  /** For a non-negative count, the display is a minutes part, `:` and a
      two-digit seconds part below 60, and reads back as the count. */
  lemma {:induction false} FormatTimeRoundTrip(seconds: nat) returns (mm: string, ss: string)
    ensures FormatTime(seconds) == mm + ":" + ss
    ensures |mm| >= 2 && |ss| == 2
    ensures AllRadixDigits(mm, 10) && AllRadixDigits(ss, 10)
    ensures RadixValue(ss, 10) < 60
    ensures RadixValue(mm, 10) * 60 + RadixValue(ss, 10) == seconds
  {
    mm := PadStartZero(NatToDecimal(seconds / 60), 2);
    ss := PadStartZero(NatToDecimal(seconds % 60), 2);
    PaddedValue(seconds / 60, 2);
    PaddedValue(seconds % 60, 2);
    TwoDigits(seconds % 60);
    FormatTimeOfNat(seconds);
    assert (seconds / 60) * 60 + seconds % 60 == seconds;
  }

  /** A session already past its expiry shows negative parts, the seconds
      carrying their own minus sign: `-5` seconds displays as `-1:-5`. */
  lemma NegativeDisplay(seconds: int)
    requires seconds == -5
    ensures FormatTime(seconds) == "-1:-5"
  {
    assert seconds / 60 == -1;
    assert JsRem(seconds, 60) == -5;
    assert IntToDecimal(-1) == "-1";
    assert IntToDecimal(-5) == "-5";
  }

  // ----- the countdown -----

  /** The inactivity allowance set by any click, key press or mouse move. */
  const ResetSeconds := 3600

  class Countdown {
    var timeLeft: int
    /** Whether the one-second interval is scheduled. */
    var running: bool

    /** Ticks left before the session ends, with no interaction. */
    function Remaining(): nat
      reads this
    {
      if !running then 0 else if timeLeft <= 1 then 1 else timeLeft
    }

    /** The initial value: the token's seconds to expiry, or 0 without a
        token; the interval runs only with a token. */
    constructor (exp: Option<int>, now: int)
      ensures exp.Some? ==> timeLeft == exp.value - now && running
      ensures exp.None? ==> timeLeft == 0 && !running
    {
      if exp.Some? {
        timeLeft := exp.value - now;
        running := true;
      } else {
        timeLeft := 0;
        running := false;
      }
    }

    /** One second: the count goes down by one; a count of at most 1 becomes
        0, stops the interval and ends the session. Each tick of a running
        countdown uses up exactly one remaining tick. */
    method Tick() returns (timerEnded: bool)
      modifies this
      ensures !old(running) ==> timeLeft == old(timeLeft) && !running && !timerEnded
      ensures old(running) && old(timeLeft) <= 1 ==> timeLeft == 0 && !running && timerEnded
      ensures old(running) && old(timeLeft) > 1 ==> timeLeft == old(timeLeft) - 1 && running && !timerEnded
      ensures old(running) ==> Remaining() == old(Remaining()) - 1
      ensures timerEnded <==> old(running) && Remaining() == 0
    {
      timerEnded := false;
      if !running {
        return;
      }
      if timeLeft <= 1 {
        timeLeft := 0;
        running := false;
        timerEnded := true;
      } else {
        timeLeft := timeLeft - 1;
      }
    }

    /** `resetTimer`: any interaction restores the full allowance; it does
        not restart an interval that has stopped. */
    method Reset()
      modifies this`timeLeft
      ensures timeLeft == ResetSeconds
      ensures running ==> Remaining() == ResetSeconds
    {
      timeLeft := ResetSeconds;
    }
  }

  // ----- the menu -----

  /** One menu entry: its path, the translation key of its label and the
      roles that may see it. */
  datatype MenuItem = MenuItem(path: string, labelKey: string, roles: seq<string>)

  const MenuItems: seq<MenuItem> := [
    MenuItem("/checkin", "checkIn", ["Admin", "Editor", "CheckInEditor"]),
    MenuItem("/manual-checkin", "manualCheckIn", ["Admin", "Editor", "CheckInEditor"]),
    MenuItem("/participants", "participants", ["Admin", "Editor", "ParticipantEditor"]),
    MenuItem("/volunteers", "volunteers", ["Admin", "Editor", "ParticipantEditor"]),
    MenuItem("/settings", "eventSettings", ["Admin", "Editor", "GuestEditor"]),
    MenuItem("/users", "users", ["Admin", "UserEditor"]),
    MenuItem("/admin-settings", "adminSettings", ["Admin"])
  ]

  /** `menuItems.filter(item => hasAccess(item.roles))`. */
  function VisibleMenu(items: seq<MenuItem>, roles: seq<string>): (r: seq<MenuItem>)
    ensures |r| <= |items|
    ensures forall x :: x in r <==> x in items && HasAccess(roles, x.roles)
  {
    if items == [] then []
    else
      var rest := VisibleMenu(items[1..], roles);
      if HasAccess(roles, items[0].roles) then [items[0]] + rest else rest
  }

  /** Filtering a menu in two parts gives the two filtered parts in order:
      the entries shown keep their relative order. */
  lemma {:induction false} VisibleMenuAppend(a: seq<MenuItem>, b: seq<MenuItem>, roles: seq<string>)
    ensures VisibleMenu(a + b, roles) == VisibleMenu(a, roles) + VisibleMenu(b, roles)
  {
    if a != [] {
      assert (a + b)[1..] == a[1..] + b;
      VisibleMenuAppend(a[1..], b, roles);
    } else {
      assert a + b == b;
    }
  }

  /** A menu whose every entry is accessible is shown whole. */
  lemma {:induction false} VisibleMenuAll(items: seq<MenuItem>, roles: seq<string>)
    requires forall k :: 0 <= k < |items| ==> HasAccess(roles, items[k].roles)
    ensures VisibleMenu(items, roles) == items
  {
    if items != [] {
      VisibleMenuAll(items[1..], roles);
    }
  }

  /** An `Admin` sees the whole menu. */
  lemma {:induction false} AdminSeesWholeMenu(roles: seq<string>)
    requires "Admin" in roles
    ensures VisibleMenu(MenuItems, roles) == MenuItems
  {
    var i :| 0 <= i < |roles| && roles[i] == "Admin";
    forall k | 0 <= k < |MenuItems|
      ensures HasAccess(roles, MenuItems[k].roles)
    {
      assert MenuItems[k].roles[0] == "Admin";
      assert roles[i] in MenuItems[k].roles;
    }
    VisibleMenuAll(MenuItems, roles);
  }

  // ----- the language -----

  /** The name of the current language, `English` for any other code. */
  function LanguageName(code: string): (name: string)
    ensures name in ["Türkçe", "English", "Français"]
    ensures code != "tr" && code != "fr" ==> name == "English"
  {
    if code == "tr" then "Türkçe"
    else if code == "en" then "English"
    else if code == "fr" then "Français"
    else "English"
  }
}
